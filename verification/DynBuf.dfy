/** A byte buffer that grows: an array with room to spare, of which a prefix is used. */
module DynBufs {
  import opened Basics
  import opened Memory

  class DynBuf {
    var buf: array<byte>
    var size: nat
    /** The used prefix. */
    ghost var bytes: seq<byte>

    constructor ()
      ensures Valid() && bytes == [] && fresh(buf)
    {
      buf := new byte[0];
      size, bytes := 0, [];
    }

    ghost predicate Valid()
      reads this, buf
    {
      size <= buf.Length && bytes == buf[..size]
    }

    /** Makes sure of room for `newSize` bytes.  When the array is too small it grows by half
        at least, and what is used is copied. */
    method Realloc(newSize: nat)
      requires Valid()
      modifies this`buf
      ensures Valid() && newSize <= buf.Length && (buf == old(buf) || fresh(buf))
      ensures buf.Length == if newSize <= old(buf.Length) then old(buf.Length) else Max(newSize, old(buf.Length) * 3 / 2)
    {
      if newSize > buf.Length {
        var capacity := buf.Length * 3 / 2;
        if capacity <= newSize {
          capacity := newSize;
        }
        var bigger := new byte[capacity];
        forall i | 0 <= i < size {
          bigger[i] := buf[i];
        }
        assert bigger[..size] == buf[..size];
        buf := bigger;
      }
    }

    /** Appends bytes. */
    method Put(data: seq<byte>)
      requires Valid()
      modifies this, buf
      ensures Valid() && (buf == old(buf) || fresh(buf)) && bytes == old(bytes) + data
    {
      if size + |data| > buf.Length {
        Realloc(size + |data|);
      }
      forall i | 0 <= i < |data| {
        buf[size + i] := data[i];
      }
      size := size + |data|;
      bytes := bytes + data;
    }

    /** Appends a copy of bytes that are in the buffer already. */
    method PutSelf(offset: nat, len: nat)
      requires Valid() && offset + len <= size
      modifies this, buf
      ensures Valid() && (buf == old(buf) || fresh(buf)) && bytes == old(bytes) + old(bytes)[offset..offset + len]
    {
      if size + len > buf.Length {
        Realloc(size + len);
      }
      MemMove(buf, size, offset, len);
      size := size + len;
      bytes := bytes + bytes[offset..offset + len];
    }

    /** Opens a gap: what is behind `pos` moves up, possibly over itself.  The gap keeps what
        was there. */
    method Insert(pos: nat, len: nat) returns (ghost gap: seq<byte>)
      requires Valid() && pos <= size
      modifies this, buf
      ensures Valid() && (buf == old(buf) || fresh(buf))
      ensures |gap| == len && bytes == old(bytes)[..pos] + gap + old(bytes)[pos..]
    {
      Realloc(size + len);
      ghost var before := buf[..];
      MemMove(buf, pos + len, pos, size - pos);
      gap := before[pos..pos + len];
      MovedUp(before, bytes, pos, len);
      size := size + len;
      bytes := bytes[..pos] + gap + bytes[pos..];
    }

    /** Stores bytes over others. */
    method Write(pos: nat, data: seq<byte>)
      requires Valid() && pos + |data| <= size
      modifies this`bytes, buf
      ensures Valid() && bytes == old(bytes)[..pos] + data + old(bytes)[pos + |data|..]
    {
      forall i | 0 <= i < |data| {
        buf[pos + i] := data[i];
      }
      bytes := bytes[..pos] + data + bytes[pos + |data|..];
    }

    method Truncate(n: nat)
      requires Valid() && n <= size
      modifies this`size, this`bytes
      ensures Valid() && bytes == old(bytes)[..n]
    {
      size := n;
      bytes := bytes[..n];
    }
  }

  /** Moving the end of the used prefix up leaves a gap in it. */
  lemma MovedUp(b: seq<byte>, used: seq<byte>, pos: nat, len: nat)
    requires pos <= |used| && |used| + len <= |b| && b[..|used|] == used
    ensures Overwrite(b, pos + len, b[pos..|used|])[..|used| + len] == used[..pos] + b[pos..pos + len] + used[pos..]
  {
    assert b[pos..|used|] == used[pos..];
    assert b[..pos + len] == used[..pos] + b[pos..pos + len];
  }
}
