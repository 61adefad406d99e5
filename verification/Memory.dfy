/** Moving bytes within an array. */
module Memory {
  import opened Basics

  /** `w` written over `b` at `p`. */
  function Overwrite(b: seq<byte>, p: nat, w: seq<byte>): (r: seq<byte>)
    requires p + |w| <= |b|
    ensures |r| == |b|
  {
    b[..p] + w + b[p + |w|..]
  }

  /** Copies `n` bytes within the buffer; the ranges may overlap. */
  method MemMove(a: array<byte>, dst: nat, src: nat, n: nat)
    requires dst + n <= a.Length && src + n <= a.Length
    modifies a
    ensures a[..] == Overwrite(old(a[..]), dst, old(a[src..src + n]))
  {
    var block := a[src..src + n];
    forall i | 0 <= i < n {
      a[dst + i] := block[i];
    }
  }
}
