/** The 1 to 6 byte encoding of section 2 of RFC 2279, without overlong forms. */
module Utf8 {
  import opened Basics

  type code = c: int | 0 <= c < TWO31

  /** Bytes after the first one. */
  function Extra(c: code): (l: nat)
    ensures l <= 5
  {
    if c < 0x80 then 0 else if c < 0x800 then 1 else if c < 0x1_0000 then 2
    else if c < 0x20_0000 then 3 else if c < 0x400_0000 then 4 else 5
  }

  /** The smallest code with `l` extra bytes. */
  function MinCode(l: nat): int {
    if l == 0 then 0 else if l == 1 then 0x80 else if l == 2 then 0x800 else if l == 3 then 0x1_0000
    else if l == 4 then 0x20_0000 else if l == 5 then 0x400_0000 else TWO31
  }

  /** The marker bits of the first byte, and what is left of it for the code. */
  function Marker(l: nat): int {
    if l == 0 then 0 else if l == 1 then 0xc0 else if l == 2 then 0xe0 else if l == 3 then 0xf0
    else if l == 4 then 0xf8 else 0xfc
  }

  function Room(l: nat): int {
    if l == 0 then 0x80 else if l == 1 then 0x20 else if l == 2 then 0x10 else if l == 3 then 0x08
    else if l == 4 then 0x04 else 0x02
  }

  /** The code without its last `l` six-bit groups, and those groups as bytes. */
  function Head(c: nat, l: nat): nat {
    if l == 0 then c else Head(c / 64, l - 1)
  }

  function Tail(c: nat, l: nat): (t: seq<byte>)
    ensures |t| == l
  {
    if l == 0 then [] else Tail(c / 64, l - 1) + [0x80 + c % 64]
  }

  lemma HeadFits(c: code)
    ensures Head(c, Extra(c)) < Room(Extra(c)) && MinCode(Extra(c)) <= c < MinCode(Extra(c) + 1)
  {
    HeadRange(c, Extra(c));
  }

  lemma HeadRange(c: nat, l: nat)
    requires l <= 5
    ensures Head(c, l) < Room(l) <==> c < MinCode(l + 1)
  {
    if l == 0 {
    } else if l == 1 {
      assert Head(c, 1) == Head(c / 64, 0) == c / 64;
    } else if l == 2 {
      assert Head(c, 2) == Head(c / 64, 1) == Head(c / 64 / 64, 0);
    } else if l == 3 {
      assert Head(c, 3) == Head(c / 64, 2) == Head(c / 64 / 64, 1) == Head(c / 64 / 64 / 64, 0);
    } else if l == 4 {
      assert Head(c, 4) == Head(c / 64, 3) == Head(c / 64 / 64, 2) == Head(c / 64 / 64 / 64, 1) == c / 64 / 64 / 64 / 64;
    } else {
      assert Head(c, 5) == Head(c / 64, 4) == Head(c / 64 / 64, 3) == Head(c / 64 / 64 / 64, 2)
          == Head(c / 64 / 64 / 64 / 64, 1) == c / 64 / 64 / 64 / 64 / 64;
    }
  }

  function FirstByte(c: code): (b: byte)
    ensures b < 0x80 || 0xc0 <= b < 0xfe
    ensures b == Marker(Extra(c)) + Head(c, Extra(c))
  {
    HeadFits(c);
    Marker(Extra(c)) + Head(c, Extra(c))
  }

  /** The bytes of a code. */
  function Encoding(c: code): (e: seq<byte>)
    ensures |e| == Extra(c) + 1
  {
    [FirstByte(c)] + Tail(c, Extra(c))
  }

  // ----- Encoder -----

  lemma Shifts(c: nat)
    ensures c / 64 / 64 == c / 0x1000
    ensures c / 64 / 64 / 64 == c / 0x4_0000
    ensures c / 64 / 64 / 64 / 64 == c / 0x100_0000
    ensures c / 64 / 64 / 64 / 64 / 64 == c / 0x4000_0000
  {
  }

  lemma TailDigits(c: nat)
    ensures Tail(c, 1) == [0x80 + c % 64] && Head(c, 1) == c / 64
    ensures Tail(c, 2) == [0x80 + c / 64 % 64, 0x80 + c % 64] && Head(c, 2) == c / 64 / 64
  {
    assert Tail(c, 1) == Tail(c / 64, 0) + [0x80 + c % 64];
    assert Tail(c, 2) == Tail(c / 64, 1) + [0x80 + c % 64];
    assert Tail(c / 64, 1) == Tail(c / 64 / 64, 0) + [0x80 + c / 64 % 64];
    assert Head(c, 2) == Head(c / 64, 1) == Head(c / 64 / 64, 0);
  }

  /** One more digit in front: the last digits are those of the number without its lowest. */
  lemma TailNext(c: nat, n: nat)
    ensures Tail(c, n + 1) == Tail(c / 64, n) + [0x80 + c % 64] && Head(c, n + 1) == Head(c / 64, n)
  {
  }

  lemma ThreeDigits(c: nat)
    ensures Tail(c, 3) == [0x80 + c / 64 / 64 % 64] + Tail(c, 2) && Head(c, 3) == c / 64 / 64 / 64
  {
    hide Tail, Head;
    TailNext(c, 2);
    TailDigits(c);
    TailDigits(c / 64);
  }

  lemma FourDigits(c: nat)
    ensures Tail(c, 4) == [0x80 + c / 64 / 64 / 64 % 64] + Tail(c, 3) && Head(c, 4) == c / 64 / 64 / 64 / 64
  {
    hide Tail, Head;
    TailNext(c, 3);
    TailNext(c, 2);
    ThreeDigits(c / 64);
  }

  lemma MoreDigits(c: nat)
    ensures Tail(c, 3) == [0x80 + c / 64 / 64 % 64] + Tail(c, 2) && Head(c, 3) == c / 64 / 64 / 64
    ensures Tail(c, 4) == [0x80 + c / 64 / 64 / 64 % 64] + Tail(c, 3) && Head(c, 4) == c / 64 / 64 / 64 / 64
    ensures Tail(c, 5) == [0x80 + c / 64 / 64 / 64 / 64 % 64] + Tail(c, 4) && Head(c, 5) == c / 64 / 64 / 64 / 64 / 64
  {
    hide Tail, Head;
    ThreeDigits(c);
    FourDigits(c);
    FourDigits(c / 64);
    TailNext(c, 4);
    TailNext(c, 3);
  }

  lemma EncodingBytes(c: code)
    ensures c < 0x80 ==> Encoding(c) == [c]
    ensures 0x80 <= c < 0x800 ==> Encoding(c) == [Marker(1) + Head(c, 1)] + Tail(c, 1)
    ensures 0x800 <= c < 0x1_0000 ==> Encoding(c) == [Marker(2) + Head(c, 2)] + Tail(c, 2)
    ensures 0x1_0000 <= c < 0x20_0000 ==> Encoding(c) == [Marker(3) + Head(c, 3)] + Tail(c, 3)
    ensures 0x20_0000 <= c < 0x400_0000 ==> Encoding(c) == [Marker(4) + Head(c, 4)] + Tail(c, 4)
    ensures 0x400_0000 <= c ==> Encoding(c) == [Marker(5) + Head(c, 5)] + Tail(c, 5)
  {
    hide Head, Tail;
    HeadFits(c);
    NoExtra(c);
  }

  lemma NoExtra(c: nat)
    ensures Head(c, 0) == c && Tail(c, 0) == []
  {
  }

  /** An example of section 4 of RFC 2279, and the last code of 4 bytes. */
  lemma KnownEncodings()
    ensures Encoding(0x41) == [0x41] && Encoding(0x2262) == [0xe2, 0x89, 0xa2] && Encoding(0x391) == [0xce, 0x91]
    ensures Encoding(0x1f_ffff) == [0xf7, 0xbf, 0xbf, 0xbf]
  {
  }

  method Encode(c: nat) returns (buf: seq<byte>)
    ensures c < TWO31 ==> buf == Encoding(c)
    ensures c >= TWO31 ==> buf == []
  {
    hide Head, Tail, Encoding;
    if c < TWO31 {
      EncodingBytes(c);
      Shifts(c);
      TailDigits(c);
      MoreDigits(c);
    }
    buf := [];
    if c < 0x80 {
      buf := buf + [c];
    } else if c >= TWO31 {
      return;
    } else {
      if c < 0x800 {
        buf := buf + [c / 0x40 + 0xc0];
      } else {
        if c < 0x1_0000 {
          buf := buf + [c / 0x1000 + 0xe0];
        } else {
          if c < 0x20_0000 {
            buf := buf + [c / 0x4_0000 + 0xf0];
          } else {
            if c < 0x400_0000 {
              buf := buf + [c / 0x100_0000 + 0xf8];
            } else {
              buf := buf + [c / 0x4000_0000 + 0xfc];
              buf := buf + [c / 0x100_0000 % 0x40 + 0x80];
            }
            buf := buf + [c / 0x4_0000 % 0x40 + 0x80];
          }
          buf := buf + [c / 0x1000 % 0x40 + 0x80];
        }
        buf := buf + [c / 0x40 % 0x40 + 0x80];
      }
      buf := buf + [c % 0x40 + 0x80];
    }
  }

  // ----- Decoder -----

  lemma {:induction false} TailBytes(c: nat, l: nat, i: nat)
    requires i < l
    ensures 0x80 <= Tail(c, l)[i] < 0xc0
    decreases l
  {
    if i < l - 1 { TailBytes(c / 64, l - 1, i); }
  }

  lemma {:induction false} SameGroups(c: nat, d: nat, l: nat)
    requires Head(c, l) == Head(d, l) && Tail(c, l) == Tail(d, l)
    ensures c == d
    decreases l
  {
    if l > 0 {
      var x, y := Tail(c, l), Tail(d, l);
      assert x[l - 1] == y[l - 1] && x[..l - 1] == Tail(c / 64, l - 1) && y[..l - 1] == Tail(d / 64, l - 1);
      SameGroups(c / 64, d / 64, l - 1);
    }
  }

  /** The first byte tells how many follow. */
  function ExtraOf(b: byte): Option<nat> {
    if b < 0x80 then Some(0) else if b < 0xc0 then None else if b < 0xe0 then Some(1) else if b < 0xf0 then Some(2)
    else if b < 0xf8 then Some(3) else if b < 0xfc then Some(4) else if b < 0xfe then Some(5) else None
  }

  lemma FirstByteTells(c: code)
    ensures ExtraOf(FirstByte(c)) == Some(Extra(c))
  {
    HeadFits(c);
  }

  /** What a decoder finds when the bytes at hand start with the encoding of `d`. */
  ghost predicate PrefixFacts(d: code, p: seq<byte>) {
    var l := Extra(d);
    && |p| > l && ExtraOf(p[0]) == Some(l) && p[0] == Marker(l) + Head(d, l)
    && p[1..l + 1] == Tail(d, l) && MinCode(l) <= d
  }

  lemma PrefixShape(d: code, p: seq<byte>)
    requires Encoding(d) <= p
    ensures PrefixFacts(d, p)
  {
    hide Head, Tail;
    FirstByteTells(d);
    HeadFits(d);
    var e := Encoding(d);
    assert e[0] == p[0] && e[1..] == Tail(d, Extra(d)) && p[..|e|] == e;
    assert p[1..|e|] == p[..|e|][1..];
  }

  /** No two encodings start the same bytes. */
  lemma PrefixFree(c: code, d: code, p: seq<byte>)
    requires Encoding(c) <= p && Encoding(d) <= p
    ensures c == d
  {
    hide Encoding, Head, Tail;
    PrefixShape(c, p);
    PrefixShape(d, p);
    SameGroups(c, d, Extra(c));
  }

  /** Reads the continuation bytes behind the first one. */
  method ReadTail(p: seq<byte>, l: nat) returns (r: Option<nat>)
    requires |p| > l && ExtraOf(p[0]) == Some(l)
    ensures r.Some? ==> Head(r.value, l) == p[0] % Room(l) && Tail(r.value, l) == p[1..l + 1]
    ensures r.None? ==> forall d: code :: !(Encoding(d) <= p)
  {
    hide Encoding, Head, Tail;
    var first := p[0] % Room(l);
    var c: nat, i := first, 0;
    NoExtra(c);
    while i < l
      invariant 0 <= i <= l && Head(c, i) == first && Tail(c, i) == p[1..i + 1]
    {
      var next: int := p[i + 1];
      if next < 0x80 || next >= 0xc0 {
        NoSuchCode(p, l, i);
        return None;
      }
      TailGrows(c, i, next);
      c := c * 64 + next % 64;
      i := i + 1;
    }
    return Some(c);
  }

  /** The code whose encoding the bytes start with and its length, or nothing when
      there is no such code. */
  method Decode(p: seq<byte>) returns (r: Option<(code, nat)>)
    requires |p| >= 1
    ensures r.Some? ==> Encoding(r.value.0) <= p && r.value.1 == |Encoding(r.value.0)|
    ensures r.None? ==> forall c: code :: !(Encoding(c) <= p)
  {
    hide Encoding, Head, Tail;
    var b: int := p[0];
    if b < 0x80 {
      EncodingBytes(b);
      assert [b] <= p;
      return Some((b, 1));
    }
    forall d: code ensures Encoding(d) <= p ==> PrefixFacts(d, p) {
      if Encoding(d) <= p { PrefixShape(d, p); }
    }
    var l: nat;
    if 0xc0 <= b <= 0xdf {
      l := 1;
    } else if 0xe0 <= b <= 0xef {
      l := 2;
    } else if 0xf0 <= b <= 0xf7 {
      l := 3;
    } else if 0xf8 <= b <= 0xfb {
      l := 4;
    } else if 0xfc <= b <= 0xfd {
      l := 5;
    } else {
      return None;
    }
    if l > |p| - 1 {
      return None;
    }
    var read := ReadTail(p, l);
    if read == None {
      return None;
    }
    var c := read.value;
    HeadRange(c, l);
    if c < MinCode(l) {
      forall d: code ensures !(Encoding(d) <= p) {
        if Encoding(d) <= p {
          SameGroups(c, d, l);
        }
      }
      return None;
    }
    CompleteCode(c, l, p);
    return Some((c, l + 1));
  }

  lemma TailGrows(c: nat, i: nat, next: byte)
    requires 0x80 <= next < 0xc0
    ensures Head(c * 64 + next % 64, i + 1) == Head(c, i)
    ensures Tail(c * 64 + next % 64, i + 1) == Tail(c, i) + [next]
  {
    assert (c * 64 + next % 64) / 64 == c && (c * 64 + next % 64) % 64 == next - 0x80;
  }

  lemma NoSuchCode(p: seq<byte>, l: nat, i: nat)
    requires |p| > l > i && ExtraOf(p[0]) == Some(l) && !(0x80 <= p[i + 1] < 0xc0)
    ensures forall d: code :: !(Encoding(d) <= p)
  {
    hide Encoding, Head, Tail;
    forall d: code ensures !(Encoding(d) <= p) {
      if Encoding(d) <= p {
        PrefixShape(d, p);
        TailBytes(d, l, i);
      }
    }
  }

  lemma CompleteCode(c: nat, l: nat, p: seq<byte>)
    requires 1 <= l <= 5 && |p| > l && Head(c, l) < Room(l) && MinCode(l) <= c && Tail(c, l) == p[1..l + 1]
    requires p[0] == Marker(l) + Head(c, l)
    ensures c < TWO31 && Encoding(c) <= p && |Encoding(c)| == l + 1
  {
    hide Head, Tail;
    HeadRange(c, l);
    assert Extra(c) == l;
    assert p[..l + 1] == [p[0]] + p[1..l + 1];
  }

  // ----- Sequences of codes -----

  function EncodeAll(cs: seq<code>): seq<byte> {
    if cs == [] then [] else Encoding(cs[0]) + EncodeAll(cs[1..])
  }

  /** Every code sequence can be read back from its bytes in one way only. */
  lemma {:induction false} UniquelyDecodable(cs: seq<code>, ds: seq<code>)
    requires EncodeAll(cs) == EncodeAll(ds)
    ensures cs == ds
    decreases |cs|
  {
    hide Encoding;
    var p := EncodeAll(cs);
    if cs == [] || ds == [] {
    } else {
      assert Encoding(cs[0]) <= p && Encoding(ds[0]) <= p;
      PrefixFree(cs[0], ds[0], p);
      var n := |Encoding(cs[0])|;
      assert p[n..] == EncodeAll(cs[1..]) == EncodeAll(ds[1..]);
      UniquelyDecodable(cs[1..], ds[1..]);
      assert cs == [cs[0]] + cs[1..] && ds == [ds[0]] + ds[1..];
    }
  }

  lemma {:induction false} EncodeSnoc(cs: seq<code>, c: code)
    ensures EncodeAll(cs + [c]) == EncodeAll(cs) + Encoding(c)
    decreases |cs|
  {
    hide Encoding;
    if cs == [] {
      assert (cs + [c])[1..] == [];
    } else {
      assert (cs + [c])[1..] == cs[1..] + [c];
      EncodeSnoc(cs[1..], c);
    }
  }

  /** If bytes are an encoding that continues one already read, the rest is empty or
      starts with the encoding of a code. */
  lemma {:induction false} Resumes(cs: seq<code>, ds: seq<code>, p: seq<byte>, n: nat)
    requires EncodeAll(ds) == p && n < |p| && EncodeAll(cs) == p[..n]
    ensures |cs| < |ds| && cs == ds[..|cs|] && Encoding(ds[|cs|]) <= p[n..]
    decreases |cs|
  {
    hide Encoding;
    if cs == [] {
    } else {
      assert ds != [];
      assert Encoding(cs[0]) <= p by { assert Encoding(cs[0]) <= p[..n]; }
      assert Encoding(ds[0]) <= p;
      PrefixFree(cs[0], ds[0], p);
      var k := |Encoding(cs[0])|;
      assert p[k..][..n - k] == p[..n][k..];
      Resumes(cs[1..], ds[1..], p[k..], n - k);
      assert p[k..][n - k..] == p[n..];
    }
  }

  /** Decoding code after code inverts `EncodeAll`, and refuses all other bytes. */
  method DecodeAll(p: seq<byte>) returns (r: Option<seq<code>>)
    ensures r.Some? ==> EncodeAll(r.value) == p
    ensures r.None? ==> forall ds: seq<code> :: EncodeAll(ds) != p
  {
    hide Encoding, EncodeAll;
    var cs: seq<code>, n := [], 0;
    NothingEncoded();
    while n < |p|
      invariant 0 <= n <= |p| && EncodeAll(cs) == p[..n]
    {
      var one := Decode(p[n..]);
      if one == None {
        forall ds: seq<code> ensures EncodeAll(ds) != p {
          if EncodeAll(ds) == p { Resumes(cs, ds, p, n); }
        }
        return None;
      }
      var (c, k) := one.value;
      EncodeSnoc(cs, c);
      assert p[..n + k] == p[..n] + p[n..][..k];
      cs, n := cs + [c], n + k;
    }
    assert p[..n] == p;
    return Some(cs);
  }

  lemma NothingEncoded()
    ensures EncodeAll([]) == []
  {
  }
}
