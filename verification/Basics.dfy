/** Bytes, little-endian words and the option type shared by the other modules. */
module Basics {

  datatype Option<+T> = None | Some(value: T)

  type byte = x: int | 0 <= x < 256

  const TWO16: int := 0x1_0000
  const TWO31: int := 0x8000_0000
  const TWO32: int := 0x1_0000_0000
  const UINT32_MAX: int := 0xffff_ffff
  const INT32_MAX: int := 0x7fff_ffff

  function Min(a: int, b: int): int {
    if a <= b then a else b
  }

  function Max(a: int, b: int): int {
    if a <= b then b else a
  }

  /** Characters that occupy one column on a terminal. */
  predicate Printable(t: seq<byte>) {
    forall i :: 0 <= i < |t| ==> 32 <= t[i] < 127
  }

  /** The bytes `w` are stored at offset `p`. */
  predicate Stored(b: seq<byte>, p: int, w: seq<byte>) {
    0 <= p && p + |w| <= |b| && b[p..p + |w|] == w
  }

  lemma StoredConcat(b: seq<byte>, p: int, v: seq<byte>, w: seq<byte>)
    ensures Stored(b, p, v + w) <==> Stored(b, p, v) && Stored(b, p + |v|, w)
  {
    if Stored(b, p, v + w) {
      assert b[p..p + |v|] == (v + w)[..|v|];
      assert b[p + |v|..p + |v| + |w|] == (v + w)[|v|..];
    }
    if Stored(b, p, v) && Stored(b, p + |v|, w) {
      assert b[p..p + |v| + |w|] == b[p..p + |v|] + b[p + |v|..p + |v| + |w|];
    }
  }

  /** The first value that needs more than `n` bytes. */
  function Limit(n: nat): (m: nat)
    ensures m > 0
    ensures n == 2 ==> m == TWO16
    ensures n == 4 ==> m == TWO32
  {
    if n == 0 then 1 else if n == 1 then 0x100 else if n == 2 then TWO16
    else if n == 3 then 0x100_0000 else 256 * Limit(n - 1)
  }

  /** The low `n` bytes of `u`, least significant first. */
  function LittleEndian(u: nat, n: nat): (r: seq<byte>)
    ensures |r| == n
  {
    if n == 0 then [] else [u % 256] + LittleEndian(u / 256, n - 1)
  }

  function ReadLittleEndian(b: seq<byte>, p: int, n: nat): (r: nat)
    requires 0 <= p && p + n <= |b|
    ensures r < Limit(n)
    decreases n
  {
    if n == 0 then 0
    else
      var low: int := b[p];
      low + 256 * ReadLittleEndian(b, p + 1, n - 1)
  }

  lemma {:induction false} LittleEndianRoundTrip(b: seq<byte>, p: int, u: nat, n: nat)
    requires Stored(b, p, LittleEndian(u, n)) && u < Limit(n)
    ensures ReadLittleEndian(b, p, n) == u
    decreases n
  {
    if n > 0 {
      StoredConcat(b, p, [u % 256], LittleEndian(u / 256, n - 1));
      assert b[p] == b[p..p + 1][0];
      LittleEndianRoundTrip(b, p + 1, u / 256, n - 1);
    }
  }

  /** The two bytes that `dbuf_put_u16` stores. */
  function U16Bytes(v: int): (r: seq<byte>)
    ensures |r| == 2
  {
    LittleEndian(v % TWO16, 2)
  }

  /** The four bytes that `dbuf_put_u32` and `put_u32` store; negative jump
      offsets are stored modulo 2^32. */
  function U32Bytes(v: int): (r: seq<byte>)
    ensures |r| == 4
  {
    LittleEndian(v % TWO32, 4)
  }

  function GetU16(b: seq<byte>, p: int): (r: int)
    requires 0 <= p && p + 2 <= |b|
    ensures 0 <= r < TWO16
  {
    ReadLittleEndian(b, p, 2)
  }

  function GetU32(b: seq<byte>, p: int): (r: int)
    requires 0 <= p && p + 4 <= |b|
    ensures 0 <= r < TWO32
  {
    ReadLittleEndian(b, p, 4)
  }

  /** The C conversion from `uint32_t` to `int`. */
  function ToInt32(u: int): (r: int)
    requires 0 <= u < TWO32
    ensures -TWO31 <= r < TWO31
  {
    if u < TWO31 then u else u - TWO32
  }

  lemma U16RoundTrip(b: seq<byte>, p: int, v: int)
    requires 0 <= v < TWO16 && Stored(b, p, U16Bytes(v))
    ensures GetU16(b, p) == v
  {
    LittleEndianRoundTrip(b, p, v, 2);
  }

  lemma U32RoundTrip(b: seq<byte>, p: int, v: int)
    requires Stored(b, p, U32Bytes(v))
    ensures 0 <= v < TWO32 ==> GetU32(b, p) == v
    ensures -TWO31 <= v < TWO31 ==> ToInt32(GetU32(b, p)) == v
  {
    LittleEndianRoundTrip(b, p, v % TWO32, 4);
  }
}
