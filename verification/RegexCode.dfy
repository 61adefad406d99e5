/** Bytecode: instructions, their bytes and the linear scans over them. */
module RegexCode {
  import opened Basics
  import opened RegexClass

  /** Jump offsets are relative to the end of the instruction. */
  datatype Instr =
    | IChar(c: int)
    | IChar32(c: int)
    | IDot
    | IAny
    | ILineStart
    | ILineEnd
    | IGoto(off: int)
    | ISplit(nextFirst: bool, off: int)
    | IMatch
    | ISave(end: bool, slot: nat)
    | ISaveReset(lo: nat, hi: nat)
    | ILoop(off: int)
    | IPush(v: nat)
    | IDrop
    | IWord(negated: bool)
    | IRange(wide: bool, pairs: seq<Pair>)
    | ILook(negated: bool, off: int)
    | IPushPos
    | IBnePos(off: int)
    | IGreedy(off: int, min: nat, max: nat, count: nat)

  /** Bytes of one stored interval. */
  function Width(wide: bool): nat {
    if wide then 8 else 4
  }

  predicate PairFits(wide: bool, p: Pair) {
    var m := if wide then TWO32 else TWO16;
    0 <= p.0 < m && 0 <= p.1 < m
  }

  /** Instruction length in bytes. */
  function Size(i: Instr): (n: nat)
    ensures n > 0
  {
    match i
    case IChar(_) => 3
    case IChar32(_) => 5
    case ISave(_, _) => 2
    case ISaveReset(_, _) => 3
    case IGoto(_) => 5
    case ISplit(_, _) => 5
    case ILoop(_) => 5
    case IPush(_) => 5
    case ILook(_, _) => 5
    case IBnePos(_) => 5
    case IRange(wide, pairs) => 3 + Width(wide) * |pairs|
    case IGreedy(_, _, _, _) => 17
    case _ => 1
  }

  function Opcode(i: Instr): (op: byte)
    ensures 1 <= op <= 28
  {
    match i
    case IChar(_) => 1
    case IChar32(_) => 2
    case IDot => 3
    case IAny => 4
    case ILineStart => 5
    case ILineEnd => 6
    case IGoto(_) => 7
    case ISplit(nextFirst, _) => if nextFirst then 9 else 8
    case IMatch => 10
    case ISave(end, _) => if end then 12 else 11
    case ISaveReset(_, _) => 13
    case ILoop(_) => 14
    case IPush(_) => 15
    case IDrop => 16
    case IWord(negated) => if negated then 18 else 17
    case IRange(wide, _) => if wide then 22 else 21
    case ILook(negated, _) => if negated then 24 else 23
    case IPushPos => 25
    case IBnePos(_) => 26
    case IGreedy(_, _, _, _) => 28
  }

  function PairBytes(wide: bool, p: Pair): (r: seq<byte>)
    ensures |r| == Width(wide)
  {
    if wide then U32Bytes(p.0) + U32Bytes(p.1) else U16Bytes(p.0) + U16Bytes(p.1)
  }

  function PairsBytes(wide: bool, pairs: seq<Pair>): (r: seq<byte>)
    ensures |r| == Width(wide) * |pairs|
  {
    if pairs == [] then [] else PairBytes(wide, pairs[0]) + PairsBytes(wide, pairs[1..])
  }

  function Operands(i: Instr): seq<byte> {
    match i
    case IChar(c) => U16Bytes(c)
    case IChar32(c) => U32Bytes(c)
    case IGoto(off) => U32Bytes(off)
    case ISplit(_, off) => U32Bytes(off)
    case ISave(_, slot) => [slot % 256]
    case ISaveReset(lo, hi) => [lo % 256, hi % 256]
    case ILoop(off) => U32Bytes(off)
    case IPush(v) => U32Bytes(v)
    case IRange(wide, pairs) => U16Bytes(|pairs|) + PairsBytes(wide, pairs)
    case ILook(_, off) => U32Bytes(off)
    case IBnePos(off) => U32Bytes(off)
    case IGreedy(off, min, max, count) => U32Bytes(off) + U32Bytes(min) + U32Bytes(max) + U32Bytes(count)
    case _ => []
  }

  function Encode(i: Instr): (r: seq<byte>)
    ensures |r| == Size(i)
  {
    [Opcode(i)] + Operands(i)
  }

  function DecodePairs(code: seq<byte>, p: nat, wide: bool, n: nat): (r: seq<Pair>)
    requires p + Width(wide) * n <= |code|
    ensures |r| == n
    decreases n
  {
    if n == 0 then []
    else [DecodePair(code, p, wide)] + DecodePairs(code, p + Width(wide), wide, n - 1)
  }

  function DecodePair(code: seq<byte>, p: nat, wide: bool): Pair
    requires p + Width(wide) <= |code|
  {
    if wide then (GetU32(code, p), GetU32(code, p + 4)) else (GetU16(code, p), GetU16(code, p + 2))
  }

  function OpcodeSize(op: byte): nat {
    if op in {7, 8, 9, 14, 15, 2, 23, 24, 26} then 5
    else if op in {1, 13, 21, 22} then 3
    else if op in {11, 12, 19, 20} then 2
    else if op == 28 then 17
    else 1
  }

  /** The instruction at `pc`, if one of this fragment is stored there. */
  function Decode(code: seq<byte>, pc: int): Option<Instr> {
    if pc < 0 || pc >= |code| || pc + OpcodeSize(code[pc]) > |code| then None
    else
      match code[pc]
      case 1 => Some(IChar(GetU16(code, pc + 1)))
      case 2 => Some(IChar32(GetU32(code, pc + 1)))
      case 3 => Some(IDot)
      case 4 => Some(IAny)
      case 5 => Some(ILineStart)
      case 6 => Some(ILineEnd)
      case 7 => Some(IGoto(ToInt32(GetU32(code, pc + 1))))
      case 8 => Some(ISplit(false, ToInt32(GetU32(code, pc + 1))))
      case 9 => Some(ISplit(true, ToInt32(GetU32(code, pc + 1))))
      case 10 => Some(IMatch)
      case 11 => Some(ISave(false, code[pc + 1]))
      case 12 => Some(ISave(true, code[pc + 1]))
      case 13 => Some(ISaveReset(code[pc + 1], code[pc + 2]))
      case 14 => Some(ILoop(ToInt32(GetU32(code, pc + 1))))
      case 15 => Some(IPush(GetU32(code, pc + 1)))
      case 16 => Some(IDrop)
      case 17 => Some(IWord(false))
      case 18 => Some(IWord(true))
      case 21 => DecodeRange(code, pc, false)
      case 22 => DecodeRange(code, pc, true)
      case 23 => Some(ILook(false, ToInt32(GetU32(code, pc + 1))))
      case 24 => Some(ILook(true, ToInt32(GetU32(code, pc + 1))))
      case 25 => Some(IPushPos)
      case 26 => Some(IBnePos(ToInt32(GetU32(code, pc + 1))))
      case 28 => Some(IGreedy(ToInt32(GetU32(code, pc + 1)), GetU32(code, pc + 5), GetU32(code, pc + 9), GetU32(code, pc + 13)))
      case _ => None
  }

  function DecodeRange(code: seq<byte>, pc: nat, wide: bool): Option<Instr>
    requires pc + 3 <= |code|
  {
    var n := GetU16(code, pc + 1);
    if pc + 3 + Width(wide) * n > |code| then None
    else Some(IRange(wide, DecodePairs(code, pc + 3, wide, n)))
  }

  predicate Word(v: int) {
    0 <= v < TWO32
  }

  predicate Offset(v: int) {
    -TWO31 <= v < TWO31
  }

  /** Operands that fit the fields they are stored in. */
  ghost predicate Encodable(i: Instr) {
    match i
    case IChar(c) => 0 <= c < TWO16
    case IChar32(c) => Word(c)
    case IGoto(off) => Offset(off)
    case ISplit(_, off) => Offset(off)
    case ISave(_, slot) => slot < 256
    case ISaveReset(lo, hi) => lo < 256 && hi < 256
    case ILoop(off) => Offset(off)
    case IPush(v) => Word(v)
    case IRange(wide, pairs) =>
      |pairs| < TWO16 &&
      forall k :: 0 <= k < |pairs| ==> PairFits(wide, pairs[k])
    case ILook(_, off) => Offset(off)
    case IBnePos(off) => Offset(off)
    case IGreedy(off, min, max, count) => Offset(off) && Word(min) && Word(max) && Word(count)
    case _ => true
  }

  lemma DecodePairBytes(code: seq<byte>, p: nat, wide: bool, pair: Pair)
    requires PairFits(wide, pair) && Stored(code, p, PairBytes(wide, pair))
    ensures DecodePair(code, p, wide) == pair
  {
    if wide {
      StoredConcat(code, p, U32Bytes(pair.0), U32Bytes(pair.1));
      U32RoundTrip(code, p, pair.0);
      U32RoundTrip(code, p + 4, pair.1);
    } else {
      StoredConcat(code, p, U16Bytes(pair.0), U16Bytes(pair.1));
      U16RoundTrip(code, p, pair.0);
      U16RoundTrip(code, p + 2, pair.1);
    }
  }

  lemma {:induction false} DecodePairsBytes(code: seq<byte>, p: nat, wide: bool, pairs: seq<Pair>)
    requires Stored(code, p, PairsBytes(wide, pairs))
    requires forall k :: 0 <= k < |pairs| ==> PairFits(wide, pairs[k])
    ensures DecodePairs(code, p, wide, |pairs|) == pairs
    decreases |pairs|
  {
    hide PairBytes, DecodePair, PairFits;
    if pairs != [] {
      StoredConcat(code, p, PairBytes(wide, pairs[0]), PairsBytes(wide, pairs[1..]));
      DecodePairBytes(code, p, wide, pairs[0]);
      DecodePairsBytes(code, p + Width(wide), wide, pairs[1..]);
    }
  }

  lemma DecodeRangeBytes(code: seq<byte>, pc: nat, wide: bool, pairs: seq<Pair>)
    requires Encodable(IRange(wide, pairs))
    requires Stored(code, pc + 1, U16Bytes(|pairs|) + PairsBytes(wide, pairs))
    ensures DecodeRange(code, pc, wide) == Some(IRange(wide, pairs))
  {
    StoredConcat(code, pc + 1, U16Bytes(|pairs|), PairsBytes(wide, pairs));
    U16RoundTrip(code, pc + 1, |pairs|);
    DecodePairsBytes(code, pc + 3, wide, pairs);
  }

  lemma DecodeGreedyBytes(code: seq<byte>, pc: nat, i: Instr)
    requires i.IGreedy? && Encodable(i) && Stored(code, pc + 1, Operands(i))
    ensures ToInt32(GetU32(code, pc + 1)) == i.off && GetU32(code, pc + 5) == i.min
    ensures GetU32(code, pc + 9) == i.max && GetU32(code, pc + 13) == i.count
  {
    var a, b, c, d := U32Bytes(i.off), U32Bytes(i.min), U32Bytes(i.max), U32Bytes(i.count);
    StoredConcat(code, pc + 1, a + b + c, d);
    StoredConcat(code, pc + 1, a + b, c);
    StoredConcat(code, pc + 1, a, b);
    U32RoundTrip(code, pc + 1, i.off);
    U32RoundTrip(code, pc + 5, i.min);
    U32RoundTrip(code, pc + 9, i.max);
    U32RoundTrip(code, pc + 13, i.count);
  }

  /** Instructions with one signed operand. */
  predicate HasOffset(i: Instr) {
    i.IGoto? || i.ISplit? || i.ILoop? || i.ILook? || i.IBnePos?
  }

  function OffsetOf(i: Instr): int
    requires HasOffset(i)
  {
    match i
    case IGoto(off) => off
    case ISplit(_, off) => off
    case ILoop(off) => off
    case ILook(_, off) => off
    case IBnePos(off) => off
  }

  lemma DecodeOther(code: seq<byte>, pc: nat, i: Instr)
    requires Encodable(i) && !HasOffset(i) && pc < |code| && code[pc] == Opcode(i) && Stored(code, pc + 1, Operands(i))
    ensures Decode(code, pc) == Some(i)
  {
    hide LittleEndian, ReadLittleEndian, PairsBytes, DecodePairs, DecodeRange;
    match i
    case IChar(c) => U16RoundTrip(code, pc + 1, c);
    case IChar32(c) => U32RoundTrip(code, pc + 1, c);
    case ISave(_, slot) => assert code[pc + 1] == code[pc + 1..pc + 2][0];
    case ISaveReset(lo, hi) => assert code[pc + 1] == code[pc + 1..pc + 3][0] && code[pc + 2] == code[pc + 1..pc + 3][1];
    case IPush(v) => U32RoundTrip(code, pc + 1, v);
    case IRange(wide, pairs) => DecodeRangeBytes(code, pc, wide, pairs);
    case IGreedy(_, _, _, _) => DecodeGreedyBytes(code, pc, i);
    case _ =>
  }

  /** What is stored is what is fetched. */
  lemma DecodeEncode(code: seq<byte>, pc: nat, i: Instr)
    requires Encodable(i) && Stored(code, pc, Encode(i))
    ensures Decode(code, pc) == Some(i)
  {
    hide LittleEndian, ReadLittleEndian, PairsBytes, DecodePairs, DecodeRange;
    StoredConcat(code, pc, [Opcode(i)], Operands(i));
    assert code[pc] == code[pc..pc + 1][0] == Opcode(i);
    if HasOffset(i) {
      U32RoundTrip(code, pc + 1, OffsetOf(i));
    } else {
      DecodeOther(code, pc, i);
    }
  }

  // ----- Instruction sequences -----

  type Code = seq<Instr>

  /** Length in bytes. */
  function Len(f: Code): nat {
    if f == [] then 0 else Size(f[0]) + Len(f[1..])
  }

  function Bytes(f: Code): (r: seq<byte>)
    ensures |r| == Len(f)
  {
    if f == [] then [] else Encode(f[0]) + Bytes(f[1..])
  }

  lemma {:induction false} BytesConcat(f: Code, g: Code)
    ensures Bytes(f + g) == Bytes(f) + Bytes(g) && Len(f + g) == Len(f) + Len(g)
    decreases |f|
  {
    if f == [] {
      assert f + g == g;
    } else {
      assert (f + g)[1..] == f[1..] + g;
      BytesConcat(f[1..], g);
    }
  }

  /** Instruction fetch: what the byte at an address and its operands stand for. */
  type Fetch = int -> Option<Instr>

  function Fetcher(code: seq<byte>): Fetch {
    pc => Decode(code, pc)
  }

  /** The instructions `f` are stored at `pc`. */
  ghost predicate CodeAt(fetch: Fetch, pc: int, f: Code)
    decreases |f|
  {
    f == [] || (fetch(pc) == Some(f[0]) && CodeAt(fetch, pc + Size(f[0]), f[1..]))
  }

  lemma {:induction false} CodeAtConcat(fetch: Fetch, pc: int, f: Code, g: Code)
    ensures CodeAt(fetch, pc, f + g) <==> CodeAt(fetch, pc, f) && CodeAt(fetch, pc + Len(f), g)
    decreases |f|
  {
    if f == [] {
      assert f + g == g;
    } else {
      assert (f + g)[1..] == f[1..] + g;
      CodeAtConcat(fetch, pc + Size(f[0]), f[1..], g);
    }
  }

  lemma CodeAtHead(fetch: Fetch, pc: int, i: Instr, f: Code)
    ensures CodeAt(fetch, pc, [i] + f) <==> fetch(pc) == Some(i) && CodeAt(fetch, pc + Size(i), f)
    ensures Len([i] + f) == Size(i) + Len(f)
  {
    assert ([i] + f)[1..] == f;
  }

  ghost predicate AllEncodable(f: Code) {
    forall k :: 0 <= k < |f| ==> Encodable(f[k])
  }

  /** The fetch function reads back every instruction stored in the buffer. */
  ghost predicate Reads(fetch: Fetch, code: seq<byte>) {
    forall p: nat, i :: Encodable(i) && Stored(code, p, Encode(i)) ==> fetch(p) == Some(i)
  }

  lemma FetcherReads(code: seq<byte>)
    ensures Reads(Fetcher(code), code)
  {
    forall p: nat, i | Encodable(i) && Stored(code, p, Encode(i)) ensures Fetcher(code)(p) == Some(i) {
      DecodeEncode(code, p, i);
    }
  }

  /** Bytes placed anywhere in a buffer are fetched back as the instructions. */
  lemma {:induction false} BytesAreCode(fetch: Fetch, code: seq<byte>, pc: nat, f: Code)
    requires Reads(fetch, code) && AllEncodable(f) && Stored(code, pc, Bytes(f))
    ensures CodeAt(fetch, pc, f)
    decreases |f|
  {
    if f != [] {
      var next := StoredHead(code, pc, f);
      BytesAreCode(fetch, code, next, f[1..]);
      CodeAtCons(fetch, pc, next, f);
    }
  }

  lemma StoredHead(code: seq<byte>, pc: nat, f: Code) returns (next: nat)
    requires f != [] && Stored(code, pc, Bytes(f))
    ensures next == pc + Size(f[0])
    ensures Stored(code, pc, Encode(f[0])) && Stored(code, next, Bytes(f[1..]))
  {
    hide Encode;
    next := pc + Size(f[0]);
    assert Bytes(f) == Encode(f[0]) + Bytes(f[1..]);
    StoredConcat(code, pc, Encode(f[0]), Bytes(f[1..]));
  }

  lemma CodeAtCons(fetch: Fetch, pc: int, next: int, f: Code)
    requires f != [] && fetch(pc) == Some(f[0]) && next == pc + Size(f[0])
    requires CodeAt(fetch, next, f[1..])
    ensures CodeAt(fetch, pc, f)
  {
  }
}
