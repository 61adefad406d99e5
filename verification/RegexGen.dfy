/** The code of a pattern, and what the two linear scans of the compiler say about it. */
module RegexGen {
  import opened Basics
  import opened RegexSyntax
  import opened RegexClass
  import opened RegexCode

  /** Instructions that consume one character. */
  predicate IsTest(i: Instr) {
    i.IChar? || i.IChar32? || i.IDot? || i.IAny? || i.IRange?
  }

  predicate IsAssertion(i: Instr) {
    i.ILineStart? || i.ILineEnd? || i.IWord?
  }

  predicate Accepts(i: Instr, c: int) {
    match i
    case IChar(v) => v == c
    case IChar32(v) => v == c
    case IDot => !IsLineTerminator(c)
    case IAny => true
    case IRange(wide, pairs) => |pairs| > 0 && RangeTest(pairs, wide, c) == Some(true)
    case _ => false
  }

  predicate Holds(i: Instr, s: seq<byte>, pos: int) {
    match i
    case ILineStart => pos == 0
    case ILineEnd => pos == |s|
    case IWord(negated) => WordEdge(s, pos) != negated
    case _ => false
  }

  /** Instructions over which `re_check_advance` passes without a decision. */
  predicate IsNeutral(i: Instr) {
    IsAssertion(i) || i.IPush? || i.IPushPos? || i.IDrop? || i.ISave? || i.ISaveReset?
  }

  /** -2 undecided, 1 a character is always consumed, 0 unknown. */
  function ScanAdvance(f: Code): int {
    if f == [] then -2
    else if IsTest(f[0]) then 1
    else if IsNeutral(f[0]) then ScanAdvance(f[1..])
    else 0
  }

  /** The result of `re_check_advance` on code without back references. */
  function CheckAdvance(f: Code): int {
    if ScanAdvance(f) == 1 then 1 else 0
  }

  /** The result of `re_is_simple_quantifier`: characters consumed, or -1. */
  function SimpleLength(f: Code): int {
    if f == [] then 0
    else
      var rest := SimpleLength(f[1..]);
      if rest < 0 then -1
      else if IsTest(f[0]) then rest + 1
      else if IsAssertion(f[0]) then rest
      else -1
  }

  lemma {:induction false} ScanConcat(f: Code, g: Code)
    ensures ScanAdvance(f + g) == if ScanAdvance(f) == -2 then ScanAdvance(g) else ScanAdvance(f)
    ensures SimpleLength(f + g) == if SimpleLength(f) < 0 || SimpleLength(g) < 0 then -1 else SimpleLength(f) + SimpleLength(g)
    decreases |f|
  {
    if f == [] {
      assert f + g == g;
    } else {
      assert (f + g)[1..] == f[1..] + g;
      ScanConcat(f[1..], g);
    }
  }

  // ----- Code generation -----

  function ClassCode(points: seq<int>): Instr {
    if |points| < 2 then IChar32(UINT32_MAX)
    else
      var wide := TopPoint(points) > 0xffff;
      IRange(wide, Pairs(points, wide))
  }

  /** A jump back over `n` bytes of code to the instruction before them. */
  function Back(n: nat): int {
    -(n + 5)
  }

  /** L: split E; [push_char_pos]; a; goto/bne_char_pos L; E: */
  function InfiniteLoop(a: Code, check: bool, greedy: bool): Code {
    var n := Len(a);
    if check then [ISplit(greedy, n + 6)] + ([IPushPos] + (a + [IBnePos(Back(n + 6))]))
    else [ISplit(greedy, n + 5)] + (a + [IGoto(Back(n + 5))])
  }

  /** a; loop; drop */
  function LoopEnd(a: Code, off: int): Code {
    a + ([ILoop(off)] + [IDrop])
  }

  /** push n; L: split E; a; loop L; E: drop */
  function CountedLoop(a: Code, n: nat, greedy: bool): Code {
    [IPush(n)] + ([ISplit(greedy, Len(a) + 5)] + LoopEnd(a, Back(Len(a) + 5)))
  }

  /** push n; L: a; loop L; drop */
  function FixedLoop(a: Code, n: nat): Code {
    [IPush(n)] + LoopEnd(a, Back(Len(a)))
  }

  /** L: a; split L */
  function PlusLoop(a: Code, greedy: bool): Code {
    a + [ISplit(!greedy, Back(Len(a)))]
  }

  function OptionalCode(a: Code, greedy: bool): Code {
    [ISplit(greedy, Len(a))] + a
  }

  function GreedyCode(a: Code, min: nat, max: nat): Code
    requires SimpleLength(a) >= 0
  {
    [IGreedy(Len(a) + 1, min, max, SimpleLength(a))] + (a + [IMatch])
  }

  function ResetCode(groups: nat, cc: nat): Code {
    if groups > 0 then [ISaveReset(cc, cc + groups - 1)] else []
  }

  function MinCode(a: Code, min: nat): Code {
    if min == 1 then a else FixedLoop(a, min)
  }

  /** The optional iterations when none is mandatory. */
  function TailFromZero(a: Code, max: nat, greedy: bool, check: bool): Code {
    if max == 0 then []
    else if max == 1 then OptionalCode(a, greedy)
    else if max == INFINITE then InfiniteLoop(a, check, greedy)
    else CountedLoop(a, max, greedy)
  }

  /** The optional iterations after `min` mandatory ones. */
  function TailFromMin(a: Code, min: nat, max: nat, greedy: bool, check: bool): Code {
    if max == INFINITE then InfiniteLoop(a, check, greedy)
    else if max > min then CountedLoop(a, max - min, greedy)
    else []
  }

  /** The split/loop encoding of a quantifier over the code `a`. */
  function PlainQuant(a: Code, cc: nat, groups: nat, min: nat, max: nat, greedy: bool, check: bool): Code {
    if min == 0 then ResetCode(groups, cc) + TailFromZero(a, max, greedy, check)
    else if min == 1 && max == INFINITE && !check then PlusLoop(a, greedy)
    else MinCode(a, min) + TailFromMin(a, min, max, greedy, check)
  }

  predicate UsesGreedy(a: Code, max: nat, greedy: bool) {
    greedy && max > 0 && SimpleLength(a) > 0
  }

  predicate NeedsCheck(a: Code, greedy: bool) {
    greedy && CheckAdvance(a) == 0
  }

  function QuantCode(a: Code, cc: nat, groups: nat, min: nat, max: nat, greedy: bool): Code {
    if UsesGreedy(a, max, greedy) then GreedyCode(a, min, max)
    else PlainQuant(a, cc, groups, min, max, greedy, NeedsCheck(a, greedy))
  }

  /** The code of a pattern whose groups are numbered from `cc`. */
  function Gen(r: Re, cc: nat): Code {
    match r
    case Empty => []
    case Char(c) => if c <= 0xffff then [IChar(c)] else [IChar32(c)]
    case Dot => [IDot]
    case Class(points) => [ClassCode(points)]
    case LineStart => [ILineStart]
    case LineEnd => [ILineEnd]
    case WordBoundary(negated) => [IWord(negated)]
    case Cat(a, b) => Gen(a, cc) + Gen(b, cc + Groups(a))
    case Alt(a, b) => AltCode(Gen(a, cc), Gen(b, cc + Groups(a)))
    case Group(b) => GroupCode(cc, Gen(b, cc + 1))
    case Look(negated, b) => LookCode(negated, Gen(b, cc))
    case Quant(b, min, max, greedy) => QuantCode(Gen(b, cc), cc, Groups(b), min, max, greedy)
  }

  lemma GroupGen(b: Re, cc: nat)
    ensures Gen(Group(b), cc) == GroupCode(cc, Gen(b, cc + 1))
  {
    hide QuantCode, AltCode, GroupCode, LookCode, ClassCode;
  }

  lemma CatGen(a: Re, b: Re, cc: nat)
    ensures Gen(Cat(a, b), cc) == Gen(a, cc) + Gen(b, cc + Groups(a))
  {
    hide QuantCode, AltCode, GroupCode, LookCode, ClassCode;
  }

  lemma AltGen(a: Re, b: Re, cc: nat)
    ensures Gen(Alt(a, b), cc) == AltCode(Gen(a, cc), Gen(b, cc + Groups(a)))
  {
    hide QuantCode, AltCode, GroupCode, LookCode, ClassCode;
  }

  lemma GenUnfold(r: Re, cc: nat)
    ensures r.Empty? ==> Gen(r, cc) == []
    ensures r.Char? ==> Gen(r, cc) == if r.c <= 0xffff then [IChar(r.c)] else [IChar32(r.c)]
    ensures r.Dot? ==> Gen(r, cc) == [IDot]
    ensures r.Class? ==> Gen(r, cc) == [ClassCode(r.points)]
    ensures r.LineStart? ==> Gen(r, cc) == [ILineStart]
    ensures r.LineEnd? ==> Gen(r, cc) == [ILineEnd]
    ensures r.WordBoundary? ==> Gen(r, cc) == [IWord(r.negated)]
    ensures r.Cat? ==> Gen(r, cc) == Gen(r.first, cc) + Gen(r.second, cc + Groups(r.first))
    ensures r.Alt? ==> Gen(r, cc) == AltCode(Gen(r.left, cc), Gen(r.right, cc + Groups(r.left)))
    ensures r.Group? ==> Gen(r, cc) == GroupCode(cc, Gen(r.body, cc + 1))
    ensures r.Look? ==> Gen(r, cc) == LookCode(r.negated, Gen(r.body, cc))
    ensures r.Quant? ==> Gen(r, cc) == QuantCode(Gen(r.body, cc), cc, Groups(r.body), r.min, r.max, r.greedy)
  {
    hide QuantCode, AltCode, GroupCode, LookCode, ClassCode;
  }

  function AltCode(a: Code, b: Code): Code {
    [ISplit(true, Len(a) + 5)] + (a + ([IGoto(Len(b))] + b))
  }

  function GroupCode(cc: nat, a: Code): Code {
    [ISave(false, cc)] + (a + [ISave(true, cc)])
  }

  function LookCode(negated: bool, a: Code): Code {
    [ILook(negated, Len(a) + 1)] + (a + [IMatch])
  }

  /** L: split P; any; goto L; P: */
  function SearchLoop(): Code {
    [ISplit(false, 6)] + ([IAny] + [IGoto(-11)])
  }

  /** The search loop over start positions, the pattern as group 0, and match. */
  function Program(r: Re): Code {
    SearchLoop() + (GroupCode(0, Gen(r, 1)) + [IMatch])
  }
}
