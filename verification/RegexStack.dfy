/** Stack discipline: the depth the linear scan assigns to an instruction is the
    depth of the runtime stack whenever the machine is there. */
module RegexStack {
  import opened RegexSyntax
  import opened RegexCode
  import opened RegexGen

  /** What `compute_stack_size` adds to the depth. */
  function Effect(i: Instr): int {
    if i.IPush? || i.IPushPos? then 1 else if i.IDrop? || i.IBnePos? then -1 else 0
  }

  function Net(f: Code): int {
    if f == [] then 0 else Effect(f[0]) + Net(f[1..])
  }

  lemma {:induction false} NetConcat(f: Code, g: Code)
    ensures Net(f + g) == Net(f) + Net(g)
    decreases |f|
  {
    if f == [] {
      assert f + g == g;
    } else {
      assert (f + g)[1..] == f[1..] + g;
      NetConcat(f[1..], g);
    }
  }

  lemma Measures(f: Code, g: Code)
    ensures Net(f + g) == Net(f) + Net(g) && Len(f + g) == Len(f) + Len(g)
  {
    NetConcat(f, g);
    BytesConcat(f, g);
  }

  lemma UnitMeasures(i: Instr)
    ensures Net([i]) == Effect(i) && Len([i]) == Size(i)
  {
    assert [i][1..] == [];
  }

  /** Byte offset `t` is an instruction boundary of `f` (or its end) at depth `d`. */
  ghost predicate Boundary(f: Code, t: int, d: int) {
    exists k :: BoundaryAt(f, t, d, k)
  }

  ghost predicate BoundaryAt(f: Code, t: int, d: int, k: int) {
    0 <= k <= |f| && Len(f[..k]) == t && Net(f[..k]) == d
  }

  predicate Jumps(i: Instr) {
    i.IGoto? || i.ISplit? || i.ILoop? || i.ILook? || i.IBnePos? || i.IGreedy?
  }

  /** `rest` starts with a straight-line atom of `n` characters and its match. */
  ghost predicate AtomAhead(rest: Code, n: nat, off: int) {
    exists a: Code :: a + [IMatch] <= rest && SimpleLength(a) == n && n > 0 && off == Len(a) + 1
  }

  /** The instruction `i` of `f` after the code `x` and before `y`: no underflow below
      the depth at the start of `f`, jumps to boundaries of the right depth, slots that
      exist. */
  ghost predicate SplitOk(f: Code, slots: nat, x: Code, i: Instr, y: Code) {
    && Net(x) >= 0
    && (i.IDrop? || i.IBnePos? || i.ILoop? ==> Net(x) > 0)
    && (Jumps(i) ==> Boundary(f, Len(x) + Size(i) + i.off, Net(x) + Effect(i)))
    && (i.ISave? ==> 2 * i.slot + 1 < slots)
    && (i.ISaveReset? ==> 2 * i.hi + 1 < slots)
    && (i.IGreedy? ==> AtomAhead(y, i.count, i.off))
  }

  ghost predicate InstrOk(f: Code, slots: nat, k: int)
    requires 0 <= k < |f|
  {
    SplitOk(f, slots, f[..k], f[k], f[k + 1..])
  }

  ghost predicate OkFrom(f: Code, slots: nat, lo: int, hi: int) {
    forall k :: lo <= k < hi && 0 <= k < |f| ==> InstrOk(f, slots, k)
  }

  /** Well-typed code that leaves the stack as it found it. */
  ghost predicate Balanced(f: Code, slots: nat) {
    OkFrom(f, slots, 0, |f|) && Net(f) == 0
  }

  lemma BoundarySplit(f: Code, x: Code, y: Code)
    requires f == x + y
    ensures Boundary(f, Len(x), Net(x))
  {
    assert f[..|x|] == x;
    assert BoundaryAt(f, Len(x), Net(x), |x|);
  }

  lemma BoundaryShift(f: Code, x: Code, g: Code, y: Code, t: int, d: int)
    requires f == x + (g + y) && Boundary(g, t, d)
    ensures Boundary(f, Len(x) + t, Net(x) + d)
  {
    var k :| BoundaryAt(g, t, d, k);
    assert f == (x + g[..k]) + (g[k..] + y);
    BoundarySplit(f, x + g[..k], g[k..] + y);
    Measures(x, g[..k]);
  }

  lemma AtomAheadLonger(rest: Code, y: Code, n: nat, off: int)
    requires AtomAhead(rest, n, off)
    ensures AtomAhead(rest + y, n, off)
  {
    var a: Code :| a + [IMatch] <= rest && SimpleLength(a) == n && n > 0 && off == Len(a) + 1;
    assert a + [IMatch] <= rest + y;
  }

  lemma SplitOkShift(f: Code, slots: nat, x: Code, g: Code, y: Code, gx: Code, i: Instr, gy: Code)
    requires f == x + (g + y) && Net(x) >= 0 && SplitOk(g, slots, gx, i, gy)
    ensures SplitOk(f, slots, x + gx, i, gy + y)
  {
    hide Boundary, AtomAhead, Net, Len, Effect, Size;
    Measures(x, gx);
    if Jumps(i) { BoundaryShift(f, x, g, y, Len(gx) + Size(i) + i.off, Net(gx) + Effect(i)); }
    if i.IGreedy? { AtomAheadLonger(gy, y, i.count, i.off); }
  }

  lemma Slices(f: Code, x: Code, g: Code, y: Code, j: nat)
    requires f == x + (g + y) && j < |g|
    ensures var k := |x| + j; f[k] == g[j] && f[..k] == x + g[..j] && f[k + 1..] == g[j + 1..] + y
  {
  }

  /** Code keeps its typing inside other code. */
  lemma PieceOk(f: Code, slots: nat, x: Code, g: Code, y: Code)
    requires f == x + (g + y) && Net(x) >= 0 && OkFrom(g, slots, 0, |g|)
    ensures OkFrom(f, slots, |x|, |x| + |g|)
  {
    hide InstrOk, Net;
    forall k | |x| <= k < |x| + |g| && 0 <= k < |f| ensures InstrOk(f, slots, k) {
      assert InstrOk(g, slots, k - |x|);
      PieceOkAt(f, slots, x, g, y, k - |x|);
    }
  }

  lemma PieceOkAt(f: Code, slots: nat, x: Code, g: Code, y: Code, j: nat)
    requires f == x + (g + y) && Net(x) >= 0 && j < |g| && InstrOk(g, slots, j)
    ensures InstrOk(f, slots, |x| + j)
  {
    hide SplitOk, Net;
    SplitOkShift(f, slots, x, g, y, g[..j], g[j], g[j + 1..]);
    Slices(f, x, g, y, j);
  }

  lemma SingleOk(f: Code, slots: nat, x: Code, i: Instr, y: Code)
    requires f == x + ([i] + y) && SplitOk(f, slots, x, i, y)
    ensures OkFrom(f, slots, |x|, |x| + 1)
  {
    hide SplitOk;
    assert f[|x|] == i && f[..|x|] == x && f[|x| + 1..] == y;
  }

  lemma HeadOk(slots: nat, i: Instr, y: Code)
    requires !(i.IDrop? || i.IBnePos? || i.ILoop?)
    requires Jumps(i) ==> Boundary([i] + y, Size(i) + i.off, Effect(i))
    requires (i.ISave? ==> 2 * i.slot + 1 < slots) && (i.ISaveReset? ==> 2 * i.hi + 1 < slots)
    requires i.IGreedy? ==> AtomAhead(y, i.count, i.off)
    ensures OkFrom([i] + y, slots, 0, 1)
  {
    hide Boundary, AtomAhead, Len, Net;
    EmptyMeasures();
    assert [i] + y == [] + ([i] + y);
    SingleOk([i] + y, slots, [], i, y);
  }

  lemma WholeBoundary(f: Code)
    ensures Boundary(f, Len(f), Net(f)) && Boundary(f, 0, 0)
  {
    assert f == f + [] && f == [] + f;
    BoundarySplit(f, f, []);
    BoundarySplit(f, [], f);
  }

  // ----- Every construct -----

  lemma BalancedCat(f: Code, g: Code, slots: nat)
    requires Balanced(f, slots) && Balanced(g, slots)
    ensures Balanced(f + g, slots)
  {
    hide InstrOk, Len, Net;
    var h := f + g;
    Measures(f, g);
    EmptyMeasures();
    assert h == [] + (f + g) && h == f + (g + []);
    PieceOk(h, slots, [], f, g);
    PieceOk(h, slots, f, g, []);
  }

  lemma EmptyMeasures()
    ensures Net([]) == 0 && Len([]) == 0
  {
  }

  lemma BalancedUnit(i: Instr, slots: nat)
    requires !Jumps(i) && Effect(i) == 0
    requires (i.ISave? ==> 2 * i.slot + 1 < slots) && (i.ISaveReset? ==> 2 * i.hi + 1 < slots)
    ensures Balanced([i], slots)
  {
    assert [i] == [i] + [];
    HeadOk(slots, i, []);
    UnitMeasures(i);
  }

  /** One instruction, then balanced code, at one depth. */
  lemma BalancedHead(i: Instr, y: Code, slots: nat)
    requires Balanced(y, slots) && Effect(i) == 0 && !i.ILoop?
    requires Jumps(i) ==> Boundary([i] + y, Size(i) + i.off, 0)
    requires (i.ISave? ==> 2 * i.slot + 1 < slots) && (i.ISaveReset? ==> 2 * i.hi + 1 < slots)
    requires i.IGreedy? ==> AtomAhead(y, i.count, i.off)
    ensures Balanced([i] + y, slots)
  {
    hide InstrOk, Len, Net, Boundary, AtomAhead;
    var f := [i] + y;
    HeadOk(slots, i, y);
    UnitMeasures(i);
    Measures([i], y);
    assert f == [i] + (y + []);
    PieceOk(f, slots, [i], y, []);
  }

  lemma BalancedSnoc(x: Code, i: Instr, slots: nat)
    requires Balanced(x, slots) && Effect(i) == 0 && !i.ILoop? && !i.IGreedy?
    requires Jumps(i) ==> Boundary(x + [i], Len(x) + Size(i) + i.off, 0)
    requires (i.ISave? ==> 2 * i.slot + 1 < slots) && (i.ISaveReset? ==> 2 * i.hi + 1 < slots)
    ensures Balanced(x + [i], slots)
  {
    hide InstrOk, Len, Net, Boundary, AtomAhead;
    var f := x + [i];
    UnitMeasures(i);
    EmptyMeasures();
    Measures(x, [i]);
    assert f == [] + (x + [i]) && f == x + ([i] + []);
    PieceOk(f, slots, [], x, [i]);
    SingleOk(f, slots, x, i, []);
  }

  lemma BalancedOptional(a: Code, greedy: bool, slots: nat)
    requires Balanced(a, slots)
    ensures Balanced(OptionalCode(a, greedy), slots)
  {
    hide InstrOk, Len, Net, Boundary;
    var i := ISplit(greedy, Len(a));
    UnitMeasures(i);
    Measures([i], a);
    WholeBoundary([i] + a);
    BalancedHead(i, a, slots);
  }

  lemma BalancedPlus(a: Code, greedy: bool, slots: nat)
    requires Balanced(a, slots)
    ensures Balanced(PlusLoop(a, greedy), slots)
  {
    hide InstrOk, Len, Net, Boundary;
    WholeBoundary(a + [ISplit(!greedy, Back(Len(a)))]);
    BalancedSnoc(a, ISplit(!greedy, Back(Len(a))), slots);
  }

  lemma BalancedLook(negated: bool, a: Code, slots: nat)
    requires Balanced(a, slots)
    ensures Balanced(LookCode(negated, a), slots)
  {
    hide InstrOk, Len, Net, Boundary;
    var i := ILook(negated, Len(a) + 1);
    BalancedSnoc(a, IMatch, slots);
    UnitMeasures(i);
    UnitMeasures(IMatch);
    Measures(a, [IMatch]);
    Measures([i], a + [IMatch]);
    WholeBoundary([i] + (a + [IMatch]));
    BalancedHead(i, a + [IMatch], slots);
  }

  lemma BalancedGroup(cc: nat, a: Code, slots: nat)
    requires Balanced(a, slots) && 2 * cc + 1 < slots
    ensures Balanced(GroupCode(cc, a), slots)
  {
    hide InstrOk, Len, Net, Boundary;
    BalancedSnoc(a, ISave(true, cc), slots);
    BalancedHead(ISave(false, cc), a + [ISave(true, cc)], slots);
  }

  lemma BalancedAlt(a: Code, b: Code, slots: nat)
    requires Balanced(a, slots) && Balanced(b, slots)
    ensures Balanced(AltCode(a, b), slots)
  {
    hide InstrOk, Len, Net, Boundary;
    var split, jump := ISplit(true, Len(a) + 5), IGoto(Len(b));
    var rest := [jump] + b;
    UnitMeasures(jump);
    UnitMeasures(split);
    Measures([jump], b);
    WholeBoundary(rest);
    BalancedHead(jump, b, slots);
    BalancedCat(a, rest, slots);
    Measures(a, rest);
    var f := [split] + (a + rest);
    assert f == ([split] + a + [jump]) + b;
    Measures([split] + a, [jump]);
    Measures([split], a);
    BoundarySplit(f, [split] + a + [jump], b);
    BalancedHead(split, a + rest, slots);
  }

  lemma BalancedGreedy(a: Code, min: nat, max: nat, slots: nat)
    requires Balanced(a, slots) && SimpleLength(a) > 0
    ensures Balanced(GreedyCode(a, min, max), slots)
  {
    hide InstrOk, Len, Net, Boundary, SimpleLength;
    var i := IGreedy(Len(a) + 1, min, max, SimpleLength(a));
    BalancedSnoc(a, IMatch, slots);
    UnitMeasures(i);
    UnitMeasures(IMatch);
    Measures(a, [IMatch]);
    Measures([i], a + [IMatch]);
    WholeBoundary([i] + (a + [IMatch]));
    assert AtomAhead(a + [IMatch], SimpleLength(a), Len(a) + 1);
    BalancedHead(i, a + [IMatch], slots);
  }

  // ----- Loops that keep a counter or a position on the stack -----

  /** push; body at one level deeper; the end that uses and drops the value. */
  lemma BalancedFixed(a: Code, n: nat, slots: nat)
    requires Balanced(a, slots)
    ensures Balanced(FixedLoop(a, n), slots)
  {
    hide InstrOk, Len, Net, Boundary;
    var push, loop := [IPush(n)], ILoop(Back(Len(a)));
    var f := push + (a + ([loop] + [IDrop]));
    UnitMeasures(IPush(n));
    UnitMeasures(loop);
    UnitMeasures(IDrop);
    EmptyMeasures();
    Measures(push, a);
    Measures(push + a, [loop]);
    Measures(push + a + [loop], [IDrop]);
    assert f == push + (a + ([loop] + [IDrop])) && f == (push + a) + ([loop] + [IDrop])
           && f == (push + a + [loop]) + ([IDrop] + []) && f == push + a + [loop] + [IDrop];
    HeadOk(slots, IPush(n), a + ([loop] + [IDrop]));
    PieceOk(f, slots, push, a, [loop] + [IDrop]);
    BoundarySplit(f, push, a + ([loop] + [IDrop]));
    SingleOk(f, slots, push + a, loop, [IDrop]);
    SingleOk(f, slots, push + a + [loop], IDrop, []);
  }

  lemma BalancedCounted(a: Code, n: nat, greedy: bool, slots: nat)
    requires Balanced(a, slots)
    ensures Balanced(CountedLoop(a, n, greedy), slots)
  {
    hide InstrOk, Len, Net, Boundary;
    var push, split, loop := [IPush(n)], ISplit(greedy, Len(a) + 5), ILoop(Back(Len(a) + 5));
    var head, end := push + [split], [loop] + [IDrop];
    var f := push + ([split] + (a + end));
    UnitMeasures(IPush(n));
    UnitMeasures(split);
    UnitMeasures(loop);
    UnitMeasures(IDrop);
    EmptyMeasures();
    Measures(push, [split]);
    Measures(head, a);
    Measures(head + a, [loop]);
    Measures(head + a + [loop], [IDrop]);
    assert f == head + (a + end) && f == (head + a) + ([loop] + [IDrop])
           && f == (head + a + [loop]) + ([IDrop] + []) && f == head + a + [loop] + [IDrop];
    HeadOk(slots, IPush(n), [split] + (a + end));
    BoundarySplit(f, head + a + [loop], [IDrop]);
    SingleOk(f, slots, push, split, a + end);
    PieceOk(f, slots, head, a, end);
    BoundarySplit(f, push, [split] + (a + end));
    SingleOk(f, slots, head + a, loop, [IDrop]);
    SingleOk(f, slots, head + a + [loop], IDrop, []);
  }

  lemma BalancedChecked(a: Code, greedy: bool, slots: nat)
    requires Balanced(a, slots)
    ensures Balanced(InfiniteLoop(a, true, greedy), slots)
  {
    hide InstrOk, Len, Net, Boundary;
    var split, bne := ISplit(greedy, Len(a) + 6), IBnePos(Back(Len(a) + 6));
    var head := [split] + [IPushPos];
    var f := [split] + ([IPushPos] + (a + [bne]));
    UnitMeasures(split);
    UnitMeasures(IPushPos);
    UnitMeasures(bne);
    EmptyMeasures();
    Measures([split], [IPushPos]);
    Measures(head, a);
    Measures(head + a, [bne]);
    assert f == head + (a + [bne]) && f == (head + a) + ([bne] + []) && f == head + a + [bne];
    WholeBoundary(f);
    HeadOk(slots, split, [IPushPos] + (a + [bne]));
    SingleOk(f, slots, [split], IPushPos, a + [bne]);
    PieceOk(f, slots, head, a, [bne]);
    SingleOk(f, slots, head + a, bne, []);
  }

  lemma BalancedUnchecked(a: Code, greedy: bool, slots: nat)
    requires Balanced(a, slots)
    ensures Balanced(InfiniteLoop(a, false, greedy), slots)
  {
    hide InstrOk, Len, Net, Boundary;
    var split, jump := ISplit(greedy, Len(a) + 5), IGoto(Back(Len(a) + 5));
    var f := [split] + (a + [jump]);
    UnitMeasures(split);
    UnitMeasures(jump);
    EmptyMeasures();
    Measures([split], a);
    Measures([split] + a, [jump]);
    assert f == ([split] + a) + ([jump] + []) && f == [split] + a + [jump];
    WholeBoundary(f);
    HeadOk(slots, split, a + [jump]);
    PieceOk(f, slots, [split], a, [jump]);
    SingleOk(f, slots, [split] + a, jump, []);
  }

  lemma BalancedNothing(slots: nat)
    ensures Balanced([], slots)
  {
  }

  lemma BalancedPlain(a: Code, cc: nat, groups: nat, min: nat, max: nat, greedy: bool, check: bool, slots: nat)
    requires Balanced(a, slots) && 2 * (cc + groups) <= slots
    ensures Balanced(PlainQuant(a, cc, groups, min, max, greedy, check), slots)
  {
    hide Balanced, InfiniteLoop, CountedLoop, FixedLoop, PlusLoop, OptionalCode;
    BalancedNothing(slots);
    if check { BalancedChecked(a, greedy, slots); } else { BalancedUnchecked(a, greedy, slots); }
    BalancedOptional(a, greedy, slots);
    if min == 0 {
      BalancedCounted(a, max, greedy, slots);
      if groups > 0 { BalancedUnit(ISaveReset(cc, cc + groups - 1), slots); }
      BalancedCat(ResetCode(groups, cc), TailFromZero(a, max, greedy, check), slots);
    } else if min == 1 && max == INFINITE && !check {
      BalancedPlus(a, greedy, slots);
    } else {
      BalancedFixed(a, min, slots);
      if max > min { BalancedCounted(a, max - min, greedy, slots); }
      BalancedCat(MinCode(a, min), TailFromMin(a, min, max, greedy, check), slots);
    }
  }

  /** The code of every pattern is well typed after all insertions and patches. */
  lemma {:induction false} GenBalanced(r: Re, cc: nat, slots: nat)
    requires 2 * (cc + Groups(r)) <= slots
    ensures Balanced(Gen(r, cc), slots)
    decreases r
  {
    hide Balanced, AltCode, LookCode, GroupCode, PlainQuant, GreedyCode, SimpleLength, ScanAdvance;
    match r
    case Empty => BalancedNothing(slots);
    case Cat(a, b) =>
      GenBalanced(a, cc, slots);
      GenBalanced(b, cc + Groups(a), slots);
      BalancedCat(Gen(a, cc), Gen(b, cc + Groups(a)), slots);
    case Alt(a, b) =>
      GenBalanced(a, cc, slots);
      GenBalanced(b, cc + Groups(a), slots);
      BalancedAlt(Gen(a, cc), Gen(b, cc + Groups(a)), slots);
    case Group(b) =>
      GenBalanced(b, cc + 1, slots);
      BalancedGroup(cc, Gen(b, cc + 1), slots);
    case Look(negated, b) =>
      GenBalanced(b, cc, slots);
      BalancedLook(negated, Gen(b, cc), slots);
    case Quant(b, min, max, greedy) =>
      var a := Gen(b, cc);
      GenBalanced(b, cc, slots);
      if UsesGreedy(a, max, greedy) {
        BalancedGreedy(a, min, max, slots);
      } else {
        BalancedPlain(a, cc, Groups(b), min, max, greedy, NeedsCheck(a, greedy), slots);
      }
    case _ =>
      BalancedUnit(Gen(r, cc)[0], slots);
  }

  /** The program without its final match. */
  function Body0(r: Re): Code {
    SearchLoop() + Gen(Group(r), 0)
  }

  lemma SearchLoopBalanced(slots: nat)
    ensures Balanced(SearchLoop(), slots)
  {
    hide InstrOk, Len, Net, Boundary;
    var split, jump := ISplit(false, 6), IGoto(-11);
    var f := SearchLoop();
    UnitMeasures(split);
    UnitMeasures(IAny);
    UnitMeasures(jump);
    EmptyMeasures();
    Measures([split], [IAny]);
    Measures([split] + [IAny], [jump]);
    assert f == ([split] + [IAny]) + ([jump] + []) && f == [split] + [IAny] + [jump];
    WholeBoundary(f);
    HeadOk(slots, split, [IAny] + [jump]);
    SingleOk(f, slots, [split], IAny, [jump]);
    SingleOk(f, slots, [split] + [IAny], jump, []);
  }

  lemma ProgramBalanced(r: Re)
    ensures Balanced(Body0(r), 2 * Groups(r) + 2) && Program(r) == Body0(r) + [IMatch]
  {
    hide Balanced, Gen;
    SearchLoopBalanced(2 * Groups(r) + 2);
    GenBalanced(Group(r), 0, 2 * Groups(r) + 2);
    BalancedCat(SearchLoop(), Gen(Group(r), 0), 2 * Groups(r) + 2);
    BodyOfProgram(r);
  }

  lemma BodyOfProgram(r: Re)
    ensures Program(r) == Body0(r) + [IMatch]
  {
  }
}
