/** `simple_greedy_quant`: one instruction in place of a split loop over
    straight-line code. */
module RegexGreedy {
  import opened Basics
  import opened Intervals
  import opened RegexSyntax
  import opened RegexOutcomes
  import opened RegexClass
  import opened RegexCode
  import opened RegexGen
  import opened RegexVM
  import opened RegexYields
  import opened RegexQuant
  import opened RegexAdvance

  /** Where straight-line code ends, if all its tests succeed. */
  function Straight(s: seq<byte>, f: Code, pos: int): Option<int> {
    if f == [] then Some(pos)
    else if IsTest(f[0]) then
      if 0 <= pos < |s| && Accepts(f[0], s[pos]) then Straight(s, f[1..], pos + 1) else None
    else if Holds(f[0], s, pos) then Straight(s, f[1..], pos) else None
  }

  lemma {:induction false} StraightConcat(s: seq<byte>, f: Code, g: Code, pos: int)
    ensures Straight(s, f + g, pos) ==
            match Straight(s, f, pos) case None => None case Some(p) => Straight(s, g, p)
    decreases |f|
  {
    hide IsTest, Accepts, Holds;
    if f == [] {
      assert f + g == g;
    } else {
      assert (f + g)[1..] == f[1..] + g;
      StraightConcat(s, f[1..], g, if IsTest(f[0]) then pos + 1 else pos);
    }
  }

  /** Straight-line code consumes exactly the number of characters that
      `re_is_simple_quantifier` counts. */
  lemma {:induction false} StraightLength(s: seq<byte>, f: Code, pos: int)
    requires SimpleLength(f) >= 0 && 0 <= pos <= |s|
    ensures match Straight(s, f, pos) case None => true case Some(p) => p == pos + SimpleLength(f) <= |s|
    decreases |f|
  {
    hide IsTest, Accepts, Holds, IsAssertion;
    if f != [] {
      if IsTest(f[0]) {
        if pos < |s| { StraightLength(s, f[1..], pos + 1); }
      } else {
        StraightLength(s, f[1..], pos);
      }
    }
  }

  function StraightOuts(s: seq<byte>, f: Code, o: Out): seq<Out> {
    match Straight(s, f, o.pos)
    case None => []
    case Some(p) => [o.(pos := p)]
  }

  lemma UnitStraight(s: seq<byte>, i: Instr, pos: int)
    ensures Straight(s, [i], pos) ==
            if IsTest(i) then (if 0 <= pos < |s| && Accepts(i, s[pos]) then Some(pos + 1) else None)
            else if Holds(i, s, pos) then Some(pos) else None
  {
    assert [i][1..] == [];
  }

  lemma ClassAccepts(points: seq<int>, c: byte)
    requires Compressed(points)
    ensures Accepts(ClassCode(points), c) <==> InIntervals(points, c)
  {
    if |points| >= 2 { ClassMatch(points, c); }
  }

  /** Characters, classes and assertions compile to one instruction that tests what they mean. */
  lemma UnitOutcomes(s: seq<byte>, rounds: nat, r: Re, cc: nat, o: Out)
    requires WellFormed(r) && IsUnit(r)
    ensures SimpleLength(Gen(r, cc)) >= 0 && Outcomes(s, rounds, r, cc, o) == StraightOuts(s, Gen(r, cc), o)
  {
    if !r.Empty? {
      UnitScan(Gen(r, cc)[0]);
      UnitStraight(s, Gen(r, cc)[0], o.pos);
      if r.Class? && 0 <= o.pos < |s| { ClassAccepts(r.points, s[o.pos]); }
    }
  }

  /** Only {0} without groups and {1} leave straight-line code straight. */
  lemma StraightQuant(a: Code, cc: nat, groups: nat, min: nat, max: nat, greedy: bool)
    requires min <= max <= INFINITE
    ensures var f := QuantCode(a, cc, groups, min, max, greedy);
            SimpleLength(f) >= 0 ==> (min == max == 0 && groups == 0 && f == []) || (min == max == 1 && f == a)
  {
    hide ScanAdvance, SimpleLength, InfiniteLoop, CountedLoop, OptionalCode, FixedLoop;
    var check := NeedsCheck(a, greedy);
    if UsesGreedy(a, max, greedy) {
      HeadScan(IGreedy(Len(a) + 1, min, max, SimpleLength(a)), a + [IMatch]);
    } else if min == 0 {
      TailScans(a, max, greedy, check);
      ResetScan(groups, cc);
      ScanConcat(ResetCode(groups, cc), TailFromZero(a, max, greedy, check));
    } else {
      FixedScan(a, min);
      UnitScan(ISplit(!greedy, Back(Len(a))));
      ScanConcat(a, [ISplit(!greedy, Back(Len(a)))]);
      TailScans(a, if max > min then max - min else 0, greedy, check);
      ScanConcat(MinCode(a, min), TailFromMin(a, min, max, greedy, check));
    }
  }

  lemma TrivialIteration(len: nat, rounds: nat, f: Body, min: nat, max: nat, greedy: bool, o: Out)
    ensures min == max == 0 ==> Iterated(len, rounds, f, min, max, greedy, o) == [o]
    ensures min == max == 1 ==> Iterated(len, rounds, f, min, max, greedy, o) == f(o)
  {
    SemAllZero(len, f, f(o));
  }

  /** A pattern with straight-line code has at most one outcome: the end of that code. */
  lemma {:induction false} StraightEnd(s: seq<byte>, rounds: nat, r: Re, cc: nat, o: Out)
    requires WellFormed(r) && SimpleLength(Gen(r, cc)) >= 0
    ensures Outcomes(s, rounds, r, cc, o) == StraightOuts(s, Gen(r, cc), o)
    decreases r, 1
  {
    hide Outcomes, SimpleLength, StraightOuts, Iterated;
    match r
    case Cat(a, b) => StraightCat(s, rounds, a, b, cc, o);
    case Alt(a, b) => AltScan(Gen(a, cc), Gen(b, cc + Groups(a)));
    case Group(b) => GroupScan(Gen(b, cc + 1), cc);
    case Look(negated, b) => HeadScan(ILook(negated, Len(Gen(b, cc)) + 1), Gen(b, cc) + [IMatch]);
    case Quant(b, min, max, greedy) =>
      StraightQuant(Gen(b, cc), cc, Groups(b), min, max, greedy);
      QuantUnfold(s, rounds, b, min, max, greedy, cc, o);
      TrivialIteration(|s|, rounds, Matcher(s, rounds, b, cc), min, max, greedy, o);
      if max == 0 { NothingStraight(s, o); } else { StraightEnd(s, rounds, b, cc, o); }
    case _ => UnitOutcomes(s, rounds, r, cc, o);
  }

  /** That end is as far on as the scan has counted, whatever the pattern matched. */
  lemma StraightOutcomes(s: seq<byte>, rounds: nat, r: Re, cc: nat, o: Out)
    requires WellFormed(r) && SimpleLength(Gen(r, cc)) >= 0 && Valid(|s|, o)
    ensures var outs := Outcomes(s, rounds, r, cc, o);
            && outs == StraightOuts(s, Gen(r, cc), o)
            && (outs == [] || (outs == [o.(pos := o.pos + SimpleLength(Gen(r, cc)))] && o.pos + SimpleLength(Gen(r, cc)) <= |s|))
  {
    hide Outcomes, SimpleLength, Straight, Gen;
    StraightEnd(s, rounds, r, cc, o);
    StraightLength(s, Gen(r, cc), o.pos);
  }

  lemma NothingStraight(s: seq<byte>, o: Out)
    ensures StraightOuts(s, [], o) == [o]
  {
  }

  lemma StraightCat(s: seq<byte>, rounds: nat, a: Re, b: Re, cc: nat, o: Out)
    requires WellFormed(a) && WellFormed(b) && SimpleLength(Gen(Cat(a, b), cc)) >= 0
    ensures Outcomes(s, rounds, Cat(a, b), cc, o) == StraightOuts(s, Gen(Cat(a, b), cc), o)
    decreases Cat(a, b), 0
  {
    hide Outcomes, SimpleLength, Straight, SemAll, QuantCode, AltCode, LookCode, GroupCode, ClassCode;
    var fa, fb, cb := Gen(a, cc), Gen(b, cc + Groups(a)), cc + Groups(a);
    ScanConcat(fa, fb);
    StraightConcat(s, fa, fb, o.pos);
    StraightEnd(s, rounds, a, cc, o);
    CatUnfold(s, rounds, a, b, cc, o);
    var p := Straight(s, fa, o.pos);
    if p.Some? {
      StraightEnd(s, rounds, b, cb, o.(pos := p.value));
      SemAllUnit(|s|, Once(Matcher(s, rounds, b, cb)), o.(pos := p.value));
    } else {
      SemAllNothing(|s|, Once(Matcher(s, rounds, b, cb)));
    }
  }

  lemma SemAllNothing(len: nat, t: Task)
    ensures SemAll(len, t, []) == []
  {
  }

  // ----- The loop of the instruction -----

  type Runner = int -> AtomResult

  /** The outcomes k iterations of n characters apart, longest first. */
  function Down(o: Out, n: nat, k: nat): seq<Out>
    decreases k
  {
    [o] + if k == 0 then [] else Down(o.(pos := o.pos - n), n, k - 1)
  }

  /** The position after k more iterations of n characters. */
  function Climb(pos: int, n: nat, k: nat): int
    decreases k
  {
    if k == 0 then pos else Climb(pos + n, n, k - 1)
  }

  lemma {:induction false} ClimbLast(pos: int, n: nat, k: nat)
    ensures Climb(pos, n, k + 1) == Climb(pos, n, k) + n && pos <= Climb(pos, n, k)
    decreases k
  {
    if k > 0 { ClimbLast(pos + n, n, k - 1); }
  }

  lemma {:induction false} DownSnoc(top: Out, n: nat, k: nat, bottom: Out)
    requires top == bottom.(pos := Climb(bottom.pos, n, k + 1))
    ensures Down(top, n, k + 1) == Down(top, n, k) + [bottom]
    decreases k
  {
    var lower := top.(pos := top.pos - n);
    ClimbLast(bottom.pos, n, k);
    if k > 0 {
      DownSnoc(lower, n, k - 1, bottom);
    } else {
      assert Down(top, n, 1) == [top] + Down(lower, n, 0);
    }
  }

  /** Every iteration fails or consumes n characters. */
  ghost predicate Uniform(run: Runner, len: nat, n: nat) {
    n > 0 && forall pos :: 0 <= pos <= len ==> UniformAt(run, len, n, pos)
  }

  ghost predicate UniformAt(run: Runner, len: nat, n: nat, pos: int) {
    run(pos) == AtomFail || (run(pos) == AtomEnd(pos + n) && pos + n <= len)
  }

  /** The run of one iteration and its outcomes agree. */
  ghost predicate AtomFact(run: Runner, f: Body, o: Out) {
    match run(o.pos)
    case AtomStuck => false
    case AtomFail => f(o) == []
    case AtomEnd(p) => f(o) == [o.(pos := p)]
  }

  ghost predicate AtomFor(run: Runner, f: Body, len: nat) {
    forall o :: Valid(len, o) ==> AtomFact(run, f, o)
  }

  function Mandatory(min: nat): nat {
    if min == 0 then 0 else min - 1
  }

  /** The outcomes of a greedy quantifier over an atom with at most one outcome,
      of which `q` iterations are done and `min` still have to be. */
  function GreedyOuts(run: Runner, len: nat, o: Out, min: nat, q: nat, max: nat): seq<Out>
    decreases len - o.pos
  {
    var stop := if min == 0 then [o] else [];
    match run(o.pos)
    case AtomEnd(p) =>
      if !(o.pos < p <= len) then stop
      else if q + 1 >= max && max != INFINITE then (if min <= 1 then [o.(pos := p)] else []) + stop
      else GreedyOuts(run, len, o.(pos := p), Mandatory(min), q + 1, max) + stop
    case _ => stop
  }

  /** They are visited from the longest, which the loop of the instruction finds,
      down to the shortest allowed. */
  lemma {:induction false} GreedyDown(run: Runner, len: nat, n: nat, o: Out, min: nat, q: nat, max: nat) returns (k: nat)
    requires Uniform(run, len, n) && Valid(len, o)
    ensures GreedyRun(run, len, o.pos, q, max) == Some((q + k, Climb(o.pos, n, k)))
    ensures o.pos <= Climb(o.pos, n, k) <= len
    ensures GreedyOuts(run, len, o, min, q, max) ==
            if k < min then [] else Down(o.(pos := Climb(o.pos, n, k)), n, k - min)
    decreases len - o.pos
  {
    assert UniformAt(run, len, n, o.pos);
    if run(o.pos) == AtomFail {
      k := 0;
    } else {
      var o1 := o.(pos := o.pos + n);
      if q + 1 >= max && max != INFINITE {
        k := 1;
        if min == 0 { DownSnoc(o1, n, 0, o); }
      } else {
        var j := GreedyDown(run, len, n, o1, Mandatory(min), q + 1, max);
        k := j + 1;
        if min == 0 { DownSnoc(o.(pos := Climb(o.pos, n, k)), n, j, o); }
      }
    }
  }

  // ----- The iterated outcomes of such an atom -----

  ghost predicate OptionalTask(t: Task, f: Body, o: Out, q: nat, max: nat) {
    if max == INFINITE then t.Loop? && t == Loop(f, t.from) && t.from < o.pos
    else q < max && t == UpTo(f, max - q, true)
  }

  function NextTask(t: Task, o: Out): Task {
    match t
    case Loop(f, _) => Loop(f, o.pos)
    case UpTo(f, n, greedy) => UpTo(f, if n == 0 then 0 else n - 1, greedy)
    case _ => t
  }

  lemma OptionalStep(len: nat, f: Body, o: Out, t: Task, q: nat, max: nat, o1: Out)
    requires OptionalTask(t, f, o, q, max) && o.pos <= len
    ensures f(o) == [] ==> Sem(len, t, o) == [o]
    ensures f(o) == [o1] ==> Sem(len, t, o) == Sem(len, NextTask(t, o), o1) + [o]
  {
    SemAllUnit(len, NextTask(t, o), o1);
    assert [] + [o] == [o];
  }

  lemma {:induction false} OptionalGreedy(run: Runner, len: nat, n: nat, f: Body, o: Out, t: Task, q: nat, max: nat)
    requires Uniform(run, len, n) && AtomFor(run, f, len) && Valid(len, o)
    requires OptionalTask(t, f, o, q, max)
    ensures Sem(len, t, o) == GreedyOuts(run, len, o, 0, q, max)
    decreases len - o.pos
  {
    assert AtomFact(run, f, o) && UniformAt(run, len, n, o.pos);
    var o1, t1 := o.(pos := o.pos + n), NextTask(t, o);
    OptionalStep(len, f, o, t, q, max, o1);
    if run(o.pos) != AtomFail {
      if q + 1 >= max && max != INFINITE {
        assert t1 == UpTo(f, 0, true);
      } else {
        OptionalGreedy(run, len, n, f, o1, t1, q + 1, max);
      }
    }
  }

  function Fewer(max: nat): nat {
    if max == INFINITE || max == 0 then max else max - 1
  }

  lemma IteratedZero(len: nat, rounds: nat, f: Body, max: nat, o: Out)
    requires max > 0
    ensures Iterated(len, rounds, f, 0, max, true, o) == Sem(len, if max == INFINITE then Loop(f, -1) else UpTo(f, max, true), o)
  {
    SemAllUnit(len, if max == INFINITE then Loop(f, -1) else UpTo(f, max, true), o);
  }

  lemma IteratedStep(len: nat, rounds: nat, f: Body, greedy: bool, min: nat, max: nat, o: Out, o1: Out)
    requires 0 < min <= max <= INFINITE
    ensures f(o) == [] ==> Iterated(len, rounds, f, min, max, greedy, o) == []
    ensures f(o) == [o1] ==> Iterated(len, rounds, f, min, max, greedy, o) == Iterated(len, rounds, f, min - 1, Fewer(max), greedy, o1)
  {
    SemAllUnit(len, Repeat(f, min - 1), o1);
  }

  /** A whole quantifier of which `q` iterations are done. */
  lemma {:induction false} IteratedGreedy(run: Runner, len: nat, rounds: nat, n: nat, f: Body, o: Out, min: nat, left: nat, q: nat, max: nat)
    requires Uniform(run, len, n) && AtomFor(run, f, len) && Valid(len, o)
    requires if max == INFINITE then left == INFINITE else q < max && left == max - q
    requires min <= left && max <= INFINITE
    ensures Iterated(len, rounds, f, min, left, true, o) == GreedyOuts(run, len, o, min, q, max)
    decreases min
  {
    hide Iterated, Sem, SemAll;
    if min == 0 {
      var t := if left == INFINITE then Loop(f, -1) else UpTo(f, left, true);
      IteratedZero(len, rounds, f, left, o);
      OptionalGreedy(run, len, n, f, o, t, q, max);
    } else {
      assert AtomFact(run, f, o) && UniformAt(run, len, n, o.pos);
      var o1 := o.(pos := o.pos + n);
      IteratedStep(len, rounds, f, true, min, left, o, o1);
      if run(o.pos) != AtomFail {
        if q + 1 >= max && max != INFINITE {
          TrivialIteration(len, rounds, f, 0, 0, true, o1);
        } else {
          IteratedGreedy(run, len, rounds, n, f, o1, min - 1, Fewer(left), q + 1, max);
        }
      }
    }
  }

  // ----- The instruction -----

  ghost predicate Sized(m: Machine) {
    forall pc :: m.fetch(pc).Some? ==> pc < m.size
  }

  lemma {:induction false} AtomRunStraight(m: Machine, pc: int, a: Code, pos: int)
    requires Sized(m) && CodeAt(m.fetch, pc, a + [IMatch]) && SimpleLength(a) >= 0
    ensures AtomRun(m, pc, pos) == match Straight(m.s, a, pos) case None => AtomFail case Some(p) => AtomEnd(p)
    decreases |a|
  {
    hide Accepts, Holds;
    var f := a + [IMatch];
    assert m.fetch(pc) == Some(f[0]);
    if a != [] {
      assert f[1..] == a[1..] + [IMatch];
      AtomRunStraight(m, pc + Size(a[0]), a[1..], if IsTest(a[0]) then pos + 1 else pos);
    }
  }

  lemma AtomRunsUniformly(m: Machine, pc: int, a: Code)
    requires Sized(m) && CodeAt(m.fetch, pc, a + [IMatch]) && SimpleLength(a) > 0
    ensures Uniform(AtomRunner(m, pc), |m.s|, SimpleLength(a))
  {
    hide Straight, AtomRun;
    forall pos | 0 <= pos <= |m.s| ensures UniformAt(AtomRunner(m, pc), |m.s|, SimpleLength(a), pos) {
      AtomRunStraight(m, pc, a, pos);
      StraightLength(m.s, a, pos);
    }
  }

  lemma AtomRunsFor(m: Machine, pc: int, r: Re, cc: nat, a: Code)
    requires WellFormed(r) && a == Gen(r, cc)
    requires Sized(m) && CodeAt(m.fetch, pc, a + [IMatch]) && SimpleLength(a) > 0
    ensures AtomFor(AtomRunner(m, pc), Matcher(m.s, m.rounds, r, cc), |m.s|)
  {
    hide Straight, AtomRun, Outcomes, Gen, CodeAt;
    forall o | Valid(|m.s|, o) ensures AtomFact(AtomRunner(m, pc), Matcher(m.s, m.rounds, r, cc), o) {
      AtomRunStraight(m, pc, a, o.pos);
      StraightOutcomes(m.s, m.rounds, r, cc, o);
    }
  }

  lemma GreedyPop(m: Machine, pc: int, i: Instr, count: nat, stack: seq<int>, o: Out, s: Saved)
    requires m.fetch(pc) == Some(i) && i.IGreedy? && count > 0 && i.count <= o.pos
    ensures Step(m, Backtrack(Push(Frame(GreedyState(count), pc + 1, o.pos, stack, o.caps), s))) ==
            Run(pc + 17 + i.off, o.pos - i.count, stack, o.caps,
                if count == 1 then s
                else Push(Frame(GreedyState(count - 1), pc + 1, o.pos - i.count, stack, o.caps), s))
  {
  }

  lemma GreedyExec(m: Machine, pc: int, i: Instr, k: nat, end: int, stack: seq<int>, o: Out, s: Saved)
    requires m.fetch(pc) == Some(i) && i.IGreedy?
    requires GreedyRun(AtomRunner(m, pc + 17), |m.s|, o.pos, 0, i.max) == Some((k, end))
    ensures Step(m, Run(pc, o.pos, stack, o.caps, s)) ==
            if k < i.min then Backtrack(s)
            else Run(pc + 17 + i.off, end, stack, o.caps,
                     if k > i.min then Push(Frame(GreedyState(k - i.min), pc + 1, end, stack, o.caps), s) else s)
  {
    hide GreedyRun, AtomRunner;
  }

  /** Backtracking into a greedy state steps down by one iteration at a time. */
  lemma {:induction false} YieldsDown(m: Machine, pc: int, i: Instr, count: nat, bottom: int, stack: seq<int>, o: Out, s: Saved)
    requires m.fetch(pc) == Some(i) && i.IGreedy? && count > 0
    requires 0 <= bottom && o.pos == Climb(bottom, i.count, count)
    ensures Yields(m, Backtrack(Push(Frame(GreedyState(count), pc + 1, o.pos, stack, o.caps), s)), pc + 17 + i.off, stack,
                   Down(o.(pos := o.pos - i.count), i.count, count - 1), s)
    decreases count
  {
    hide Step, Visits;
    var n := i.count;
    ClimbLast(bottom, n, count - 1);
    GreedyPop(m, pc, i, count, stack, o, s);
    var lower := o.(pos := o.pos - n);
    var c := Backtrack(Push(Frame(GreedyState(count), pc + 1, o.pos, stack, o.caps), s));
    var end := pc + 17 + i.off;
    if count == 1 {
      YieldsHere(m, end, stack, lower, s);
      assert Down(lower, n, 0) == [lower];
      YieldsStep(m, c, end, stack, [lower], s);
    } else {
      var t := Push(Frame(GreedyState(count - 1), pc + 1, lower.pos, stack, o.caps), s);
      YieldsHere(m, end, stack, lower, t);
      YieldsStep(m, c, end, stack, [lower], t);
      YieldsDown(m, pc, i, count - 1, bottom, stack, lower, s);
      assert Above(t, s);
      YieldsAppend(m, c, end, stack, [lower], Down(lower.(pos := lower.pos - n), n, count - 2), t, s);
    }
  }

  /** The instruction itself, from its loop's result. */
  lemma YieldsGreedy(m: Machine, pc: int, i: Instr, k: nat, stack: seq<int>, o: Out, s: Saved)
    requires m.fetch(pc) == Some(i) && i.IGreedy? && Valid(|m.s|, o)
    requires GreedyRun(AtomRunner(m, pc + 17), |m.s|, o.pos, 0, i.max) == Some((k, Climb(o.pos, i.count, k)))
    ensures Yields(m, Run(pc, o.pos, stack, o.caps, s), pc + 17 + i.off, stack,
                   if k < i.min then [] else Down(o.(pos := Climb(o.pos, i.count, k)), i.count, k - i.min), s)
  {
    hide Step, Visits, GreedyRun, AtomRunner;
    var n, c, end := i.count, Run(pc, o.pos, stack, o.caps, s), pc + 17 + i.off;
    var top := o.(pos := Climb(o.pos, n, k));
    GreedyExec(m, pc, i, k, top.pos, stack, o, s);
    if k < i.min {
      YieldsNothing(m, end, stack, s);
      YieldsStep(m, c, end, stack, [], s);
    } else if k == i.min {
      YieldsHere(m, end, stack, top, s);
      assert Down(top, n, 0) == [top];
      YieldsStep(m, c, end, stack, [top], s);
    } else {
      var t := Push(Frame(GreedyState(k - i.min), pc + 1, top.pos, stack, o.caps), s);
      YieldsHere(m, end, stack, top, t);
      YieldsStep(m, c, end, stack, [top], t);
      var bottom := ClimbSplit(o.pos, n, i.min, k);
      YieldsDown(m, pc, i, k - i.min, bottom, stack, top, s);
      assert Above(t, s);
      YieldsAppend(m, c, end, stack, [top], Down(top.(pos := top.pos - n), n, k - i.min - 1), t, s);
    }
  }

  lemma {:induction false} ClimbSplit(pos: int, n: nat, j: nat, k: nat) returns (mid: int)
    requires j <= k
    ensures pos <= mid && Climb(mid, n, k - j) == Climb(pos, n, k)
    decreases j
  {
    if j == 0 { mid := pos; } else { mid := ClimbSplit(pos + n, n, j - 1, k - 1); }
  }

  lemma GreedyLayout(fetch: Fetch, pc: int, a: Code, min: nat, max: nat)
    requires SimpleLength(a) >= 0
    ensures Len(GreedyCode(a, min, max)) == Len(a) + 18
    ensures CodeAt(fetch, pc, GreedyCode(a, min, max)) ==>
      fetch(pc) == Some(IGreedy(Len(a) + 1, min, max, SimpleLength(a))) && CodeAt(fetch, pc + 17, a + [IMatch])
  {
    hide CodeAt, Len;
    CodeAtHead(fetch, pc, IGreedy(Len(a) + 1, min, max, SimpleLength(a)), a + [IMatch]);
    UnitLayout(fetch, pc + 17, a, IMatch);
  }

  /** The optimised instruction visits the same outcomes, in the same order, as the
      iterated body: longest first down to `min`. */
  lemma SimGreedy(m: Machine, pc: int, r: Re, cc: nat, min: nat, max: nat, o: Out, stack: seq<int>)
    requires Sized(m) && WellFormed(r) && UsesGreedy(Gen(r, cc), max, true) && min <= max <= INFINITE
    requires CodeAt(m.fetch, pc, GreedyCode(Gen(r, cc), min, max)) && Valid(|m.s|, o)
    ensures Always(m, pc, stack, o, pc + Len(GreedyCode(Gen(r, cc), min, max)), stack,
                   Iterated(|m.s|, m.rounds, Matcher(m.s, m.rounds, r, cc), min, max, true, o))
  {
    hide CodeAt, Len, Gen, Iterated, Visits, SimpleLength, Sized, GreedyOuts, GreedyRun, GreedyCode, Uniform, AtomFor;
    var a := Gen(r, cc);
    var n, run, f := SimpleLength(a), AtomRunner(m, pc + 17), Matcher(m.s, m.rounds, r, cc);
    GreedyLayout(m.fetch, pc, a, min, max);
    AtomRunsUniformly(m, pc + 17, a);
    AtomRunsFor(m, pc + 17, r, cc, a);
    IteratedGreedy(run, |m.s|, m.rounds, n, f, o, min, max, 0, max);
    var k := GreedyDown(run, |m.s|, n, o, min, 0, max);
    forall s ensures Visits(m, Run(pc, o.pos, stack, o.caps, s), pc + Len(a) + 18, stack, Iterated(|m.s|, m.rounds, f, min, max, true, o), s, m.fuel) {
      YieldsGreedy(m, pc, IGreedy(Len(a) + 1, min, max, n), k, stack, o, s);
    }
  }
}
