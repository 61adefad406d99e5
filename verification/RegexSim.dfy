/** The code of a pattern, run anywhere in a program, visits exactly the ordered
    outcomes of the pattern. */
module RegexSim {
  import opened Basics
  import opened RegexSyntax
  import opened RegexOutcomes
  import opened RegexLanguage
  import opened RegexCode
  import opened RegexGen
  import opened RegexVM
  import opened RegexYields
  import opened RegexLoops
  import opened RegexQuant
  import opened RegexAdvance
  import opened RegexGreedy

  /** No match of the pattern anywhere in `s` is empty. */
  ghost predicate NeverEmpty(r: Re, s: seq<byte>) {
    forall i :: 0 <= i <= |s| ==> !Language(r, s)(i, i)
  }

  /** Unbounded lazy loops get no zero-advance check from the compiler, so for a run
      over `s` to halt, their bodies must not match the empty string there. */
  ghost predicate LazyLoopsAdvance(r: Re, s: seq<byte>) {
    match r
    case Cat(a, b) => LazyLoopsAdvance(a, s) && LazyLoopsAdvance(b, s)
    case Alt(a, b) => LazyLoopsAdvance(a, s) && LazyLoopsAdvance(b, s)
    case Group(b) => LazyLoopsAdvance(b, s)
    case Look(_, b) => LazyLoopsAdvance(b, s)
    case Quant(b, _, max, greedy) => max == 0 || (LazyLoopsAdvance(b, s) && (max == INFINITE && !greedy ==> NeverEmpty(b, s)))
    case _ => true
  }

  /** What the theorems ask of a pattern and of the machine that runs its code. */
  ghost predicate Runnable(m: Machine, r: Re, cc: nat, slots: nat) {
    Sized(m) && InTime(m) && WellFormed(r) && (m.fuel == None ==> LazyLoopsAdvance(r, m.s)) && 2 * (cc + Groups(r)) <= slots
  }

  lemma NeverEmptySteady(s: seq<byte>, rounds: nat, r: Re, cc: nat)
    requires WellFormed(r) && NeverEmpty(r, s) && |s| < rounds
    ensures Steady(|s|, Matcher(s, rounds, r, cc), true)
  {
    hide Outcomes, Language;
    forall o | Valid(|s|, o) ensures Bounded(|s|, o.pos + 1, |o.caps|, Matcher(s, rounds, r, cc)(o)) {
      var outs := Outcomes(s, rounds, r, cc, o);
      OutcomesExact(s, rounds, r, cc, o);
      OutcomesBounded(s, rounds, r, cc, o);
      forall k | 0 <= k < |outs| ensures o.pos + 1 <= outs[k].pos {
        assert outs[k].pos in Positions(outs);
      }
    }
  }

  /** The check the compiler makes for greedy loops would be enough for lazy ones: a body it
      passes never matches the empty string, on any line. */
  lemma AdvanceNeverEmpty(r: Re, s: seq<byte>, cc: nat)
    requires WellFormed(r) && CheckAdvance(Gen(r, cc)) == 1
    ensures NeverEmpty(r, s)
  {
    hide Outcomes, Language, Gen, ScanAdvance;
    var rounds := |s| + 1;
    forall i | 0 <= i <= |s| ensures !Language(r, s)(i, i) {
      var o := Out(i, []);
      var outs := Outcomes(s, rounds, r, cc, o);
      OutcomesExact(s, rounds, r, cc, o);
      CheckAdvanceSound(s, rounds, r, cc, o);
      assert i !in Positions(outs);
    }
  }

  // ----- One construct at a time -----

  lemma SimTest(m: Machine, pc: int, i: Instr, o: Out, stack: seq<int>)
    requires m.fetch(pc) == Some(i) && (IsTest(i) || IsAssertion(i))
    ensures Always(m, pc, stack, o, pc + Size(i), stack, StraightOuts(m.s, [i], o))
  {
    hide Visits, Accepts, Holds, Straight;
    UnitStraight(m.s, i, o.pos);
    var next, outs := pc + Size(i), StraightOuts(m.s, [i], o);
    if outs == [] {
      forall s ensures Visits(m, Run(pc, o.pos, stack, o.caps, s), next, stack, [], s, m.fuel) {
        YieldsNothing(m, next, stack, s);
        YieldsStep(m, Run(pc, o.pos, stack, o.caps, s), next, stack, [], s);
      }
    } else {
      AlwaysHere(m, next, stack, outs[0]);
      AlwaysStep(m, pc, stack, o, next, stack, outs[0], next, stack, outs);
    }
  }

  lemma SimUnit(m: Machine, r: Re, cc: nat, pc: int, o: Out, stack: seq<int>)
    requires WellFormed(r) && IsUnit(r) && CodeAt(m.fetch, pc, Gen(r, cc))
    ensures Always(m, pc, stack, o, pc + Len(Gen(r, cc)), stack, Outcomes(m.s, m.rounds, r, cc, o))
  {
    hide Always, Outcomes, StraightOuts;
    UnitOutcomes(m.s, m.rounds, r, cc, o);
    if r.Empty? {
      NothingStraight(m.s, o);
      AlwaysHere(m, pc, stack, o);
    } else {
      var i := Gen(r, cc)[0];
      assert Gen(r, cc) == [i];
      UnitAt(m.fetch, pc, i);
      SimTest(m, pc, i, o, stack);
    }
  }

  lemma SimSave(m: Machine, pc: int, end: bool, g: nat, o: Out, stack: seq<int>, pcEnd: int, outs: seq<Out>)
    requires m.fetch(pc) == Some(ISave(end, g)) && 2 * g + 1 < |o.caps|
    requires Always(m, pc + 2, stack, o.(caps := SetCap(o.caps, if end then 2 * g + 1 else 2 * g, o.pos)), pcEnd, stack, outs)
    ensures Always(m, pc, stack, o, pcEnd, stack, outs)
  {
    hide Visits, SetCap;
    AlwaysStep(m, pc, stack, o, pc + 2, stack, o.(caps := SetCap(o.caps, if end then 2 * g + 1 else 2 * g, o.pos)), pcEnd, stack, outs);
  }

  lemma SimGroup(m: Machine, pc: int, a: Code, g: nat, o: Out, stack: seq<int>, outs: seq<Out>, o1: Out)
    requires CodeAt(m.fetch, pc, GroupCode(g, a)) && 2 * g + 1 < |o.caps| && Valid(|m.s|, o)
    requires o1 == o.(caps := SetCap(o.caps, 2 * g, o.pos))
    requires Always(m, pc + 2, stack, o1, pc + 2 + Len(a), stack, outs) && Bounded(|m.s|, o.pos, |o.caps|, outs)
    ensures Always(m, pc, stack, o, pc + Len(GroupCode(g, a)), stack, CloseAll(g, outs))
  {
    hide Always, CodeAt, Len, SetCap;
    CodeAtHead(m.fetch, pc, ISave(false, g), a + [ISave(true, g)]);
    UnitLayout(m.fetch, pc + 2, a, ISave(true, g));
    CloseAllBounded(|m.s|, g, outs, o.pos, |o.caps|);
    var closed, mid, end := CloseAll(g, outs), pc + 2 + Len(a), pc + 4 + Len(a);
    forall k | 0 <= k < |outs| ensures Always(m, mid, stack, outs[k], end, stack, [closed[k]]) {
      AlwaysHere(m, end, stack, closed[k]);
      SimSave(m, mid, true, g, outs[k], stack, end, [closed[k]]);
    }
    AlwaysMove(m, pc + 2, stack, o1, mid, stack, outs, end, stack, closed);
    SimSave(m, pc, false, g, o, stack, end, closed);
  }

  lemma AltLayout(fetch: Fetch, pc: int, a: Code, b: Code)
    ensures Len(AltCode(a, b)) == Len(a) + Len(b) + 10
    ensures CodeAt(fetch, pc, AltCode(a, b)) ==>
      fetch(pc) == Some(ISplit(true, Len(a) + 5)) && CodeAt(fetch, pc + 5, a) &&
      fetch(pc + 5 + Len(a)) == Some(IGoto(Len(b))) && CodeAt(fetch, pc + 10 + Len(a), b)
  {
    hide CodeAt, Len;
    var rest := [IGoto(Len(b))] + b;
    CodeAtHead(fetch, pc, ISplit(true, Len(a) + 5), a + rest);
    CodeAtConcat(fetch, pc + 5, a, rest);
    BytesConcat(a, rest);
    CodeAtHead(fetch, pc + 5 + Len(a), IGoto(Len(b)), b);
  }

  lemma SimAlt(m: Machine, pc: int, a: Code, b: Code, o: Out, stack: seq<int>, left: seq<Out>, right: seq<Out>)
    requires CodeAt(m.fetch, pc, AltCode(a, b))
    requires Always(m, pc + 5, stack, o, pc + 5 + Len(a), stack, left)
    requires Always(m, pc + 10 + Len(a), stack, o, pc + 10 + Len(a) + Len(b), stack, right)
    ensures Always(m, pc, stack, o, pc + Len(AltCode(a, b)), stack, left + right)
  {
    hide Always, CodeAt, Len, AltCode;
    AltLayout(m.fetch, pc, a, b);
    var end := pc + 10 + Len(a) + Len(b);
    forall k | 0 <= k < |left| ensures Always(m, pc + 5 + Len(a), stack, left[k], end, stack, [left[k]]) {
      AlwaysHere(m, end, stack, left[k]);
      GotoStep(m, pc + 5 + Len(a), Len(b), stack, left[k], end, stack, [left[k]]);
    }
    AlwaysMove(m, pc + 5, stack, o, pc + 5 + Len(a), stack, left, end, stack, left);
    AlwaysSplit(m, pc, true, Len(a) + 5, o, stack, end, stack, left, right);
  }

  /** A lookahead runs its body above its own saved state; a match there drops
      everything above that state. */
  lemma SimLook(m: Machine, pc: int, negated: bool, a: Code, o: Out, stack: seq<int>, outs: seq<Out>)
    requires CodeAt(m.fetch, pc, LookCode(negated, a)) && Always(m, pc + 5, stack, o, pc + 5 + Len(a), stack, outs)
    ensures Always(m, pc, stack, o, pc + Len(LookCode(negated, a)), stack, LookOuts(negated, o, outs))
  {
    hide CodeAt, Len, Visits;
    CodeAtHead(m.fetch, pc, ILook(negated, Len(a) + 1), a + [IMatch]);
    UnitLayout(m.fetch, pc + 5, a, IMatch);
    forall s ensures Visits(m, Run(pc, o.pos, stack, o.caps, s), pc + 6 + Len(a), stack, LookOuts(negated, o, outs), s, m.fuel) {
      YieldsLook(m, pc, negated, Len(a), o, stack, outs, s);
    }
  }

  lemma YieldsLook(m: Machine, pc: int, negated: bool, size: nat, o: Out, stack: seq<int>, outs: seq<Out>, s: Saved)
    requires m.fetch(pc) == Some(ILook(negated, size + 1)) && m.fetch(pc + 5 + size) == Some(IMatch)
    requires Always(m, pc + 5, stack, o, pc + 5 + size, stack, outs)
    ensures Yields(m, Run(pc, o.pos, stack, o.caps, s), pc + 6 + size, stack, LookOuts(negated, o, outs), s)
  {
    hide Step, Reaches, Outlasts, Steps;
    var c, end := Run(pc, o.pos, stack, o.caps, s), pc + 6 + size;
    var t := Push(Frame(LookState(negated), end, o.pos, stack, o.caps), s);
    var body := Run(pc + 5, o.pos, stack, o.caps, t);
    LookStep(m, pc, negated, size, o, stack, s);
    assert Yields(m, body, pc + 5 + size, stack, outs, t);
    if Outlasts(m, body, m.fuel) {
    } else if outs == [] {
      LookFails(m, body, negated, end, o, stack, s, t);
    } else {
      var u, n: nat :| Arrives(m, body, n, pc + 5 + size, stack, outs[0], u, t) && Visits(m, Backtrack(u), pc + 5 + size, stack, outs[1..], t, Less(m.fuel, n + 1));
      ArrivedAt(m, body, n, pc + 5 + size, stack, outs[0], u, t);
      LookMatches(m, body, pc + 5 + size, negated, end, o, stack, outs[0], u, s, t);
    }
    YieldsStep(m, c, end, stack, LookOuts(negated, o, outs), s);
  }

  lemma ArrivedAt(m: Machine, c: Config, n: nat, pc: int, stack: seq<int>, o: Out, t: Saved, s: Saved)
    requires Arrives(m, c, n, pc, stack, o, t, s)
    ensures Above(t, s) && Reaches(m, c, Run(pc, o.pos, stack, o.caps, t))
  {
  }

  lemma LookStep(m: Machine, pc: int, negated: bool, size: nat, o: Out, stack: seq<int>, s: Saved)
    requires m.fetch(pc) == Some(ILook(negated, size + 1))
    ensures Step(m, Run(pc, o.pos, stack, o.caps, s)) ==
            Run(pc + 5, o.pos, stack, o.caps, Push(Frame(LookState(negated), pc + 6 + size, o.pos, stack, o.caps), s))
  {
  }

  lemma LookFails(m: Machine, c: Config, negated: bool, end: int, o: Out, stack: seq<int>, s: Saved, t: Saved)
    requires Reaches(m, c, Backtrack(t)) && t == Push(Frame(LookState(negated), end, o.pos, stack, o.caps), s)
    ensures Yields(m, c, end, stack, if negated then [o] else [], s)
  {
    hide Visits, Reaches;
    var outs := if negated then [o] else [];
    if negated { YieldsHere(m, end, stack, o, s); } else { YieldsNothing(m, end, stack, s); }
    YieldsStep(m, Backtrack(t), end, stack, outs, s);
    YieldsPrefix(m, c, Backtrack(t), end, stack, outs, s);
  }

  lemma LookMatches(m: Machine, c: Config, pc: int, negated: bool, end: int, o: Out, stack: seq<int>, o1: Out, u: Saved, s: Saved, t: Saved)
    requires m.fetch(pc) == Some(IMatch) && Above(u, t) && Reaches(m, c, Run(pc, o1.pos, stack, o1.caps, u))
    requires t == Push(Frame(LookState(negated), end, o.pos, stack, o.caps), s)
    ensures Yields(m, c, end, stack, if negated then [] else [Out(o.pos, o1.caps)], s)
  {
    hide Visits, Reaches;
    var outs := if negated then [] else [Out(o.pos, o1.caps)];
    if negated { YieldsNothing(m, end, stack, s); } else { YieldsHere(m, end, stack, Out(o.pos, o1.caps), s); }
    YieldsStep(m, Unwind(o1.caps, t), end, stack, outs, s);
    UnwindAbove(m, o1.caps, u, t);
    YieldsPrefix(m, Unwind(o1.caps, u), Unwind(o1.caps, t), end, stack, outs, s);
    var d := Run(pc, o1.pos, stack, o1.caps, u);
    YieldsStep(m, d, end, stack, outs, s);
    YieldsPrefix(m, c, d, end, stack, outs, s);
  }

  // ----- Whole patterns -----

  /** Straight-line code holds no groups. */
  lemma LookScan(negated: bool, a: Code)
    ensures SimpleLength(LookCode(negated, a)) == -1
  {
    HeadScan(ILook(negated, Len(a) + 1), a + [IMatch]);
  }

  lemma {:induction false} SimpleNoGroups(r: Re, cc: nat)
    requires WellFormed(r) && SimpleLength(Gen(r, cc)) >= 0
    ensures Groups(r) == 0
    decreases r
  {
    hide SimpleLength, QuantCode, AltCode, GroupCode, LookCode, ClassCode;
    match r
    case Cat(a, b) =>
      ScanConcat(Gen(a, cc), Gen(b, cc + Groups(a)));
      SimpleNoGroups(a, cc);
      SimpleNoGroups(b, cc + Groups(a));
    case Alt(a, b) => AltScan(Gen(a, cc), Gen(b, cc + Groups(a)));
    case Group(b) => GroupScan(Gen(b, cc + 1), cc);
    case Look(negated, b) => LookScan(negated, Gen(b, cc));
    case Quant(b, min, max, greedy) =>
      StraightQuant(Gen(b, cc), cc, Groups(b), min, max, greedy);
      if max == 1 { SimpleNoGroups(b, cc); }
    case _ =>
  }

  /** The code of every pattern simulates it. */
  lemma {:induction false} SimOutcomes(m: Machine, r: Re, cc: nat, pc: int, slots: nat, o: Out, stack: seq<int>)
    requires Runnable(m, r, cc, slots) && CodeAt(m.fetch, pc, Gen(r, cc)) && Valid(|m.s|, o) && |o.caps| == slots
    ensures Always(m, pc, stack, o, pc + Len(Gen(r, cc)), stack, Outcomes(m.s, m.rounds, r, cc, o))
    decreases r, 1
  {
    hide Always, Outcomes, CodeAt, Len, Gen;
    match r
    case Cat(a, b) => SimCat(m, a, b, cc, pc, slots, o, stack);
    case Alt(a, b) => SimAltRe(m, a, b, cc, pc, slots, o, stack);
    case Group(b) => SimGroupRe(m, b, cc, pc, slots, o, stack);
    case Look(negated, b) => SimLookRe(m, negated, b, cc, pc, slots, o, stack);
    case Quant(b, min, max, greedy) => SimQuant(m, b, min, max, greedy, cc, pc, slots, o, stack);
    case _ => SimUnit(m, r, cc, pc, o, stack);
  }

  lemma SimAltRe(m: Machine, a: Re, b: Re, cc: nat, pc: int, slots: nat, o: Out, stack: seq<int>)
    requires Runnable(m, Alt(a, b), cc, slots) && CodeAt(m.fetch, pc, Gen(Alt(a, b), cc)) && Valid(|m.s|, o) && |o.caps| == slots
    ensures Always(m, pc, stack, o, pc + Len(Gen(Alt(a, b), cc)), stack, Outcomes(m.s, m.rounds, Alt(a, b), cc, o))
    decreases Alt(a, b), 0
  {
    hide Always, Outcomes, CodeAt, Len, Gen, AltCode;
    AltGen(a, b, cc);
    var fa, fb, cb := Gen(a, cc), Gen(b, cc + Groups(a)), cc + Groups(a);
    AltLayout(m.fetch, pc, fa, fb);
    SimOutcomes(m, a, cc, pc + 5, slots, o, stack);
    SimOutcomes(m, b, cb, pc + 10 + Len(fa), slots, o, stack);
    SimAlt(m, pc, fa, fb, o, stack, Outcomes(m.s, m.rounds, a, cc, o), Outcomes(m.s, m.rounds, b, cb, o));
    AltUnfold(m.s, m.rounds, a, b, cc, o);
  }

  lemma SimGroupRe(m: Machine, b: Re, cc: nat, pc: int, slots: nat, o: Out, stack: seq<int>)
    requires Runnable(m, Group(b), cc, slots) && CodeAt(m.fetch, pc, Gen(Group(b), cc)) && Valid(|m.s|, o) && |o.caps| == slots
    ensures Always(m, pc, stack, o, pc + Len(Gen(Group(b), cc)), stack, Outcomes(m.s, m.rounds, Group(b), cc, o))
    decreases Group(b), 0
  {
    hide Always, Outcomes, CodeAt, Len, Gen;
    GroupGen(b, cc);
    var a, o1 := Gen(b, cc + 1), o.(caps := SetCap(o.caps, 2 * cc, o.pos));
    CodeAtHead(m.fetch, pc, ISave(false, cc), a + [ISave(true, cc)]);
    UnitLayout(m.fetch, pc + 2, a, ISave(true, cc));
    SimOutcomes(m, b, cc + 1, pc + 2, slots, o1, stack);
    OutcomesBounded(m.s, m.rounds, b, cc + 1, o1);
    SimGroup(m, pc, a, cc, o, stack, Outcomes(m.s, m.rounds, b, cc + 1, o1), o1);
    GroupUnfold(m.s, m.rounds, b, cc, o);
  }

  lemma SimLookRe(m: Machine, negated: bool, b: Re, cc: nat, pc: int, slots: nat, o: Out, stack: seq<int>)
    requires Runnable(m, Look(negated, b), cc, slots) && CodeAt(m.fetch, pc, Gen(Look(negated, b), cc)) && Valid(|m.s|, o) && |o.caps| == slots
    ensures Always(m, pc, stack, o, pc + Len(Gen(Look(negated, b), cc)), stack, Outcomes(m.s, m.rounds, Look(negated, b), cc, o))
    decreases Look(negated, b), 0
  {
    hide Always, Outcomes, CodeAt, Len, QuantCode, GroupCode, ClassCode, AltCode;
    var a := Gen(b, cc);
    CodeAtHead(m.fetch, pc, ILook(negated, Len(a) + 1), a + [IMatch]);
    UnitLayout(m.fetch, pc + 5, a, IMatch);
    SimOutcomes(m, b, cc, pc + 5, slots, o, stack);
    SimLook(m, pc, negated, a, o, stack, Outcomes(m.s, m.rounds, b, cc, o));
    LookUnfold(m.s, m.rounds, negated, b, cc, o);
  }

  lemma RunnableCat(m: Machine, a: Re, b: Re, cc: nat, slots: nat)
    requires Runnable(m, Cat(a, b), cc, slots)
    ensures Runnable(m, a, cc, slots) && Runnable(m, b, cc + Groups(a), slots)
  {
  }

  lemma SimCat(m: Machine, a: Re, b: Re, cc: nat, pc: int, slots: nat, o: Out, stack: seq<int>)
    requires Runnable(m, Cat(a, b), cc, slots) && CodeAt(m.fetch, pc, Gen(Cat(a, b), cc)) && Valid(|m.s|, o) && |o.caps| == slots
    ensures Always(m, pc, stack, o, pc + Len(Gen(Cat(a, b), cc)), stack, Outcomes(m.s, m.rounds, Cat(a, b), cc, o))
    decreases Cat(a, b), 0
  {
    hide Always, Outcomes, CodeAt, Len, SemAll, Sem, Gen, Runnable, Groups, Bounded;
    var fa, fb, cb := Gen(a, cc), Gen(b, cc + Groups(a)), cc + Groups(a);
    RunnableCat(m, a, b, cc, slots);
    CatLayout(m.fetch, a, b, cc, pc);
    SimOutcomes(m, a, cc, pc, slots, o, stack);
    OutcomesBounded(m.s, m.rounds, a, cc, o);
    var outs, t, mid := Outcomes(m.s, m.rounds, a, cc, o), Once(Matcher(m.s, m.rounds, b, cb)), pc + Len(fa);
    SimSecond(m, a, b, cb, mid, slots, o.pos, outs, stack);
    AlwaysBind(m, pc, stack, o, mid, stack, outs, mid + Len(fb), stack, t);
    CatUnfold(m.s, m.rounds, a, b, cc, o);
  }

  lemma CatLayout(fetch: Fetch, a: Re, b: Re, cc: nat, pc: int)
    ensures Len(Gen(Cat(a, b), cc)) == Len(Gen(a, cc)) + Len(Gen(b, cc + Groups(a)))
    ensures CodeAt(fetch, pc, Gen(Cat(a, b), cc)) ==>
      CodeAt(fetch, pc, Gen(a, cc)) && CodeAt(fetch, pc + Len(Gen(a, cc)), Gen(b, cc + Groups(a)))
  {
    hide CodeAt, Len, Gen;
    CatGen(a, b, cc);
    CodeAtConcat(fetch, pc, Gen(a, cc), Gen(b, cc + Groups(a)));
    BytesConcat(Gen(a, cc), Gen(b, cc + Groups(a)));
  }

  lemma SimSecond(m: Machine, a: Re, b: Re, cb: nat, mid: int, slots: nat, lo: int, outs: seq<Out>, stack: seq<int>)
    requires Runnable(m, b, cb, slots) && CodeAt(m.fetch, mid, Gen(b, cb)) && lo >= 0 && Bounded(|m.s|, lo, slots, outs)
    ensures forall k :: 0 <= k < |outs| ==>
      Always(m, mid, stack, outs[k], mid + Len(Gen(b, cb)), stack, Sem(|m.s|, Once(Matcher(m.s, m.rounds, b, cb)), outs[k]))
    decreases Cat(a, b), -1
  {
    hide Always, Outcomes, CodeAt, Len, Gen, Runnable;
    forall k | 0 <= k < |outs|
      ensures Always(m, mid, stack, outs[k], mid + Len(Gen(b, cb)), stack, Sem(|m.s|, Once(Matcher(m.s, m.rounds, b, cb)), outs[k])) {
      SimOutcomes(m, b, cb, mid, slots, outs[k], stack);
    }
  }

  /** The body of a quantifier, wherever its code has been copied to. */
  lemma SimBody(m: Machine, r: Re, cc: nat, slots: nat)
    requires Runnable(m, r, cc, slots)
    ensures CodeFor(m, Gen(r, cc), Matcher(m.s, m.rounds, r, cc), slots)
    decreases r, 2
  {
    hide Always, Outcomes, CodeAt, Len, Gen;
    forall pc | CodeAt(m.fetch, pc, Gen(r, cc)) ensures Simulates(m, pc, Len(Gen(r, cc)), Matcher(m.s, m.rounds, r, cc), slots) {
      forall o, stack | Valid(|m.s|, o) && |o.caps| == slots
        ensures Follows(m, pc, Len(Gen(r, cc)), Matcher(m.s, m.rounds, r, cc), stack, o)
      {
        SimOutcomes(m, r, cc, pc, slots, o, stack);
      }
    }
  }

  /** {0} only clears the groups of its body. */
  lemma SimNone(m: Machine, pc: int, a: Code, f: Body, cc: nat, groups: nat, greedy: bool, o: Out, stack: seq<int>)
    requires CodeAt(m.fetch, pc, QuantCode(a, cc, groups, 0, 0, greedy)) && 2 * (cc + groups) <= |o.caps|
    ensures Always(m, pc, stack, o, pc + Len(QuantCode(a, cc, groups, 0, 0, greedy)), stack,
                   Iterated(|m.s|, m.rounds, f, 0, 0, greedy, Enter(0, groups, cc, o)))
  {
    hide Always, CodeAt, Len, Iterated, ResetCode;
    var o1 := Enter(0, groups, cc, o);
    assert QuantCode(a, cc, groups, 0, 0, greedy) == ResetCode(groups, cc) + [] == ResetCode(groups, cc);
    TrivialIteration(|m.s|, m.rounds, f, 0, 0, greedy, o1);
    AlwaysHere(m, pc + Len(ResetCode(groups, cc)), stack, o1);
    ResetStep(m, pc, cc, groups, o, stack, pc + Len(ResetCode(groups, cc)), [o1]);
  }

  lemma SimQuant(m: Machine, b: Re, min: nat, max: nat, greedy: bool, cc: nat, pc: int, slots: nat, o: Out, stack: seq<int>)
    requires Runnable(m, Quant(b, min, max, greedy), cc, slots) && CodeAt(m.fetch, pc, Gen(Quant(b, min, max, greedy), cc))
    requires Valid(|m.s|, o) && |o.caps| == slots
    ensures Always(m, pc, stack, o, pc + Len(Gen(Quant(b, min, max, greedy), cc)), stack,
                   Outcomes(m.s, m.rounds, Quant(b, min, max, greedy), cc, o))
    decreases Quant(b, min, max, greedy), 0
  {
    hide Always, Outcomes, CodeAt, Len, Iterated, SimpleLength, ScanAdvance, PlainQuant, GreedyCode, Language;
    var a, f := Gen(b, cc), Matcher(m.s, m.rounds, b, cc);
    QuantUnfold(m.s, m.rounds, b, min, max, greedy, cc, o);
    if max == 0 {
      SimNone(m, pc, a, f, cc, Groups(b), greedy, o, stack);
    } else if UsesGreedy(a, max, greedy) {
      SimpleNoGroups(b, cc);
      SimGreedy(m, pc, b, cc, min, max, o, stack);
    } else {
      SimBody(m, b, cc, slots);
      MatcherSteady(m.s, m.rounds, b, cc);
      if max == INFINITE && !NeedsCheck(a, greedy) {
        if greedy { AdvanceSteady(m.s, m.rounds, b, cc); } else if m.fuel == None { NeverEmptySteady(m.s, m.rounds, b, cc); }
      }
      SimPlain(m, pc, a, f, slots, cc, Groups(b), min, max, greedy, NeedsCheck(a, greedy), o, stack);
    }
  }

  // ----- The optimised instruction against the loop it replaces -----

  lemma SimpleAdvances(s: seq<byte>, rounds: nat, r: Re, cc: nat)
    requires WellFormed(r) && SimpleLength(Gen(r, cc)) > 0
    ensures Steady(|s|, Matcher(s, rounds, r, cc), true)
  {
    hide Outcomes, Gen, Straight;
    forall o | Valid(|s|, o) ensures Bounded(|s|, o.pos + 1, |o.caps|, Matcher(s, rounds, r, cc)(o)) {
      StraightOutcomes(s, rounds, r, cc, o);
      StraightLength(s, Gen(r, cc), o.pos);
    }
  }

  /** `simple_greedy_quant` refines the split loop it replaces: from every
      configuration both hand the continuation the same outcomes in the same order. */
  lemma GreedyRefinesPlain(m: Machine, r: Re, cc: nat, min: nat, max: nat, check: bool, pc: int, pcPlain: int, o: Out, stack: seq<int>)
    returns (outs: seq<Out>)
    requires Runnable(m, r, cc, |o.caps|) && UsesGreedy(Gen(r, cc), max, true)
    requires min <= max <= INFINITE && min < INFINITE && Valid(|m.s|, o)
    requires CodeAt(m.fetch, pc, GreedyCode(Gen(r, cc), min, max))
    requires CodeAt(m.fetch, pcPlain, PlainQuant(Gen(r, cc), cc, Groups(r), min, max, true, check))
    ensures Always(m, pc, stack, o, pc + Len(GreedyCode(Gen(r, cc), min, max)), stack, outs)
    ensures Always(m, pcPlain, stack, o, pcPlain + Len(PlainQuant(Gen(r, cc), cc, Groups(r), min, max, true, check)), stack, outs)
  {
    hide Always, CodeAt, Len, Gen, Iterated, SimpleLength, PlainQuant, GreedyCode, CodeFor, Steady, Outcomes, LazyLoopsAdvance, Sized;
    outs := Iterated(|m.s|, m.rounds, Matcher(m.s, m.rounds, r, cc), min, max, true, o);
    SimGreedy(m, pc, r, cc, min, max, o, stack);
    SimpleNoGroups(r, cc);
    MatcherSteady(m.s, m.rounds, r, cc);
    SimpleAdvances(m.s, m.rounds, r, cc);
    SimBody(m, r, cc, |o.caps|);
    SimPlain(m, pcPlain, Gen(r, cc), Matcher(m.s, m.rounds, r, cc), |o.caps|, cc, Groups(r), min, max, true, check, o, stack);
  }
}
