/** The whole program: the search over start positions, and what it returns. */
module RegexSearch {
  import opened Basics
  import opened RegexSyntax
  import opened RegexOutcomes
  import opened RegexLanguage
  import opened RegexCode
  import opened RegexGen
  import opened RegexVM
  import opened RegexYields
  import opened RegexQuant
  import opened RegexGreedy
  import opened RegexSim

  // ----- Groups leave the slots of lower groups alone -----

  ghost predicate SameBelow(n: nat, a: seq<int>, b: seq<int>) {
    |a| == |b| && forall j :: 0 <= j < n && j < |a| ==> a[j] == b[j]
  }

  ghost predicate Keeps(n: nat, caps: seq<int>, outs: seq<Out>) {
    forall k :: 0 <= k < |outs| ==> SameBelow(n, caps, outs[k].caps)
  }

  ghost predicate KeepsBelow(n: nat, f: Body) {
    forall o: Out :: Keeps(n, o.caps, f(o))
  }

  lemma {:induction false} SemKeeps(n: nat, len: nat, t: Task, o: Out)
    requires KeepsBelow(n, t.f)
    ensures Keeps(n, o.caps, Sem(len, t, o))
    decreases Rank(len, t), 0
  {
    var outs := t.f(o);
    assert Keeps(n, o.caps, outs);
    match t
    case Once(_) =>
    case Repeat(f, k) => if k > 0 { SemAllKeeps(n, len, Repeat(f, k - 1), outs, o.caps); }
    case UpTo(f, k, greedy) => if k > 0 { SemAllKeeps(n, len, UpTo(f, k - 1, greedy), outs, o.caps); }
    case Loop(f, from) => if from < o.pos <= len { SemAllKeeps(n, len, Loop(f, o.pos), outs, o.caps); }
    case Lazy(f, k) => if k > 0 { SemAllKeeps(n, len, Lazy(f, k - 1), outs, o.caps); }
  }

  lemma {:induction false} SemAllKeeps(n: nat, len: nat, t: Task, outs: seq<Out>, caps: seq<int>)
    requires KeepsBelow(n, t.f) && Keeps(n, caps, outs)
    ensures Keeps(n, caps, SemAll(len, t, outs))
    decreases Rank(len, t), 1 + |outs|
  {
    if outs != [] {
      SemKeeps(n, len, t, outs[0]);
      SemAllKeeps(n, len, t, outs[1..], caps);
    }
  }

  lemma IteratedKeeps(n: nat, len: nat, rounds: nat, f: Body, min: nat, max: nat, greedy: bool, o: Out)
    requires KeepsBelow(n, f)
    ensures Keeps(n, o.caps, Iterated(len, rounds, f, min, max, greedy, o))
  {
    var base := Sem(len, Repeat(f, min), o);
    SemKeeps(n, len, Repeat(f, min), o);
    SemAllKeeps(n, len, Unbounded(f, rounds, greedy), base, o.caps);
    if max > min { SemAllKeeps(n, len, UpTo(f, max - min, greedy), base, o.caps); }
  }

  lemma {:induction false} CloseKeeps(n: nat, cc: nat, outs: seq<Out>, caps: seq<int>)
    requires n <= 2 * cc && Keeps(n, caps, outs)
    ensures Keeps(n, caps, CloseAll(cc, outs))
    decreases |outs|
  {
    if outs != [] { CloseKeeps(n, cc, outs[1..], caps); }
  }

  lemma {:induction false} OutcomesKeep(s: seq<byte>, rounds: nat, r: Re, cc: nat, o: Out)
    ensures Keeps(2 * cc, o.caps, Outcomes(s, rounds, r, cc, o))
    decreases r, 0
  {
    hide Outcomes, Iterated;
    match r
    case Cat(a, b) =>
      OutcomesKeep(s, rounds, a, cc, o);
      MatcherKeeps(s, rounds, b, cc + Groups(a), 2 * cc);
      SemAllKeeps(2 * cc, |s|, Once(Matcher(s, rounds, b, cc + Groups(a))), Outcomes(s, rounds, a, cc, o), o.caps);
      CatUnfold(s, rounds, a, b, cc, o);
    case Alt(a, b) =>
      OutcomesKeep(s, rounds, a, cc, o);
      OutcomesKeep(s, rounds, b, cc + Groups(a), o);
      AltUnfold(s, rounds, a, b, cc, o);
    case Group(b) =>
      var o1 := o.(caps := SetCap(o.caps, 2 * cc, o.pos));
      OutcomesKeep(s, rounds, b, cc + 1, o1);
      CloseKeeps(2 * cc, cc, Outcomes(s, rounds, b, cc + 1, o1), o.caps);
      GroupUnfold(s, rounds, b, cc, o);
    case Look(negated, b) =>
      OutcomesKeep(s, rounds, b, cc, o);
      LookUnfold(s, rounds, negated, b, cc, o);
    case Quant(b, min, max, greedy) =>
      MatcherKeeps(s, rounds, b, cc, 2 * cc);
      var o1 := Enter(min, Groups(b), cc, o);
      IteratedKeeps(2 * cc, |s|, rounds, Matcher(s, rounds, b, cc), min, max, greedy, o1);
      QuantUnfold(s, rounds, b, min, max, greedy, cc, o);
    case _ => UnitKeeps(s, rounds, r, cc, o);
  }

  lemma UnitKeeps(s: seq<byte>, rounds: nat, r: Re, cc: nat, o: Out)
    requires IsUnit(r)
    ensures Keeps(2 * cc, o.caps, Outcomes(s, rounds, r, cc, o))
  {
  }

  lemma MatcherKeeps(s: seq<byte>, rounds: nat, r: Re, cc: nat, n: nat)
    requires n <= 2 * cc
    ensures KeepsBelow(n, Matcher(s, rounds, r, cc))
    decreases r, 1
  {
    hide Outcomes;
    forall o: Out ensures Keeps(n, o.caps, Matcher(s, rounds, r, cc)(o)) {
      OutcomesKeep(s, rounds, r, cc, o);
    }
  }

  // ----- The search -----

  function NullCaps(groups: nat): seq<int> {
    seq(2 * groups + 2, _ => -1)
  }

  /** The captures of the first outcome from the first position that has one. */
  function Search(s: seq<byte>, rounds: nat, r: Re, i: nat): Option<seq<int>>
    requires i <= |s|
    decreases |s| - i
  {
    var outs := Outcomes(s, rounds, Group(r), 0, Out(i, NullCaps(Groups(r))));
    if outs != [] then Some(outs[0].caps)
    else if i < |s| then Search(s, rounds, r, i + 1)
    else None
  }

  /** What the caller of `lre_exec` can rely on. */
  ghost predicate Answer(r: Re, s: seq<byte>, from: int, result: Option<seq<int>>) {
    match result
    case None => forall i :: from <= i <= |s| ==> !Starts(Language(r, s), i)
    case Some(caps) =>
      |caps| == 2 * Groups(r) + 2 && from <= caps[0] <= |s| &&
      Matches(r, s, caps[0], caps[1]) &&
      forall i :: from <= i < caps[0] ==> !Starts(Language(r, s), i)
  }

  /** The outcomes of the whole pattern as group 0. */
  lemma FirstOutcome(s: seq<byte>, rounds: nat, r: Re, i: nat)
    requires i <= |s| < rounds && WellFormed(r)
    ensures var outs := Outcomes(s, rounds, Group(r), 0, Out(i, NullCaps(Groups(r))));
            (outs == [] <==> !Starts(Language(r, s), i)) &&
            (outs != [] ==> var caps := outs[0].caps;
                            |caps| == 2 * Groups(r) + 2 && caps[0] == i && Matches(r, s, i, caps[1]))
  {
    hide Outcomes, Matches;
    var o := Out(i, NullCaps(Groups(r)));
    var o1 := o.(caps := SetCap(o.caps, 0, i));
    var inner := Outcomes(s, rounds, r, 1, o1);
    GroupUnfold(s, rounds, r, 0, o);
    OutcomesExact(s, rounds, r, 1, o1);
    OutcomesBounded(s, rounds, r, 1, o1);
    OutcomesKeep(s, rounds, r, 1, o1);
    CloseAllBounded(|s|, 0, inner, i, |o.caps|);
    if inner != [] {
      assert inner[0].pos in Positions(inner);
      assert Language(r, s)(i, inner[0].pos);
      assert SameBelow(2, o1.caps, inner[0].caps);
    } else {
      assert forall j :: !Language(r, s)(i, j);
    }
  }

  /** The search finds the leftmost match if there is one. */
  lemma {:induction false} SearchAnswers(s: seq<byte>, rounds: nat, r: Re, i: nat)
    requires i <= |s| < rounds && WellFormed(r)
    ensures Answer(r, s, i, Search(s, rounds, r, i))
    decreases |s| - i
  {
    hide Outcomes, Language, Matches;
    FirstOutcome(s, rounds, r, i);
    if Outcomes(s, rounds, Group(r), 0, Out(i, NullCaps(Groups(r)))) == [] && i < |s| {
      SearchAnswers(s, rounds, r, i + 1);
    }
  }

  // ----- The program -----

  lemma SearchLayout(fetch: Fetch, r: Re)
    requires CodeAt(fetch, 0, Program(r))
    ensures fetch(0) == Some(ISplit(false, 6)) && fetch(5) == Some(IAny) && fetch(6) == Some(IGoto(-11))
    ensures CodeAt(fetch, 11, Gen(Group(r), 0)) && fetch(11 + Len(Gen(Group(r), 0))) == Some(IMatch)
    ensures Len(Program(r)) == Len(Gen(Group(r), 0)) + 12
  {
    hide CodeAt, Len, Gen, GroupCode;
    var body := GroupCode(0, Gen(r, 1));
    GroupGen(r, 0);
    CodeAtConcat(fetch, 0, SearchLoop(), body + [IMatch]);
    BytesConcat(SearchLoop(), body + [IMatch]);
    SearchLoopLayout(fetch);
    UnitLayout(fetch, 11, body, IMatch);
  }

  /** A match found above the saved state of the search ends the run. */
  lemma MatchEnds(m: Machine, pc: int, o: Out, u: Saved, f: Frame)
    requires m.fetch(pc) == Some(IMatch) && f.kind == SplitState && Above(u, Push(f, Nil))
    ensures Reaches(m, Run(pc, o.pos, [], o.caps, u), Done(Some(o.caps)))
  {
    hide Reaches;
    var t := Push(f, Nil);
    var last := Unwind(o.caps, Nil);
    ReachSelf(m, Done(Some(o.caps)));
    ReachStep(m, last, Done(Some(o.caps)));
    ReachStep(m, Unwind(o.caps, t), Done(Some(o.caps)));
    UnwindAbove(m, o.caps, u, t);
    ReachTrans(m, Unwind(o.caps, u), Unwind(o.caps, t), Done(Some(o.caps)));
    ReachStep(m, Run(pc, o.pos, [], o.caps, u), Done(Some(o.caps)));
  }

  /** Without a match the search moves on by one character, or ends. */
  lemma NextStart(m: Machine, i: nat, caps: seq<int>, f: Frame)
    requires m.fetch(5) == Some(IAny) && m.fetch(6) == Some(IGoto(-11)) && i <= |m.s|
    requires f == Frame(SplitState, 5, i, [], caps)
    ensures Reaches(m, Backtrack(Push(f, Nil)), if i < |m.s| then Run(0, i + 1, [], caps, Nil) else Done(None))
  {
    hide Reaches;
    var c, d := Run(5, i, [], caps, Nil), if i < |m.s| then Run(0, i + 1, [], caps, Nil) else Done(None);
    ReachSelf(m, d);
    if i < |m.s| {
      ReachStep(m, Run(6, i + 1, [], caps, Nil), d);
    } else {
      ReachStep(m, Backtrack(Nil), d);
    }
    ReachStep(m, c, d);
    ReachStep(m, Backtrack(Push(f, Nil)), d);
  }

  /** The run halts with the result of the search, unless it goes on for longer than the
      fuel of the machine lasts. */
  ghost predicate Ends(m: Machine, c: Config, result: Option<seq<int>>) {
    Outlasts(m, c, m.fuel) || Reaches(m, c, Done(result))
  }

  lemma EndsVia(m: Machine, c: Config, d: Config, result: Option<seq<int>>)
    requires Reaches(m, c, d) && Ends(m, d, result)
    ensures Ends(m, c, result)
  {
    if Outlasts(m, d, m.fuel) {
      var n: nat :| Steps(m, c, n) == d;
      OutlastsLess(m, d, Less(m.fuel, n), m.fuel);
      OutlastsVia(m, c, n, m.fuel);
    } else {
      ReachTrans(m, c, d, Done(result));
    }
  }

  /** Every run of the compiled program ends with the result of the search. */
  lemma {:induction false} RunSearches(m: Machine, r: Re, i: nat)
    requires CodeAt(m.fetch, 0, Program(r)) && Sized(m) && InTime(m) && WellFormed(r) && i <= |m.s|
    requires m.fuel == None ==> LazyLoopsAdvance(r, m.s)
    ensures Ends(m, Run(0, i, [], NullCaps(Groups(r)), Nil), Search(m.s, m.rounds, r, i))
    decreases |m.s| - i
  {
    hide Reaches, Outcomes, Gen, Program, CodeAt, Step, Ends, Visits, Sized, LazyLoopsAdvance;
    var o := Out(i, NullCaps(Groups(r)));
    var c, f := Run(0, i, [], o.caps, Nil), Frame(SplitState, 5, i, [], o.caps);
    var t, outs, end := Push(f, Nil), Outcomes(m.s, m.rounds, Group(r), 0, o), 11 + Len(Gen(Group(r), 0));
    var found, start := Search(m.s, m.rounds, r, i), Run(11, i, [], o.caps, t);
    SearchLayout(m.fetch, r);
    GroupRunnable(m, r);
    SimOutcomes(m, Group(r), 0, 11, |o.caps|, o, []);
    SearchSplit(m, o, t);
    if outs == [] {
      NextStart(m, i, o.caps, f);
      var next := if i < |m.s| then Run(0, i + 1, [], o.caps, Nil) else Done(None);
      if i < |m.s| { RunSearches(m, r, i + 1); } else { EndsHere(m, None); }
      EndsVia(m, Backtrack(t), next, found);
    } else {
      forall u | Above(u, t) ensures Reaches(m, Run(end, outs[0].pos, [], outs[0].caps, u), Done(found)) {
        MatchEnds(m, end, outs[0], u, f);
      }
    }
    FirstVisit(m, start, end, outs, t, found);
    StartSearch(m, c, start, found);
  }

  lemma GroupRunnable(m: Machine, r: Re)
    requires Sized(m) && InTime(m) && WellFormed(r) && (m.fuel == None ==> LazyLoopsAdvance(r, m.s))
    ensures Runnable(m, Group(r), 0, 2 * Groups(r) + 2)
  {
  }

  lemma EndsHere(m: Machine, result: Option<seq<int>>)
    ensures Ends(m, Done(result), result)
  {
    ReachSelf(m, Done(result));
  }

  lemma StartSearch(m: Machine, c: Config, d: Config, result: Option<seq<int>>)
    requires Step(m, c) == d && Ends(m, d, result)
    ensures Ends(m, c, result)
  {
    hide Ends, Step;
    ReachSelf(m, d);
    ReachStep(m, c, d);
    EndsVia(m, c, d, result);
  }

  /** Only the first outcome counts. */
  lemma FirstVisit(m: Machine, c: Config, pc: int, outs: seq<Out>, t: Saved, result: Option<seq<int>>)
    requires Visits(m, c, pc, [], outs, t, m.fuel)
    requires outs == [] ==> Ends(m, Backtrack(t), result)
    requires outs != [] ==> forall u :: Above(u, t) ==> Reaches(m, Run(pc, outs[0].pos, [], outs[0].caps, u), Done(result))
    ensures Ends(m, c, result)
  {
    hide Reaches, Outlasts, Steps;
    if Outlasts(m, c, m.fuel) {
    } else if outs == [] {
      EndsVia(m, c, Backtrack(t), result);
    } else {
      var u, n: nat :| Arrives(m, c, n, pc, [], outs[0], u, t) && Visits(m, Backtrack(u), pc, [], outs[1..], t, Less(m.fuel, n + 1));
      ArrivedAt(m, c, n, pc, [], outs[0], u, t);
      ReachTrans(m, c, Run(pc, outs[0].pos, [], outs[0].caps, u), Done(result));
    }
  }

  lemma SearchSplit(m: Machine, o: Out, t: Saved)
    requires m.fetch(0) == Some(ISplit(false, 6)) && t == Push(Frame(SplitState, 5, o.pos, [], o.caps), Nil)
    ensures Step(m, Run(0, o.pos, [], o.caps, Nil)) == Run(11, o.pos, [], o.caps, t)
  {
  }
}
