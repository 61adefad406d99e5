/** The ordered outcomes of a pattern are exactly its language, position by position. */
module RegexLanguage {
  import opened Basics
  import opened RegexSyntax
  import opened RegexOutcomes

  ghost function Positions(outs: seq<Out>): set<int> {
    set k | 0 <= k < |outs| :: outs[k].pos
  }

  lemma PositionsConcat(a: seq<Out>, b: seq<Out>)
    ensures Positions(a + b) == Positions(a) + Positions(b)
  {
    var c := a + b;
    forall j | j in Positions(a) + Positions(b)
      ensures j in Positions(c)
    {
      if k :| 0 <= k < |a| && a[k].pos == j {
        assert c[k].pos == j;
      } else {
        var k :| 0 <= k < |b| && b[k].pos == j;
        assert c[|a| + k].pos == j;
      }
    }
    forall j | j in Positions(c)
      ensures j in Positions(a) + Positions(b)
    {
      var k :| 0 <= k < |c| && c[k].pos == j;
      if k < |a| { assert a[k].pos == j; } else { assert b[k - |a|].pos == j; }
    }
  }

  lemma SingletonPositions(o: Out)
    ensures Positions([o]) == {o.pos}
  {
    assert [o][0].pos == o.pos;
  }

  lemma ClosedPositions(len: nat, cc: nat, outs: seq<Out>, lo: int, slots: nat)
    requires Bounded(len, lo, slots, outs)
    ensures Positions(CloseAll(cc, outs)) == Positions(outs)
  {
    CloseAllBounded(len, cc, outs, lo, slots);
    var closed := CloseAll(cc, outs);
    assert forall k :: 0 <= k < |outs| ==> closed[k].pos == outs[k].pos;
  }

  // ----- Powers -----

  lemma FirstIteration(rel: Rel, n: nat, i: int, j: int) returns (k: int)
    requires Power(rel, n, i, j) && (n > 0 || i != j)
    ensures n > 0 && rel(i, k) && Power(rel, n - 1, k, j)
  {
    k :| rel(i, k) && Power(rel, n - 1, k, j);
  }

  lemma {:induction false} PowerSplit(rel: Rel, m: nat, n: nat, i: int, k: int, j: int)
    requires Power(rel, m, i, k) && Power(rel, n, k, j)
    ensures Power(rel, m + n, i, j)
    decreases m
  {
    if m > 0 {
      var h := FirstIteration(rel, m, i, k);
      PowerSplit(rel, m - 1, n, h, k, j);
    }
  }

  lemma {:induction false} PowerUnsplit(rel: Rel, m: nat, n: nat, i: int, j: int) returns (k: int)
    requires Power(rel, m + n, i, j)
    ensures Power(rel, m, i, k) && Power(rel, n, k, j)
    decreases m
  {
    if m == 0 {
      k := i;
    } else {
      var h := FirstIteration(rel, m + n, i, j);
      k := PowerUnsplit(rel, m - 1, n, h, j);
    }
  }

  // ----- Iteration against the language -----

  /** The outcomes from `i` are the matches of `r` from `i`. */
  ghost predicate Exact(rel: Rel, i: int, outs: seq<Out>) {
    forall j :: j in Positions(outs) <==> rel(i, j)
  }

  ghost predicate ExactBody(rel: Rel, len: nat, f: Body) {
    Steady(len, f, false) && forall o :: Valid(len, o) ==> Exact(rel, o.pos, f(o))
  }

  /** The language of a task over a body for `r`. */
  ghost predicate TaskMatches(t: Task, rel: Rel, i: int, j: int) {
    match t
    case Once(_) => rel(i, j)
    case Repeat(_, n) => Power(rel, n, i, j)
    case UpTo(_, n, _) => PowerUpTo(rel, n, i, j)
    case Loop(_, from) => if from < i then exists m: nat :: Power(rel, m, i, j) else i == j
    case Lazy(_, n) => n > 0 && PowerUpTo(rel, n - 1, i, j)
  }

  ghost predicate PowerUpTo(rel: Rel, n: nat, i: int, j: int) {
    exists m: nat :: m <= n && Power(rel, m, i, j)
  }

  /** No iteration, or one and up to n - 1 more. */
  lemma PowerUpToStep(rel: Rel, n: nat, i: int, j: int)
    ensures PowerUpTo(rel, n, i, j) <==> i == j || (n > 0 && exists k :: rel(i, k) && PowerUpTo(rel, n - 1, k, j))
  {
    if i == j { assert Power(rel, 0, i, j); }
    if n > 0 {
      if k :| rel(i, k) && PowerUpTo(rel, n - 1, k, j) {
        var m: nat :| m <= n - 1 && Power(rel, m, k, j);
        assert Power(rel, m + 1, i, j);
      }
    }
    if PowerUpTo(rel, n, i, j) && i != j {
      var m: nat :| m <= n && Power(rel, m, i, j);
      var k := FirstIteration(rel, m, i, j);
      assert PowerUpTo(rel, n - 1, k, j);
    }
  }

  lemma {:induction false} SemAllExact(rel: Rel, len: nat, t: Task, outs: seq<Out>, lo: int, slots: nat)
    requires ExactBody(rel, len, t.f) && 0 <= lo && Bounded(len, lo, slots, outs)
    ensures forall j :: j in Positions(SemAll(len, t, outs)) <==>
              exists k :: k in Positions(outs) && TaskMatches(t, rel, k, j)
    decreases Rank(len, t), 1 + |outs|
  {
    if outs != [] {
      SemExact(rel, len, t, outs[0]);
      SemAllExact(rel, len, t, outs[1..], lo, slots);
      assert outs == [outs[0]] + outs[1..];
      PositionsConcat([outs[0]], outs[1..]);
      SingletonPositions(outs[0]);
      PositionsConcat(Sem(len, t, outs[0]), SemAll(len, t, outs[1..]));
    }
  }

  /** One iteration followed by `t`. */
  lemma {:induction false} StepExact(rel: Rel, len: nat, t: Task, o: Out) returns (tail: seq<Out>)
    requires ExactBody(rel, len, t.f) && Valid(len, o)
    ensures tail == SemAll(len, t, t.f(o))
    ensures forall j :: j in Positions(tail) <==> exists k :: rel(o.pos, k) && TaskMatches(t, rel, k, j)
    decreases Rank(len, t), 2 + |t.f(o)|
  {
    var outs := t.f(o);
    SemAllExact(rel, len, t, outs, o.pos, |o.caps|);
    tail := SemAll(len, t, outs);
    assert Exact(rel, o.pos, outs);
  }

  /** A task has the outcomes of its language, whatever the captures hold. */
  lemma {:induction false} SemExact(rel: Rel, len: nat, t: Task, o: Out)
    requires ExactBody(rel, len, t.f) && Valid(len, o)
    ensures forall j :: j in Positions(Sem(len, t, o)) <==> TaskMatches(t, rel, o.pos, j)
    decreases Rank(len, t), 0
  {
    SingletonPositions(o);
    match t
    case Once(f) => assert Exact(rel, o.pos, f(o));
    case Repeat(f, n) =>
      if n > 0 {
        var tail := StepExact(rel, len, Repeat(f, n - 1), o);
        forall j ensures j in Positions(tail) <==> Power(rel, n, o.pos, j) {
          if Power(rel, n, o.pos, j) {
            var k := FirstIteration(rel, n, o.pos, j);
            assert TaskMatches(Repeat(f, n - 1), rel, k, j);
          }
        }
      }
    case UpTo(f, n, greedy) => UpToExact(rel, len, f, n, greedy, o);
    case Loop(f, from) => if from < o.pos { LoopExact(rel, len, f, from, o); }
    case Lazy(f, n) => if n > 0 { LazyExact(rel, len, f, n, o); }
  }

  lemma UpToExact(rel: Rel, len: nat, f: Body, n: nat, greedy: bool, o: Out)
    requires ExactBody(rel, len, f) && Valid(len, o)
    ensures forall j :: j in Positions(Sem(len, UpTo(f, n, greedy), o)) <==> PowerUpTo(rel, n, o.pos, j)
    decreases n, -1
  {
    hide PowerUpTo, Power;
    SingletonPositions(o);
    forall j { PowerUpToStep(rel, n, o.pos, j); }
    if n > 0 {
      var tail := StepExact(rel, len, UpTo(f, n - 1, greedy), o);
      PositionsConcat(tail, [o]);
      PositionsConcat([o], tail);
    }
  }

  lemma LazyExact(rel: Rel, len: nat, f: Body, n: nat, o: Out)
    requires ExactBody(rel, len, f) && Valid(len, o) && n > 0
    ensures forall j :: j in Positions(Sem(len, Lazy(f, n), o)) <==> PowerUpTo(rel, n - 1, o.pos, j)
    decreases n, -1
  {
    hide PowerUpTo, Power;
    SingletonPositions(o);
    var p: nat := n - 1;
    forall j { PowerUpToStep(rel, p, o.pos, j); }
    var tail := StepExact(rel, len, Lazy(f, p), o);
    PositionsConcat([o], tail);
  }

  lemma LoopExact(rel: Rel, len: nat, f: Body, from: int, o: Out)
    requires ExactBody(rel, len, f) && Valid(len, o) && from < o.pos
    ensures forall j :: j in Positions(Sem(len, Loop(f, from), o)) <==> TaskMatches(Loop(f, from), rel, o.pos, j)
    decreases len - from, -1
  {
    hide Power, Sem;
    var t, t1 := Loop(f, from), Loop(f, o.pos);
    SingletonPositions(o);
    var tail := StepExact(rel, len, t1, o);
    LoopUnfold(len, f, from, o);
    PositionsConcat(tail, [o]);
    forall j ensures j in Positions(Sem(len, t, o)) <==> TaskMatches(t, rel, o.pos, j) {
      LoopStepExact(rel, len, f, from, o, j);
    }
  }

  lemma LoopUnfold(len: nat, f: Body, from: int, o: Out)
    requires from < o.pos <= len
    ensures Sem(len, Loop(f, from), o) == SemAll(len, Loop(f, o.pos), f(o)) + [o]
  {
  }

  /** A loop ends where it is, or after an iteration that moves, followed by the loop. */
  lemma LoopStepExact(rel: Rel, len: nat, f: Body, from: int, o: Out, j: int)
    requires ExactBody(rel, len, f) && Valid(len, o) && from < o.pos
    ensures TaskMatches(Loop(f, from), rel, o.pos, j) <==>
            j == o.pos || exists k :: rel(o.pos, k) && TaskMatches(Loop(f, o.pos), rel, k, j)
  {
    if j == o.pos { assert Power(rel, 0, o.pos, j); }
    if k :| rel(o.pos, k) && TaskMatches(Loop(f, o.pos), rel, k, j) {
      LoopStepBack(rel, f, from, o.pos, k, j);
    }
    if TaskMatches(Loop(f, from), rel, o.pos, j) && j != o.pos {
      var m: nat :| Power(rel, m, o.pos, j);
      var n := DropEmptyIterations(rel, len, f, m, o.pos, j);
      var k :| o.pos < k && rel(o.pos, k) && Advancing(rel, n - 1, k, j);
      AdvancingPower(rel, n - 1, k, j);
      assert TaskMatches(Loop(f, o.pos), rel, k, j);
    }
  }

  lemma LoopStepBack(rel: Rel, f: Body, from: int, i: int, k: int, j: int)
    requires from < i && rel(i, k) && TaskMatches(Loop(f, i), rel, k, j)
    ensures TaskMatches(Loop(f, from), rel, i, j)
  {
    if i < k {
      var m: nat :| Power(rel, m, k, j);
      assert Power(rel, m + 1, i, j);
    } else {
      assert Power(rel, 0, k, j) && Power(rel, 1, i, j);
    }
  }

  // ----- Empty iterations -----

  /** `n` consecutive matches that all move. */
  ghost predicate Advancing(rel: Rel, n: nat, i: int, j: int)
    decreases n
  {
    if n == 0 then i == j else exists k :: i < k && rel(i, k) && Advancing(rel, n - 1, k, j)
  }

  lemma {:induction false} AdvancingPower(rel: Rel, n: nat, i: int, j: int)
    requires Advancing(rel, n, i, j)
    ensures Power(rel, n, i, j) && n <= j - i
  {
    if n > 0 {
      var k :| i < k && rel(i, k) && Advancing(rel, n - 1, k, j);
      AdvancingPower(rel, n - 1, k, j);
    }
  }

  /** Empty iterations can be left out: any number of iterations has the ends of some number
      of iterations that all move. */
  lemma {:induction false} DropEmptyIterations(rel: Rel, len: nat, f: Body, m: nat, i: int, j: int) returns (n: nat)
    requires ExactBody(rel, len, f) && 0 <= i <= len && Power(rel, m, i, j)
    ensures Advancing(rel, n, i, j) && i <= j <= len
    decreases m
  {
    if m == 0 {
      n := 0;
    } else {
      var k := FirstIteration(rel, m, i, j);
      NotBackwards(rel, len, f, Out(i, []));
      n := DropEmptyIterations(rel, len, f, m - 1, k, j);
      if i < k { n := n + 1; }
    }
  }

  lemma NotBackwards(rel: Rel, len: nat, f: Body, o: Out)
    requires ExactBody(rel, len, f) && Valid(len, o)
    ensures forall k :: rel(o.pos, k) ==> o.pos <= k <= len
  {
    var outs := f(o);
    assert Exact(rel, o.pos, outs) && Bounded(len, o.pos, |o.caps|, outs);
    forall k | rel(o.pos, k) ensures o.pos <= k <= len {
      assert k in Positions(outs);
    }
  }

  lemma IteratedExact(rel: Rel, len: nat, rounds: nat, f: Body, min: nat, max: nat, greedy: bool, o: Out)
    requires ExactBody(rel, len, f) && Valid(len, o) && min <= max && min < INFINITE && len < rounds
    ensures forall j :: j in Positions(Iterated(len, rounds, f, min, max, greedy, o)) <==> PowerBetween(rel, min, max, o.pos, j)
  {
    hide TaskMatches, PowerBetween;
    var base := Sem(len, Repeat(f, min), o);
    SemExact(rel, len, Repeat(f, min), o);
    SemBounded(len, Repeat(f, min), o);
    assert forall k :: k in Positions(base) <==> Power(rel, min, o.pos, k) by {
      forall k { RepeatMatches(rel, f, min, o.pos, k); }
    }
    if max > min {
      var t := Rest(f, rounds, min, max, greedy);
      SemAllExact(rel, len, t, base, o.pos, |o.caps|);
      forall j { OptionalRest(rel, len, rounds, f, min, max, greedy, o.pos, j); }
    } else {
      forall j { NoRest(rel, min, o.pos, j); }
    }
  }

  lemma RepeatMatches(rel: Rel, f: Body, n: nat, i: int, j: int)
    ensures TaskMatches(Repeat(f, n), rel, i, j) <==> Power(rel, n, i, j)
  {
  }

  lemma NoRest(rel: Rel, min: nat, i: int, j: int)
    requires min < INFINITE
    ensures PowerBetween(rel, min, min, i, j) <==> Power(rel, min, i, j)
  {
  }

  lemma OptionalRest(rel: Rel, len: nat, rounds: nat, f: Body, min: nat, max: nat, greedy: bool, i: int, j: int)
    requires ExactBody(rel, len, f) && 0 <= i <= len && len < rounds && min < max
    ensures PowerBetween(rel, min, max, i, j) <==>
            exists k :: Power(rel, min, i, k) && TaskMatches(Rest(f, rounds, min, max, greedy), rel, k, j)
  {
    var t := Rest(f, rounds, min, max, greedy);
    if k :| Power(rel, min, i, k) && TaskMatches(t, rel, k, j) {
      var _ := DropEmptyIterations(rel, len, f, min, i, k);
      var m: nat :| (max == INFINITE || m <= max - min) && Power(rel, m, k, j);
      PowerSplit(rel, min, m, i, k, j);
    }
    if PowerBetween(rel, min, max, i, j) {
      var n: nat :| min <= n && (max == INFINITE || n <= max) && Power(rel, n, i, j);
      var k := PowerUnsplit(rel, min, n - min, i, j);
      var _ := DropEmptyIterations(rel, len, f, min, i, k);
      RestMatches(rel, len, rounds, f, min, max, greedy, n - min, k, j);
    }
  }

  lemma RestMatches(rel: Rel, len: nat, rounds: nat, f: Body, min: nat, max: nat, greedy: bool, n: nat, k: int, j: int)
    requires ExactBody(rel, len, f) && 0 <= k <= len && len < rounds && min < max
    requires Power(rel, n, k, j) && (max == INFINITE || n <= max - min)
    ensures TaskMatches(Rest(f, rounds, min, max, greedy), rel, k, j)
  {
    if max == INFINITE && !greedy {
      var m := DropEmptyIterations(rel, len, f, n, k, j);
      AdvancingPower(rel, m, k, j);
    }
  }

  lemma SequenceExact(first: Rel, rel: Rel, len: nat, f: Body, o: Out, outs: seq<Out>)
    requires ExactBody(rel, len, f) && Valid(len, o)
    requires Exact(first, o.pos, outs) && Bounded(len, o.pos, |o.caps|, outs)
    ensures forall j :: j in Positions(SemAll(len, Once(f), outs)) <==> Compose(first, rel, o.pos, j)
  {
    var all := SemAll(len, Once(f), outs);
    SemAllExact(rel, len, Once(f), outs, o.pos, |o.caps|);
    forall j ensures j in Positions(all) <==> Compose(first, rel, o.pos, j) {
      if j in Positions(all) {
        var k :| k in Positions(outs) && TaskMatches(Once(f), rel, k, j);
        assert first(o.pos, k) && rel(k, j);
      }
      if k :| first(o.pos, k) && rel(k, j) {
        assert k in Positions(outs) && TaskMatches(Once(f), rel, k, j);
      }
    }
  }

  // ----- Patterns -----

  lemma LookExact(negated: bool, rel: Rel, o: Out, outs: seq<Out>)
    requires Exact(rel, o.pos, outs)
    ensures forall j :: j in Positions(LookOuts(negated, o, outs)) <==> j == o.pos && Starts(rel, o.pos) != negated
  {
    SingletonPositions(o);
    if outs != [] {
      assert outs[0].pos in Positions(outs);
      SingletonPositions(Out(o.pos, outs[0].caps));
    }
  }

  lemma UnitExact(s: seq<byte>, rounds: nat, r: Re, cc: nat, o: Out)
    requires Valid(|s|, o) && IsUnit(r)
    ensures Exact(Language(r, s), o.pos, Outcomes(s, rounds, r, cc, o))
  {
    SingletonPositions(o);
    SingletonPositions(o.(pos := o.pos + 1));
  }

  lemma CatLanguage(s: seq<byte>, a: Re, b: Re)
    ensures forall i, j :: Language(Cat(a, b), s)(i, j) <==> Compose(Language(a, s), Language(b, s), i, j)
  {
  }

  lemma CatExact(s: seq<byte>, rounds: nat, a: Re, b: Re, cc: nat, o: Out)
    requires Valid(|s|, o) && |s| < rounds && WellFormed(a) && WellFormed(b)
    ensures Exact(Language(Cat(a, b), s), o.pos, Outcomes(s, rounds, Cat(a, b), cc, o))
    decreases Cat(a, b), 0
  {
    hide Outcomes, Language;
    OutcomesExact(s, rounds, a, cc, o);
    OutcomesBounded(s, rounds, a, cc, o);
    MatcherExact(s, rounds, b, cc + Groups(a));
    SequenceExact(Language(a, s), Language(b, s), |s|, Matcher(s, rounds, b, cc + Groups(a)), o, Outcomes(s, rounds, a, cc, o));
    CatUnfold(s, rounds, a, b, cc, o);
    CatLanguage(s, a, b);
  }

  lemma AltLanguage(s: seq<byte>, a: Re, b: Re)
    ensures forall i, j :: Language(Alt(a, b), s)(i, j) <==> Language(a, s)(i, j) || Language(b, s)(i, j)
  {
  }

  lemma AltExact(s: seq<byte>, rounds: nat, a: Re, b: Re, cc: nat, o: Out)
    requires Valid(|s|, o) && |s| < rounds && WellFormed(a) && WellFormed(b)
    ensures Exact(Language(Alt(a, b), s), o.pos, Outcomes(s, rounds, Alt(a, b), cc, o))
    decreases Alt(a, b), 0
  {
    hide Outcomes, Language;
    OutcomesExact(s, rounds, a, cc, o);
    OutcomesExact(s, rounds, b, cc + Groups(a), o);
    PositionsConcat(Outcomes(s, rounds, a, cc, o), Outcomes(s, rounds, b, cc + Groups(a), o));
    AltUnfold(s, rounds, a, b, cc, o);
    AltLanguage(s, a, b);
  }

  lemma GroupLanguage(s: seq<byte>, b: Re)
    ensures forall i, j :: Language(Group(b), s)(i, j) <==> Language(b, s)(i, j)
  {
  }

  lemma GroupExact(s: seq<byte>, rounds: nat, b: Re, cc: nat, o: Out)
    requires Valid(|s|, o) && |s| < rounds && WellFormed(b)
    ensures Exact(Language(Group(b), s), o.pos, Outcomes(s, rounds, Group(b), cc, o))
    decreases Group(b), 0
  {
    hide Outcomes, Language;
    var o1 := o.(caps := SetCap(o.caps, 2 * cc, o.pos));
    OutcomesExact(s, rounds, b, cc + 1, o1);
    OutcomesBounded(s, rounds, b, cc + 1, o1);
    ClosedPositions(|s|, cc, Outcomes(s, rounds, b, cc + 1, o1), o.pos, |o.caps|);
    GroupUnfold(s, rounds, b, cc, o);
    GroupLanguage(s, b);
  }

  lemma LookLanguage(s: seq<byte>, negated: bool, b: Re)
    ensures forall i, j :: Language(Look(negated, b), s)(i, j) <==> i == j && Starts(Language(b, s), i) != negated
  {
  }

  lemma QuantLanguage(s: seq<byte>, b: Re, min: nat, max: nat, greedy: bool)
    ensures forall i, j :: Language(Quant(b, min, max, greedy), s)(i, j) <==> PowerBetween(Language(b, s), min, max, i, j)
  {
  }

  /** The main link between the two readings of a pattern: its outcomes from a
      position are the ends of its matches there. */
  lemma {:induction false} OutcomesExact(s: seq<byte>, rounds: nat, r: Re, cc: nat, o: Out)
    requires Valid(|s|, o) && |s| < rounds && WellFormed(r)
    ensures Exact(Language(r, s), o.pos, Outcomes(s, rounds, r, cc, o))
    decreases r, 1
  {
    hide Outcomes, Language;
    match r
    case Cat(a, b) => CatExact(s, rounds, a, b, cc, o);
    case Alt(a, b) => AltExact(s, rounds, a, b, cc, o);
    case Group(b) => GroupExact(s, rounds, b, cc, o);
    case Look(negated, b) =>
      OutcomesExact(s, rounds, b, cc, o);
      LookExact(negated, Language(b, s), o, Outcomes(s, rounds, b, cc, o));
      LookUnfold(s, rounds, negated, b, cc, o);
      LookLanguage(s, negated, b);
    case Quant(b, min, max, greedy) =>
      MatcherExact(s, rounds, b, cc);
      IteratedExact(Language(b, s), |s|, rounds, Matcher(s, rounds, b, cc), min, max, greedy, Enter(min, Groups(b), cc, o));
      QuantUnfold(s, rounds, b, min, max, greedy, cc, o);
      QuantLanguage(s, b, min, max, greedy);
    case _ => UnitExact(s, rounds, r, cc, o);
  }

  lemma MatcherExact(s: seq<byte>, rounds: nat, r: Re, cc: nat)
    requires WellFormed(r) && |s| < rounds
    ensures ExactBody(Language(r, s), |s|, Matcher(s, rounds, r, cc))
    decreases r, 2
  {
    hide Outcomes, Language;
    MatcherSteady(s, rounds, r, cc);
    forall o | Valid(|s|, o) ensures Exact(Language(r, s), o.pos, Matcher(s, rounds, r, cc)(o)) {
      OutcomesExact(s, rounds, r, cc, o);
    }
  }
}
