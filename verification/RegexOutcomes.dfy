/** Outcomes of a backtracking matcher in the order in which it visits them. */
module RegexOutcomes {
  import opened Basics
  import opened Intervals
  import opened RegexSyntax

  /** A cursor position with the capture slots; -1 stands for a null pointer. */
  datatype Out = Out(pos: int, caps: seq<int>)

  /** What a piece of a pattern can do from an outcome. */
  type Body = Out -> seq<Out>

  function SetCap(caps: seq<int>, slot: nat, v: int): (r: seq<int>)
    ensures |r| == |caps|
  {
    if slot < |caps| then caps[slot := v] else caps
  }

  /** Clears the slots of groups lo..hi, as `save_reset` does. */
  function ResetCaps(caps: seq<int>, lo: nat, hi: int): (r: seq<int>)
    ensures |r| == |caps|
  {
    seq(|caps|, i requires 0 <= i < |caps| => if 2 * lo <= i < 2 * hi + 2 then -1 else caps[i])
  }

  function Choice(first: bool, a: seq<Out>, b: seq<Out>): seq<Out> {
    if first then a + b else b + a
  }

  // ----- Iteration -----

  /** What is left to do: the body once, `n` times, up to `n` times, in an unbounded greedy
      loop whose previous iteration started at `from`, or in an unbounded lazy loop, of
      which `n` rounds are looked at. */
  datatype Task =
    | Once(f: Body)
    | Repeat(f: Body, n: nat)
    | UpTo(f: Body, n: nat, greedy: bool)
    | Loop(f: Body, from: int)
    | Lazy(f: Body, n: nat)

  /** Used only in termination measures. */
  function Rank(len: nat, t: Task): int {
    match t
    case Once(_) => 0
    case Repeat(_, n) => n
    case UpTo(_, n, _) => n
    case Loop(_, from) => len - from
    case Lazy(_, n) => n
  }

  /** All outcomes of a task from `o` in a subject of `len` characters.  An iteration of a
      greedy unbounded loop that does not advance leaves the loop.  A lazy loop has no such
      check and may have outcomes without end: these are the first ones. */
  function Sem(len: nat, t: Task, o: Out): seq<Out>
    decreases Rank(len, t), 0
  {
    match t
    case Once(f) => f(o)
    case Repeat(f, n) => if n == 0 then [o] else SemAll(len, Repeat(f, n - 1), f(o))
    case UpTo(f, n, greedy) =>
      if n == 0 then [o] else Choice(greedy, SemAll(len, UpTo(f, n - 1, greedy), f(o)), [o])
    case Loop(f, from) => if from < o.pos <= len then SemAll(len, Loop(f, o.pos), f(o)) + [o] else [o]
    case Lazy(f, n) => if n == 0 then [] else [o] + SemAll(len, Lazy(f, n - 1), f(o))
  }

  function SemAll(len: nat, t: Task, outs: seq<Out>): seq<Out>
    decreases Rank(len, t), 1 + |outs|
  {
    if outs == [] then [] else Sem(len, t, outs[0]) + SemAll(len, t, outs[1..])
  }

  /** An unbounded loop. */
  function Unbounded(f: Body, rounds: nat, greedy: bool): Task {
    if greedy then Loop(f, -1) else Lazy(f, rounds)
  }

  /** The iterations after the mandatory ones. */
  function Rest(f: Body, rounds: nat, min: nat, max: nat, greedy: bool): Task
    requires min < max
  {
    if max == INFINITE then Unbounded(f, rounds, greedy) else UpTo(f, max - min, greedy)
  }

  /** `min` mandatory and up to `max` iterations in all. */
  function Iterated(len: nat, rounds: nat, f: Body, min: nat, max: nat, greedy: bool, o: Out): seq<Out> {
    var base := Sem(len, Repeat(f, min), o);
    if max == INFINITE then SemAll(len, Unbounded(f, rounds, greedy), base)
    else if max <= min then base
    else SemAll(len, UpTo(f, max - min, greedy), base)
  }

  lemma SemAllUnit(len: nat, t: Task, o: Out)
    ensures SemAll(len, t, [o]) == Sem(len, t, o)
  {
    assert [o][1..] == [];
  }

  lemma {:induction false} SemAllZero(len: nat, f: Body, outs: seq<Out>)
    ensures SemAll(len, Repeat(f, 0), outs) == outs
    decreases |outs|
  {
    if outs != [] {
      SemAllZero(len, f, outs[1..]);
      assert outs == [outs[0]] + outs[1..];
    }
  }

  // ----- Patterns -----

  function Advance(o: Out, ok: bool): seq<Out> {
    if ok then [o.(pos := o.pos + 1)] else []
  }

  predicate AtomAccepts(r: Re, c: int) {
    match r
    case Char(v) => v == c
    case Dot => !IsLineTerminator(c)
    case Class(points) => InIntervals(points, c)
    case _ => false
  }

  /** A loop that may run zero times first clears the groups inside it. */
  function Enter(min: nat, groups: nat, cc: nat, o: Out): Out {
    if min == 0 && groups > 0 then o.(caps := ResetCaps(o.caps, cc, cc + groups - 1)) else o
  }

  function CloseAll(cc: nat, outs: seq<Out>): seq<Out> {
    if outs == [] then []
    else [outs[0].(caps := SetCap(outs[0].caps, 2 * cc + 1, outs[0].pos))] + CloseAll(cc, outs[1..])
  }

  /** The outcomes of a pattern whose groups are numbered from `cc`. */
  function Outcomes(s: seq<byte>, rounds: nat, r: Re, cc: nat, o: Out): seq<Out>
    decreases r, 0
  {
    match r
    case Empty => [o]
    case Char(_) => Advance(o, 0 <= o.pos < |s| && AtomAccepts(r, s[o.pos]))
    case Dot => Advance(o, 0 <= o.pos < |s| && AtomAccepts(r, s[o.pos]))
    case Class(_) => Advance(o, 0 <= o.pos < |s| && AtomAccepts(r, s[o.pos]))
    case LineStart => if o.pos == 0 then [o] else []
    case LineEnd => if o.pos == |s| then [o] else []
    case WordBoundary(negated) => if WordEdge(s, o.pos) != negated then [o] else []
    case Cat(a, b) => SemAll(|s|, Once(Matcher(s, rounds, b, cc + Groups(a))), Outcomes(s, rounds, a, cc, o))
    case Alt(a, b) => Outcomes(s, rounds, a, cc, o) + Outcomes(s, rounds, b, cc + Groups(a), o)
    case Group(b) => CloseAll(cc, Outcomes(s, rounds, b, cc + 1, o.(caps := SetCap(o.caps, 2 * cc, o.pos))))
    case Look(negated, b) => LookOuts(negated, o, Outcomes(s, rounds, b, cc, o))
    case Quant(b, min, max, greedy) =>
      Iterated(|s|, rounds, Matcher(s, rounds, b, cc), min, max, greedy, Enter(min, Groups(b), cc, o))
  }

  function Matcher(s: seq<byte>, rounds: nat, r: Re, cc: nat): Body
    decreases r, 1
  {
    o => Outcomes(s, rounds, r, cc, o)
  }

  /** A lookahead keeps the position, and the captures of its first outcome. */
  function LookOuts(negated: bool, o: Out, outs: seq<Out>): seq<Out> {
    if negated then (if outs == [] then [o] else [])
    else if outs == [] then [] else [Out(o.pos, outs[0].caps)]
  }

  // The equations of `Outcomes`, for proofs that hide its definition.

  lemma CatUnfold(s: seq<byte>, rounds: nat, a: Re, b: Re, cc: nat, o: Out)
    ensures Outcomes(s, rounds, Cat(a, b), cc, o) == SemAll(|s|, Once(Matcher(s, rounds, b, cc + Groups(a))), Outcomes(s, rounds, a, cc, o))
  {
    hide Sem, SemAll, Iterated, CloseAll, LookOuts, Enter, Matcher, Advance, AtomAccepts, WordEdge;
  }

  lemma AltUnfold(s: seq<byte>, rounds: nat, a: Re, b: Re, cc: nat, o: Out)
    ensures Outcomes(s, rounds, Alt(a, b), cc, o) == Outcomes(s, rounds, a, cc, o) + Outcomes(s, rounds, b, cc + Groups(a), o)
  {
    hide Sem, SemAll, Iterated, CloseAll, LookOuts, Enter, Matcher, Advance, AtomAccepts, WordEdge;
  }

  lemma GroupUnfold(s: seq<byte>, rounds: nat, b: Re, cc: nat, o: Out)
    ensures Outcomes(s, rounds, Group(b), cc, o) ==
            CloseAll(cc, Outcomes(s, rounds, b, cc + 1, o.(caps := SetCap(o.caps, 2 * cc, o.pos))))
  {
    hide Sem, SemAll, Iterated, CloseAll, LookOuts, Enter, Matcher, Advance, AtomAccepts, WordEdge;
  }

  lemma LookUnfold(s: seq<byte>, rounds: nat, negated: bool, b: Re, cc: nat, o: Out)
    ensures Outcomes(s, rounds, Look(negated, b), cc, o) == LookOuts(negated, o, Outcomes(s, rounds, b, cc, o))
  {
    hide Sem, SemAll, Iterated, CloseAll, LookOuts, Enter, Matcher, Advance, AtomAccepts, WordEdge;
  }

  lemma QuantUnfold(s: seq<byte>, rounds: nat, b: Re, min: nat, max: nat, greedy: bool, cc: nat, o: Out)
    ensures Outcomes(s, rounds, Quant(b, min, max, greedy), cc, o) ==
            Iterated(|s|, rounds, Matcher(s, rounds, b, cc), min, max, greedy, Enter(min, Groups(b), cc, o))
  {
    hide Sem, SemAll, Iterated, CloseAll, LookOuts, Enter, Matcher, Advance, AtomAccepts, WordEdge;
  }

  // ----- Bounds -----

  /** Every outcome stays in the subject, does not move below `lo` and keeps the slots. */
  ghost predicate Bounded(len: nat, lo: int, slots: nat, outs: seq<Out>) {
    forall k :: 0 <= k < |outs| ==> lo <= outs[k].pos <= len && |outs[k].caps| == slots
  }

  ghost predicate Valid(len: nat, o: Out) {
    0 <= o.pos <= len
  }

  /** The body never moves back; an advancing one always moves on. */
  ghost predicate Steady(len: nat, f: Body, advances: bool) {
    forall o :: Valid(len, o) ==> Bounded(len, if advances then o.pos + 1 else o.pos, |o.caps|, f(o))
  }

  lemma BoundedConcat(len: nat, lo: int, slots: nat, a: seq<Out>, b: seq<Out>)
    requires Bounded(len, lo, slots, a) && Bounded(len, lo, slots, b)
    ensures Bounded(len, lo, slots, a + b)
  {
  }

  lemma BoundedUnit(len: nat, o: Out)
    requires Valid(len, o)
    ensures Bounded(len, o.pos, |o.caps|, [o]) && Bounded(len, o.pos, |o.caps|, [])
  {
  }

  lemma {:induction false} SemBounded(len: nat, t: Task, o: Out)
    requires Valid(len, o) && Steady(len, t.f, false)
    ensures Bounded(len, o.pos, |o.caps|, Sem(len, t, o))
    decreases Rank(len, t), 0
  {
    assert Bounded(len, o.pos, |o.caps|, t.f(o));
    hide Bounded;
    BoundedUnit(len, o);
    match t
    case Once(_) =>
    case Repeat(f, n) => if n > 0 { SemAllBounded(len, Repeat(f, n - 1), f(o), o.pos, |o.caps|); }
    case UpTo(f, n, greedy) => if n > 0 { NextBounded(len, UpTo(f, n - 1, greedy), o); }
    case Loop(f, from) => if from < o.pos { NextBounded(len, Loop(f, o.pos), o); }
    case Lazy(f, n) => if n > 0 { NextBounded(len, Lazy(f, n - 1), o); }
  }

  /** The body once and then a task, with the present outcome before or behind. */
  lemma {:induction false} NextBounded(len: nat, t: Task, o: Out)
    requires Valid(len, o) && Steady(len, t.f, false)
    ensures Bounded(len, o.pos, |o.caps|, SemAll(len, t, t.f(o)) + [o]) && Bounded(len, o.pos, |o.caps|, [o] + SemAll(len, t, t.f(o)))
    decreases Rank(len, t), 2 + |t.f(o)|
  {
    var outs := t.f(o);
    assert Bounded(len, o.pos, |o.caps|, outs);
    hide Bounded, SemAll;
    SemAllBounded(len, t, outs, o.pos, |o.caps|);
    BoundedUnit(len, o);
    BoundedConcat(len, o.pos, |o.caps|, SemAll(len, t, outs), [o]);
    BoundedConcat(len, o.pos, |o.caps|, [o], SemAll(len, t, outs));
  }

  lemma {:induction false} SemAllBounded(len: nat, t: Task, outs: seq<Out>, lo: int, slots: nat)
    requires 0 <= lo && Bounded(len, lo, slots, outs) && Steady(len, t.f, false)
    ensures Bounded(len, lo, slots, SemAll(len, t, outs))
    decreases Rank(len, t), 1 + |outs|
  {
    if outs != [] {
      SemBounded(len, t, outs[0]);
      SemAllBounded(len, t, outs[1..], lo, slots);
    }
  }

  lemma IteratedBounded(len: nat, rounds: nat, f: Body, min: nat, max: nat, greedy: bool, o: Out)
    requires Valid(len, o) && Steady(len, f, false)
    ensures Bounded(len, o.pos, |o.caps|, Iterated(len, rounds, f, min, max, greedy, o))
    ensures min > 0 && Steady(len, f, true) ==> Bounded(len, o.pos + 1, |o.caps|, Iterated(len, rounds, f, min, max, greedy, o))
  {
    var base := Sem(len, Repeat(f, min), o);
    SemBounded(len, Repeat(f, min), o);
    TailBounded(len, rounds, f, min, max, greedy, base, o.pos, |o.caps|);
    if min > 0 && Steady(len, f, true) {
      SemAllBounded(len, Repeat(f, min - 1), f(o), o.pos + 1, |o.caps|);
      TailBounded(len, rounds, f, min, max, greedy, base, o.pos + 1, |o.caps|);
    }
  }

  lemma TailBounded(len: nat, rounds: nat, f: Body, min: nat, max: nat, greedy: bool, base: seq<Out>, lo: int, slots: nat)
    requires 0 <= lo && Bounded(len, lo, slots, base) && Steady(len, f, false)
    ensures Bounded(len, lo, slots, SemAll(len, Unbounded(f, rounds, greedy), base))
    ensures max > min ==> Bounded(len, lo, slots, SemAll(len, UpTo(f, max - min, greedy), base))
  {
    SemAllBounded(len, Unbounded(f, rounds, greedy), base, lo, slots);
    if max > min { SemAllBounded(len, UpTo(f, max - min, greedy), base, lo, slots); }
  }

  lemma {:induction false} CloseAllBounded(len: nat, cc: nat, outs: seq<Out>, lo: int, slots: nat)
    requires Bounded(len, lo, slots, outs)
    ensures Bounded(len, lo, slots, CloseAll(cc, outs)) && |CloseAll(cc, outs)| == |outs|
    ensures forall k :: 0 <= k < |outs| ==>
              CloseAll(cc, outs)[k] == outs[k].(caps := SetCap(outs[k].caps, 2 * cc + 1, outs[k].pos))
  {
    if outs != [] {
      CloseAllBounded(len, cc, outs[1..], lo, slots);
    }
  }

  /** No pattern moves the cursor back or out of the subject. */
  lemma {:induction false} OutcomesBounded(s: seq<byte>, rounds: nat, r: Re, cc: nat, o: Out)
    requires Valid(|s|, o)
    ensures Bounded(|s|, o.pos, |o.caps|, Outcomes(s, rounds, r, cc, o))
    decreases r, 0
  {
    hide Outcomes;
    if IsUnit(r) {
      UnitBounded(s, rounds, r, cc, o);
    } else {
      match r
      case Cat(a, b) =>
        CatUnfold(s, rounds, a, b, cc, o);
        OutcomesBounded(s, rounds, a, cc, o);
        MatcherSteady(s, rounds, b, cc + Groups(a));
        SemAllBounded(|s|, Once(Matcher(s, rounds, b, cc + Groups(a))), Outcomes(s, rounds, a, cc, o), o.pos, |o.caps|);
      case Alt(a, b) =>
        AltUnfold(s, rounds, a, b, cc, o);
        OutcomesBounded(s, rounds, a, cc, o);
        OutcomesBounded(s, rounds, b, cc + Groups(a), o);
      case Group(b) =>
        var o1 := o.(caps := SetCap(o.caps, 2 * cc, o.pos));
        GroupUnfold(s, rounds, b, cc, o);
        OutcomesBounded(s, rounds, b, cc + 1, o1);
        CloseAllBounded(|s|, cc, Outcomes(s, rounds, b, cc + 1, o1), o.pos, |o.caps|);
      case Look(negated, b) =>
        LookUnfold(s, rounds, negated, b, cc, o);
        OutcomesBounded(s, rounds, b, cc, o);
      case Quant(b, min, max, greedy) =>
        QuantUnfold(s, rounds, b, min, max, greedy, cc, o);
        MatcherSteady(s, rounds, b, cc);
        IteratedBounded(|s|, rounds, Matcher(s, rounds, b, cc), min, max, greedy, Enter(min, Groups(b), cc, o));
      case _ =>
    }
  }

  predicate IsUnit(r: Re) {
    r.Empty? || r.Char? || r.Dot? || r.Class? || r.LineStart? || r.LineEnd? || r.WordBoundary?
  }

  lemma UnitBounded(s: seq<byte>, rounds: nat, r: Re, cc: nat, o: Out)
    requires Valid(|s|, o) && IsUnit(r)
    ensures Bounded(|s|, o.pos, |o.caps|, Outcomes(s, rounds, r, cc, o))
  {
  }

  lemma MatcherSteady(s: seq<byte>, rounds: nat, r: Re, cc: nat)
    ensures Steady(|s|, Matcher(s, rounds, r, cc), false)
    decreases r, 1
  {
    hide Outcomes;
    forall o | Valid(|s|, o) ensures Bounded(|s|, o.pos, |o.caps|, Matcher(s, rounds, r, cc)(o)) {
      OutcomesBounded(s, rounds, r, cc, o);
    }
  }
}
