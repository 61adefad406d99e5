/** What becomes of a run: the three ways it can go from each outcome, through every pattern. */
module RegexFate {
  import opened Basics
  import opened RegexSyntax
  import opened RegexOutcomes
  import opened RegexGen
  import opened RegexAdvance
  import opened RegexSim
  import opened RegexSearch

  /** A run matches with some captures, goes back to what was saved before it, or goes on for
      ever. */
  datatype Fate = Success(caps: seq<int>) | Fallback | Forever

  /** The fate of a run from each position with each captures. */
  type Fates = Out -> Fate

  function Else(first: Fate, second: Fate): Fate {
    if first == Fallback then second else first
  }

  const MATCHED: Fates := (o: Out) => Success(o.caps)

  /** Where a pattern of one test or assertion ends. */
  function UnitEnd(s: seq<byte>, r: Re, pos: int): Option<int> {
    var outs := Outcomes(s, 0, r, 0, Out(pos, []));
    if outs == [] then None else Some(outs[0].pos)
  }

  function Opened(cc: nat, o: Out): Out {
    o.(caps := SetCap(o.caps, 2 * cc, o.pos))
  }

  function Closed(cc: nat, o: Out): Out {
    o.(caps := SetCap(o.caps, 2 * cc + 1, o.pos))
  }

  /** The fates before a pattern, given those behind it. */
  function Before(s: seq<byte>, r: Re, cc: nat, k: Fates): Fates
    decreases r, 0, 0, 0
  {
    match r
    case Cat(a, b) => Before(s, a, cc, Before(s, b, cc + Groups(a), k))
    case Alt(a, b) => o => Else(Before(s, a, cc, k)(o), Before(s, b, cc + Groups(a), k)(o))
    case Group(b) => o => Before(s, b, cc + 1, Closing(cc, k))(Opened(cc, o))
    case Look(negated, b) => o => LookFate(negated, Before(s, b, cc, MATCHED)(o), o, k)
    case Quant(b, min, max, greedy) =>
      o => Must(s, b, cc, min, Optional(s, b, cc, min, max, greedy, k))(Enter(min, Groups(b), cc, o))
    case _ => (o: Out) => match UnitEnd(s, r, o.pos) case None => Fallback case Some(q) => k(o.(pos := q))
  }

  function Closing(cc: nat, k: Fates): Fates {
    o => k(Closed(cc, o))
  }

  /** A lookahead keeps the position, and the captures of its match. */
  function LookFate(negated: bool, inside: Fate, o: Out, k: Fates): Fate {
    match inside
    case Forever => Forever
    case Success(caps) => if negated then Fallback else k(Out(o.pos, caps))
    case Fallback => if negated then k(o) else Fallback
  }

  function Choose(first: bool, a: Fate, b: Fate): Fate {
    if first then Else(a, b) else Else(b, a)
  }

  /** Before `n` iterations. */
  function Must(s: seq<byte>, b: Re, cc: nat, n: nat, k: Fates): Fates
    decreases b, 1, n, 0
  {
    if n == 0 then k else Before(s, b, cc, Must(s, b, cc, n - 1, k))
  }

  /** Before the iterations that are not mandatory. */
  function Optional(s: seq<byte>, b: Re, cc: nat, min: nat, max: nat, greedy: bool, k: Fates): Fates
    decreases b, 2, 0, 0
  {
    if max == INFINITE then o => LoopFate(s, b, cc, greedy, k, o)
    else UpToFates(s, b, cc, if max > min then max - min else 0, greedy, k)
  }

  function UpToFates(s: seq<byte>, b: Re, cc: nat, n: nat, greedy: bool, k: Fates): Fates
    decreases b, 1, n, 0
  {
    if n == 0 then k
    else o => Choose(greedy, Before(s, b, cc, UpToFates(s, b, cc, n - 1, greedy, k))(o), k(o))
  }

  function LoopFate(s: seq<byte>, b: Re, cc: nat, greedy: bool, k: Fates, o: Out): Fate
    decreases b, 1, |s| - o.pos, 1
  {
    Choose(greedy, Before(s, b, cc, AfterRound(s, b, cc, greedy, k, o.pos))(o), k(o))
  }

  /** Behind an iteration that started at `from`.  One that has not moved leaves the loop
      where the compiler has put a check, and is repeated for ever where it has not. */
  function AfterRound(s: seq<byte>, b: Re, cc: nat, greedy: bool, k: Fates, from: int): Fates
    decreases b, 1, |s| - from, 0
  {
    (o: Out) =>
      if from < o.pos <= |s| then LoopFate(s, b, cc, greedy, k, o)
      else if NeedsCheck(Gen(b, cc), greedy) then k(o)
      else Forever
  }

  /** The fate of a search from a start position on. */
  function SearchFate(s: seq<byte>, r: Re, from: nat): Fate
    requires from <= |s|
    decreases |s| - from
  {
    Else(Before(s, Group(r), 0, MATCHED)(Out(from, NullCaps(Groups(r)))),
         if from < |s| then SearchFate(s, r, from + 1) else Fallback)
  }

  /** What a run that ends returns. */
  function ResultOf(f: Fate): Option<seq<int>> {
    if f.Success? then Some(f.caps) else None
  }

  lemma BeforeAlt(s: seq<byte>, a: Re, b: Re, cc: nat, k: Fates, o: Out)
    ensures Before(s, Alt(a, b), cc, k)(o) == Else(Before(s, a, cc, k)(o), Before(s, b, cc + Groups(a), k)(o))
  {
    hide Must, Optional, LookFate, UnitEnd, Else;
  }

  lemma BeforeGroup(s: seq<byte>, b: Re, cc: nat, k: Fates, o: Out)
    ensures Before(s, Group(b), cc, k)(o) == Before(s, b, cc + 1, Closing(cc, k))(Opened(cc, o))
  {
    hide Must, Optional, LookFate, UnitEnd, Else, Closing;
  }

  lemma BeforeLook(s: seq<byte>, negated: bool, b: Re, cc: nat, k: Fates, o: Out)
    ensures Before(s, Look(negated, b), cc, k)(o) == LookFate(negated, Before(s, b, cc, MATCHED)(o), o, k)
  {
    hide Must, Optional, LookFate, UnitEnd, Else;
  }

  // ----- Which way a run goes does not depend on captures -----

  predicate Same(f: Fate, g: Fate) {
    (f.Success? <==> g.Success?) && (f == Fallback <==> g == Fallback)
  }

  ghost predicate SameAt(k: Fates, o: Out, o1: Out) {
    Same(k(o), k(o1))
  }

  ghost predicate ByPosition(k: Fates) {
    forall o: Out, o1: Out :: o.pos == o1.pos ==> SameAt(k, o, o1)
  }

  lemma ByPositionAt(k: Fates, o: Out, o1: Out)
    requires ByPosition(k) && o.pos == o1.pos
    ensures Same(k(o), k(o1))
  {
    assert SameAt(k, o, o1);
  }

  lemma BeforeByPosition(s: seq<byte>, r: Re, cc: nat, k: Fates)
    requires ByPosition(k)
    ensures ByPosition(Before(s, r, cc, k))
    decreases r, 1, 0
  {
    hide Before, Same;
    forall o: Out, o1: Out | o.pos == o1.pos ensures SameAt(Before(s, r, cc, k), o, o1) {
      BeforeSame(s, r, cc, k, o, o1);
    }
  }

  lemma {:induction false} BeforeSame(s: seq<byte>, r: Re, cc: nat, k: Fates, o: Out, o1: Out)
    requires ByPosition(k) && o.pos == o1.pos
    ensures Same(Before(s, r, cc, k)(o), Before(s, r, cc, k)(o1))
    decreases r, 0, 0
  {
    hide ByPosition, Must, Optional, UnitEnd;
    match r
    case Cat(a, b) =>
      BeforeByPosition(s, b, cc + Groups(a), k);
      BeforeSame(s, a, cc, Before(s, b, cc + Groups(a), k), o, o1);
    case Alt(a, b) =>
      BeforeSame(s, a, cc, k, o, o1);
      BeforeSame(s, b, cc + Groups(a), k, o, o1);
    case Group(b) =>
      ClosingByPosition(cc, k);
      BeforeSame(s, b, cc + 1, Closing(cc, k), Opened(cc, o), Opened(cc, o1));
    case Look(negated, b) =>
      MatchedByPosition();
      BeforeSame(s, b, cc, MATCHED, o, o1);
      LookSame(negated, Before(s, b, cc, MATCHED)(o), Before(s, b, cc, MATCHED)(o1), o, o1, k);
    case Quant(b, min, max, greedy) =>
      OptionalByPosition(s, b, cc, min, max, greedy, k);
      MustByPosition(s, b, cc, min, Optional(s, b, cc, min, max, greedy, k));
      ByPositionAt(Must(s, b, cc, min, Optional(s, b, cc, min, max, greedy, k)), Enter(min, Groups(b), cc, o), Enter(min, Groups(b), cc, o1));
    case _ =>
      if UnitEnd(s, r, o.pos).Some? {
        var q := UnitEnd(s, r, o.pos).value;
        ByPositionAt(k, o.(pos := q), o1.(pos := q));
      }
  }

  lemma ClosingByPosition(cc: nat, k: Fates)
    requires ByPosition(k)
    ensures ByPosition(Closing(cc, k))
  {
    forall o: Out, o1: Out | o.pos == o1.pos ensures SameAt(Closing(cc, k), o, o1) {
      ByPositionAt(k, Closed(cc, o), Closed(cc, o1));
    }
  }

  lemma MatchedByPosition()
    ensures ByPosition(MATCHED)
  {
  }

  lemma LookSame(negated: bool, f: Fate, f1: Fate, o: Out, o1: Out, k: Fates)
    requires ByPosition(k) && Same(f, f1) && o.pos == o1.pos
    ensures Same(LookFate(negated, f, o, k), LookFate(negated, f1, o1, k))
  {
    if negated { ByPositionAt(k, o, o1); } else if f.Success? { ByPositionAt(k, Out(o.pos, f.caps), Out(o1.pos, f1.caps)); }
  }

  lemma {:induction false} MustByPosition(s: seq<byte>, b: Re, cc: nat, n: nat, k: Fates)
    requires ByPosition(k)
    ensures ByPosition(Must(s, b, cc, n, k))
    decreases b, 2, n
  {
    hide ByPosition, Before;
    if n > 0 {
      MustByPosition(s, b, cc, n - 1, k);
      BeforeByPosition(s, b, cc, Must(s, b, cc, n - 1, k));
    }
  }

  lemma OptionalByPosition(s: seq<byte>, b: Re, cc: nat, min: nat, max: nat, greedy: bool, k: Fates)
    requires ByPosition(k)
    ensures ByPosition(Optional(s, b, cc, min, max, greedy, k))
    decreases b, 3, 0
  {
    hide LoopFate, UpToFates;
    if max == INFINITE {
      forall o: Out, o1: Out | o.pos == o1.pos ensures SameAt(Optional(s, b, cc, min, max, greedy, k), o, o1) {
        LoopSame(s, b, cc, greedy, k, o, o1);
      }
    } else {
      UpToByPosition(s, b, cc, if max > min then max - min else 0, greedy, k);
    }
  }

  lemma {:induction false} UpToByPosition(s: seq<byte>, b: Re, cc: nat, n: nat, greedy: bool, k: Fates)
    requires ByPosition(k)
    ensures ByPosition(UpToFates(s, b, cc, n, greedy, k))
    decreases b, 2, n
  {
    hide Before;
    if n > 0 {
      var g := UpToFates(s, b, cc, n - 1, greedy, k);
      UpToByPosition(s, b, cc, n - 1, greedy, k);
      BeforeByPosition(s, b, cc, g);
      forall o: Out, o1: Out | o.pos == o1.pos ensures SameAt(UpToFates(s, b, cc, n, greedy, k), o, o1) {
        ByPositionAt(Before(s, b, cc, g), o, o1);
        ByPositionAt(k, o, o1);
      }
    }
  }

  lemma {:induction false} LoopSame(s: seq<byte>, b: Re, cc: nat, greedy: bool, k: Fates, o: Out, o1: Out)
    requires ByPosition(k) && o.pos == o1.pos
    ensures Same(LoopFate(s, b, cc, greedy, k, o), LoopFate(s, b, cc, greedy, k, o1))
    decreases b, 2, |s| - o.pos, 1
  {
    hide Before, ByPosition;
    var g := AfterRound(s, b, cc, greedy, k, o.pos);
    RoundByPosition(s, b, cc, greedy, k, o.pos);
    BeforeByPosition(s, b, cc, g);
    ByPositionAt(Before(s, b, cc, g), o, o1);
    ByPositionAt(k, o, o1);
  }

  lemma RoundByPosition(s: seq<byte>, b: Re, cc: nat, greedy: bool, k: Fates, from: int)
    requires ByPosition(k)
    ensures ByPosition(AfterRound(s, b, cc, greedy, k, from))
    decreases b, 2, |s| - from, 0
  {
    hide LoopFate, NeedsCheck;
    forall o: Out, o1: Out | o.pos == o1.pos ensures SameAt(AfterRound(s, b, cc, greedy, k, from), o, o1) {
      if from < o.pos <= |s| { LoopSame(s, b, cc, greedy, k, o, o1); } else { ByPositionAt(k, o, o1); }
    }
  }

  // ----- Fates and outcomes -----

  /** The first outcome behind which the run does not fall back decides. */
  function Over(outs: seq<Out>, k: Fates): Fate {
    if outs == [] then Fallback else Else(k(outs[0]), Over(outs[1..], k))
  }

  lemma OverUnit(o: Out, k: Fates)
    ensures Over([o], k) == k(o)
  {
    assert [o][1..] == [];
  }

  lemma {:induction false} OverConcat(a: seq<Out>, b: seq<Out>, k: Fates)
    ensures Over(a + b, k) == Else(Over(a, k), Over(b, k))
  {
    if a == [] {
      assert a + b == b;
    } else {
      assert (a + b)[1..] == a[1..] + b;
      OverConcat(a[1..], b, k);
    }
  }

  /** A task after each of the outcomes. */
  lemma {:induction false} OverAll(len: nat, t: Task, outs: seq<Out>, k: Fates, g: Fates)
    requires forall i :: 0 <= i < |outs| ==> Over(Sem(len, t, outs[i]), k) == g(outs[i])
    ensures Over(SemAll(len, t, outs), k) == Over(outs, g)
    decreases |outs|
  {
    hide Sem;
    if outs != [] {
      OverConcat(Sem(len, t, outs[0]), SemAll(len, t, outs[1..]), k);
      OverAll(len, t, outs[1..], k, g);
    }
  }

  lemma {:induction false} OverClosed(cc: nat, outs: seq<Out>, k: Fates)
    ensures Over(CloseAll(cc, outs), k) == Over(outs, Closing(cc, k))
  {
    if outs != [] {
      OverClosed(cc, outs[1..], k);
      assert CloseAll(cc, outs)[0] == Closed(cc, outs[0]) && CloseAll(cc, outs)[1..] == CloseAll(cc, outs[1..]);
    }
  }

  lemma {:induction false} OverMatched(outs: seq<Out>)
    ensures Over(outs, MATCHED) == if outs == [] then Fallback else Success(outs[0].caps)
  {
  }

  /** The body has the fates of its outcomes, whatever is behind it. */
  ghost predicate BodyFates(s: seq<byte>, b: Re, cc: nat, f: Body) {
    forall o: Out, k: Fates :: Valid(|s|, o) ==> Over(f(o), k) == Before(s, b, cc, k)(o)
  }

  lemma {:induction false} OverRepeat(s: seq<byte>, b: Re, cc: nat, f: Body, n: nat, k: Fates, o: Out)
    requires BodyFates(s, b, cc, f) && Steady(|s|, f, false) && Valid(|s|, o)
    ensures Over(Sem(|s|, Repeat(f, n), o), k) == Must(s, b, cc, n, k)(o)
    decreases n
  {
    hide Before, BodyFates, Steady, Over;
    OverUnit(o, k);
    if n > 0 {
      Bounds(|s|, f, false, o);
      var g, outs := Must(s, b, cc, n - 1, k), f(o);
      forall i | 0 <= i < |outs| ensures Over(Sem(|s|, Repeat(f, n - 1), outs[i]), k) == g(outs[i]) {
        OverRepeat(s, b, cc, f, n - 1, k, outs[i]);
      }
      OverAll(|s|, Repeat(f, n - 1), outs, k, g);
      UseBody(s, b, cc, f, o, g);
    }
  }

  lemma UseBody(s: seq<byte>, b: Re, cc: nat, f: Body, o: Out, k: Fates)
    requires BodyFates(s, b, cc, f) && Valid(|s|, o)
    ensures Over(f(o), k) == Before(s, b, cc, k)(o)
  {
  }

  lemma OverChoice(greedy: bool, outs: seq<Out>, o: Out, k: Fates)
    ensures Over(Choice(greedy, outs, [o]), k) == Choose(greedy, Over(outs, k), k(o))
  {
    OverUnit(o, k);
    OverConcat(outs, [o], k);
    OverConcat([o], outs, k);
  }

  lemma Bounds(len: nat, f: Body, advances: bool, o: Out)
    requires Steady(len, f, advances) && Valid(len, o)
    ensures Bounded(len, if advances then o.pos + 1 else o.pos, |o.caps|, f(o))
  {
  }

  lemma UpToUnfold(s: seq<byte>, b: Re, cc: nat, n: nat, greedy: bool, k: Fates, o: Out)
    ensures UpToFates(s, b, cc, n, greedy, k)(o) ==
            if n == 0 then k(o) else Choose(greedy, Before(s, b, cc, UpToFates(s, b, cc, n - 1, greedy, k))(o), k(o))
  {
    hide Before, Choose;
  }

  lemma {:induction false} OverUpTo(s: seq<byte>, b: Re, cc: nat, f: Body, n: nat, greedy: bool, k: Fates, o: Out)
    requires BodyFates(s, b, cc, f) && Steady(|s|, f, false) && Valid(|s|, o)
    ensures Over(Sem(|s|, UpTo(f, n, greedy), o), k) == UpToFates(s, b, cc, n, greedy, k)(o)
    decreases n
  {
    hide Before, BodyFates, Steady, Over, UpToFates, Choose;
    UpToUnfold(s, b, cc, n, greedy, k, o);
    OverUnit(o, k);
    if n > 0 {
      Bounds(|s|, f, false, o);
      var t, g, outs := UpTo(f, n - 1, greedy), UpToFates(s, b, cc, n - 1, greedy, k), f(o);
      forall i | 0 <= i < |outs| ensures Over(Sem(|s|, t, outs[i]), k) == g(outs[i]) {
        OverUpTo(s, b, cc, f, n - 1, greedy, k, outs[i]);
      }
      OverAll(|s|, t, outs, k, g);
      UseBody(s, b, cc, f, o, g);
      OverChoice(greedy, SemAll(|s|, t, outs), o, k);
    }
  }

  /** A greedy loop has the check, or a body that moves on. */
  lemma {:induction false} OverLoop(s: seq<byte>, b: Re, cc: nat, f: Body, from: int, k: Fates, o: Out)
    requires BodyFates(s, b, cc, f) && Steady(|s|, f, false) && (!NeedsCheck(Gen(b, cc), true) ==> Steady(|s|, f, true))
    requires Valid(|s|, o) && from < o.pos
    ensures Over(Sem(|s|, Loop(f, from), o), k) == LoopFate(s, b, cc, true, k, o)
    decreases |s| - o.pos
  {
    hide Before, BodyFates, NeedsCheck, Steady, Over;
    Bounds(|s|, f, false, o);
    if !NeedsCheck(Gen(b, cc), true) { Bounds(|s|, f, true, o); }
    var t, g, outs := Loop(f, o.pos), AfterRound(s, b, cc, true, k, o.pos), f(o);
    forall i | 0 <= i < |outs| ensures Over(Sem(|s|, t, outs[i]), k) == g(outs[i]) {
      if o.pos < outs[i].pos { OverLoop(s, b, cc, f, o.pos, k, outs[i]); } else { OverUnit(outs[i], k); }
    }
    OverAll(|s|, t, outs, k, g);
    UseBody(s, b, cc, f, o, g);
    OverChoice(true, SemAll(|s|, t, outs), o, k);
  }

  lemma {:induction false} OverLazy(s: seq<byte>, b: Re, cc: nat, f: Body, n: nat, k: Fates, o: Out)
    requires BodyFates(s, b, cc, f) && Steady(|s|, f, true) && Valid(|s|, o) && |s| - o.pos < n
    ensures Over(Sem(|s|, Lazy(f, n), o), k) == LoopFate(s, b, cc, false, k, o)
    decreases n
  {
    hide Before, BodyFates, NeedsCheck, Steady, Over;
    Bounds(|s|, f, true, o);
    var t, g, outs := Lazy(f, n - 1), AfterRound(s, b, cc, false, k, o.pos), f(o);
    forall i | 0 <= i < |outs| ensures Over(Sem(|s|, t, outs[i]), k) == g(outs[i]) {
      OverLazy(s, b, cc, f, n - 1, k, outs[i]);
    }
    OverAll(|s|, t, outs, k, g);
    UseBody(s, b, cc, f, o, g);
    OverChoice(false, SemAll(|s|, t, outs), o, k);
  }

  lemma OverIterated(s: seq<byte>, rounds: nat, b: Re, cc: nat, f: Body, min: nat, max: nat, greedy: bool, k: Fates, o: Out)
    requires BodyFates(s, b, cc, f) && Steady(|s|, f, false) && Valid(|s|, o) && |s| < rounds
    requires max == INFINITE && !NeedsCheck(Gen(b, cc), greedy) ==> Steady(|s|, f, true)
    ensures Over(Iterated(|s|, rounds, f, min, max, greedy, o), k) ==
            Must(s, b, cc, min, Optional(s, b, cc, min, max, greedy, k))(o)
  {
    hide Before, BodyFates, Sem, SemAll, Must, UpToFates, LoopFate, Steady, Over;
    var base, g := Sem(|s|, Repeat(f, min), o), Optional(s, b, cc, min, max, greedy, k);
    SemBounded(|s|, Repeat(f, min), o);
    OverRepeat(s, b, cc, f, min, g, o);
    if max == INFINITE {
      var t := Unbounded(f, rounds, greedy);
      forall i | 0 <= i < |base| ensures Over(Sem(|s|, t, base[i]), k) == g(base[i]) {
        if greedy { OverLoop(s, b, cc, f, -1, k, base[i]); } else { OverLazy(s, b, cc, f, rounds, k, base[i]); }
      }
      OverAll(|s|, t, base, k, g);
    } else if max > min {
      var t := UpTo(f, max - min, greedy);
      forall i | 0 <= i < |base| ensures Over(Sem(|s|, t, base[i]), k) == g(base[i]) {
        OverUpTo(s, b, cc, f, max - min, greedy, k, base[i]);
      }
      OverAll(|s|, t, base, k, g);
    } else {
      NoneOptional(s, b, cc, min, max, greedy, k);
    }
  }

  lemma NoneOptional(s: seq<byte>, b: Re, cc: nat, min: nat, max: nat, greedy: bool, k: Fates)
    requires max <= min && max != INFINITE
    ensures Optional(s, b, cc, min, max, greedy, k) == k
  {
  }

  /** Where the lazy loops move on, the fate of a pattern is that of its outcomes in order. */
  lemma {:induction false} FateOfOutcomes(s: seq<byte>, rounds: nat, r: Re, cc: nat, k: Fates, o: Out)
    requires WellFormed(r) && LazyLoopsAdvance(r, s) && |s| < rounds && Valid(|s|, o)
    ensures Before(s, r, cc, k)(o) == Over(Outcomes(s, rounds, r, cc, o), k)
    decreases r, 0
  {
    hide Outcomes, Over, NeverEmpty, Before, LookFate;
    match r
    case Cat(a, b) => FateOfCat(s, rounds, a, b, cc, k, o);
    case Alt(a, b) =>
      FateOfOutcomes(s, rounds, a, cc, k, o);
      FateOfOutcomes(s, rounds, b, cc + Groups(a), k, o);
      OverConcat(Outcomes(s, rounds, a, cc, o), Outcomes(s, rounds, b, cc + Groups(a), o), k);
      AltUnfold(s, rounds, a, b, cc, o);
      BeforeAlt(s, a, b, cc, k, o);
    case Group(b) =>
      var o1 := Opened(cc, o);
      FateOfOutcomes(s, rounds, b, cc + 1, Closing(cc, k), o1);
      OverClosed(cc, Outcomes(s, rounds, b, cc + 1, o1), k);
      GroupUnfold(s, rounds, b, cc, o);
      BeforeGroup(s, b, cc, k, o);
    case Look(negated, b) =>
      FateOfOutcomes(s, rounds, b, cc, MATCHED, o);
      OverLook(negated, o, Outcomes(s, rounds, b, cc, o), k);
      LookUnfold(s, rounds, negated, b, cc, o);
      BeforeLook(s, negated, b, cc, k, o);
    case Quant(b, min, max, greedy) => FateOfQuant(s, rounds, b, min, max, greedy, cc, k, o);
    case _ => FateOfUnit(s, rounds, r, cc, k, o);
  }

  lemma FateOfCat(s: seq<byte>, rounds: nat, a: Re, b: Re, cc: nat, k: Fates, o: Out)
    requires WellFormed(Cat(a, b)) && LazyLoopsAdvance(Cat(a, b), s) && |s| < rounds && Valid(|s|, o)
    ensures Before(s, Cat(a, b), cc, k)(o) == Over(Outcomes(s, rounds, Cat(a, b), cc, o), k)
    decreases Cat(a, b), -1
  {
    hide Outcomes, Over, NeverEmpty, Must, Optional, LookFate, Else, UnitEnd;
    var outs, g, f := Outcomes(s, rounds, a, cc, o), Before(s, b, cc + Groups(a), k), Matcher(s, rounds, b, cc + Groups(a));
    FateOfOutcomes(s, rounds, a, cc, g, o);
    OutcomesBounded(s, rounds, a, cc, o);
    forall i | 0 <= i < |outs| ensures Over(Sem(|s|, Once(f), outs[i]), k) == g(outs[i]) {
      FateOfOutcomes(s, rounds, b, cc + Groups(a), k, outs[i]);
    }
    OverAll(|s|, Once(f), outs, k, g);
    CatUnfold(s, rounds, a, b, cc, o);
  }

  lemma OverLook(negated: bool, o: Out, outs: seq<Out>, k: Fates)
    ensures Over(LookOuts(negated, o, outs), k) == LookFate(negated, Over(outs, MATCHED), o, k)
  {
    OverMatched(outs);
  }

  lemma FateOfUnit(s: seq<byte>, rounds: nat, r: Re, cc: nat, k: Fates, o: Out)
    requires IsUnit(r)
    ensures Before(s, r, cc, k)(o) == Over(Outcomes(s, rounds, r, cc, o), k)
  {
    hide Outcomes, Over;
    UnitOnce(s, rounds, r, cc, o);
    var outs := Outcomes(s, rounds, r, cc, o);
    NoOutcome(k);
    if outs != [] { OverUnit(outs[0], k); }
  }

  lemma NoOutcome(k: Fates)
    ensures Over([], k) == Fallback
  {
  }

  /** One outcome at most, the same whatever the captures are. */
  lemma UnitOnce(s: seq<byte>, rounds: nat, r: Re, cc: nat, o: Out)
    requires IsUnit(r)
    ensures var outs := Outcomes(s, rounds, r, cc, o);
            if outs == [] then UnitEnd(s, r, o.pos) == None
            else outs == [outs[0]] && outs[0].caps == o.caps && UnitEnd(s, r, o.pos) == Some(outs[0].pos)
  {
  }

  lemma FateOfQuant(s: seq<byte>, rounds: nat, b: Re, min: nat, max: nat, greedy: bool, cc: nat, k: Fates, o: Out)
    requires WellFormed(Quant(b, min, max, greedy)) && LazyLoopsAdvance(Quant(b, min, max, greedy), s) && |s| < rounds && Valid(|s|, o)
    ensures Before(s, Quant(b, min, max, greedy), cc, k)(o) == Over(Outcomes(s, rounds, Quant(b, min, max, greedy), cc, o), k)
    decreases Quant(b, min, max, greedy), -1
  {
    hide Outcomes, Over, NeverEmpty, Iterated, Must, Optional, ScanAdvance;
    var f := Matcher(s, rounds, b, cc);
    QuantUnfold(s, rounds, b, min, max, greedy, cc, o);
    if max == 0 {
      FateOfNone(s, rounds, b, min, greedy, cc, f, k, Enter(min, Groups(b), cc, o));
      return;
    }
    forall o: Out, k: Fates | Valid(|s|, o) ensures Over(f(o), k) == Before(s, b, cc, k)(o) {
      FateOfOutcomes(s, rounds, b, cc, k, o);
    }
    MatcherSteady(s, rounds, b, cc);
    if max == INFINITE && !NeedsCheck(Gen(b, cc), greedy) {
      if greedy { AdvanceSteady(s, rounds, b, cc); } else { NeverEmptySteady(s, rounds, b, cc); }
    }
    OverIterated(s, rounds, b, cc, f, min, max, greedy, k, Enter(min, Groups(b), cc, o));
  }

  lemma FateOfNone(s: seq<byte>, rounds: nat, b: Re, min: nat, greedy: bool, cc: nat, f: Body, k: Fates, o: Out)
    requires min == 0
    ensures Must(s, b, cc, min, Optional(s, b, cc, min, 0, greedy, k))(o) == Over(Iterated(|s|, rounds, f, min, 0, greedy, o), k)
  {
    hide Before;
    OverUnit(o, k);
  }
}
