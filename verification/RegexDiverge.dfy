/** Lazy unbounded loops get no zero-advance check: which runs halt, and that those that do
    are right. */
module RegexDiverge {
  import opened Basics
  import opened RegexSyntax
  import opened RegexOutcomes
  import opened RegexLanguage
  import opened RegexCode
  import opened RegexGen
  import opened RegexVM
  import opened RegexQuant
  import opened RegexGreedy
  import opened RegexSim
  import opened RegexSearch
  import opened RegexInvariant
  import opened RegexFate
  import opened RegexHalts

  // ----- Lazy loops that must be exhausted -----

  /** The pattern (?:b)*?[] : a lazy loop in front of an empty class. */
  function Endless(b: Re): Re {
    Cat(Quant(b, 0, INFINITE, false), Class([]))
  }

  /** Behind which nothing succeeds. */
  ghost predicate Unlucky(outs: seq<Out>, k: Fates) {
    forall i :: 0 <= i < |outs| ==> !k(outs[i]).Success?
  }

  lemma {:induction false} UnluckyOver(outs: seq<Out>, k: Fates)
    requires Unlucky(outs, k)
    ensures Over(outs, k) == if exists i :: 0 <= i < |outs| && k(outs[i]) == Forever then Forever else Fallback
    decreases |outs|
  {
    if outs != [] {
      UnluckyOver(outs[1..], k);
      if i :| 0 <= i < |outs| && k(outs[i]) == Forever {
        assert i == 0 || outs[1..][i - 1] == outs[i];
      }
    }
  }

  lemma BodyOutcomes(s: seq<byte>, b: Re, k: Fates, o: Out) returns (outs: seq<Out>)
    requires WellFormed(b) && LazyLoopsAdvance(b, s) && Valid(|s|, o)
    ensures Before(s, b, 1, k)(o) == Over(outs, k) && forall i :: 0 <= i < |outs| ==> o.pos <= outs[i].pos <= |s|
    ensures (exists i :: 0 <= i < |outs| && outs[i].pos == o.pos) <==> Language(b, s)(o.pos, o.pos)
  {
    hide Outcomes, Before, Over, Language, LazyLoopsAdvance;
    var rounds := |s| + 1;
    outs := Outcomes(s, rounds, b, 1, o);
    FateOfOutcomes(s, rounds, b, 1, k, o);
    OutcomesBounded(s, rounds, b, 1, o);
    OutcomesExact(s, rounds, b, 1, o);
    assert o.pos in Positions(outs) <==> exists i :: 0 <= i < |outs| && outs[i].pos == o.pos;
  }

  ghost predicate Fails(k: Fates) {
    forall o: Out :: k(o) == Fallback
  }

  /** A lazy loop that cannot be left runs for ever from a position if its body matches the
      empty string there, and falls back if it does so nowhere. */
  lemma {:induction false} LoopFalls(s: seq<byte>, b: Re, k: Fates, o: Out)
    requires WellFormed(b) && LazyLoopsAdvance(b, s) && Valid(|s|, o) && Fails(k)
    ensures !LoopFate(s, b, 1, false, k, o).Success?
    ensures Language(b, s)(o.pos, o.pos) ==> LoopFate(s, b, 1, false, k, o) == Forever
    ensures NeverEmpty(b, s) ==> LoopFate(s, b, 1, false, k, o) == Fallback
    decreases |s| - o.pos
  {
    hide Before, Over, Language, LazyLoopsAdvance;
    var g := AfterRound(s, b, 1, false, k, o.pos);
    var outs := BodyOutcomes(s, b, g, o);
    forall i | 0 <= i < |outs|
      ensures !g(outs[i]).Success? && (outs[i].pos == o.pos ==> g(outs[i]) == Forever)
      ensures NeverEmpty(b, s) ==> g(outs[i]) == Fallback
    {
      if outs[i].pos > o.pos { LoopFalls(s, b, k, outs[i]); }
    }
    UnluckyOver(outs, g);
  }

  lemma EndlessBefore(s: seq<byte>, b: Re, o: Out) returns (k: Fates, o1: Out)
    ensures Before(s, Group(Endless(b)), 0, MATCHED)(o) == LoopFate(s, b, 1, false, k, o1) && Fails(k) && o1.pos == o.pos
  {
    hide LoopFate, UnitEnd;
    var q, end := Quant(b, 0, INFINITE, false), Closing(0, MATCHED);
    k := Before(s, Class([]), 1 + Groups(q), end);
    o1 := Enter(0, Groups(b), 1, Opened(0, o));
    forall p: Out ensures k(p) == Fallback { NoClass(s, p.pos); }
    assert Must(s, b, 1, 0, Optional(s, b, 1, 0, INFINITE, false, k)) == Optional(s, b, 1, 0, INFINITE, false, k);
    assert Before(s, q, 1, k)(Opened(0, o)) == LoopFate(s, b, 1, false, k, o1);
    assert Before(s, Endless(b), 1, end) == Before(s, q, 1, k);
  }

  lemma NoClass(s: seq<byte>, pos: int)
    ensures UnitEnd(s, Class([]), pos) == None
  {
  }

  lemma {:induction false} EndlessSearch(s: seq<byte>, b: Re, from: nat)
    requires WellFormed(b) && LazyLoopsAdvance(b, s) && from <= |s|
    ensures !SearchFate(s, Endless(b), from).Success?
    ensures (exists j :: from <= j <= |s| && Language(b, s)(j, j)) ==> SearchFate(s, Endless(b), from) == Forever
    ensures NeverEmpty(b, s) ==> SearchFate(s, Endless(b), from) == Fallback
    decreases |s| - from
  {
    hide Before, LoopFate, Language, LazyLoopsAdvance, NeverEmpty, Endless, Fails;
    var k, o := EndlessBefore(s, b, Out(from, NullCaps(Groups(Endless(b)))));
    LoopFalls(s, b, k, o);
    if from < |s| { EndlessSearch(s, b, from + 1); }
  }

  /** A lazy loop that must be exhausted halts on `s` exactly when its body matches the
      empty string nowhere in `s`. */
  lemma EndlessHalts(m: Machine, b: Re)
    requires CodeAt(m.fetch, 0, Program(Endless(b))) && Sized(m) && Whole(m) && WellFormed(b) && LazyLoopsAdvance(b, m.s)
    ensures (exists d: Config :: d.Done? && Reaches(m, Start(Endless(b), 0), d)) <==> NeverEmpty(b, m.s)
  {
    hide CodeAt, Program, Sized, SearchFate, LazyLoopsAdvance, Language;
    EndlessSearch(m.s, b, 0);
    RunEnds(m, Endless(b), 0);
  }

  /** A run halts exactly when its fate is not to run for ever. */
  lemma RunEnds(m: Machine, r: Re, from: nat)
    requires CodeAt(m.fetch, 0, Program(r)) && Sized(m) && Whole(m) && WellFormed(r) && from <= |m.s|
    ensures (exists d: Config :: d.Done? && Reaches(m, Start(r, from), d)) <==> SearchFate(m.s, r, from) != Forever
  {
    hide CodeAt, Program, Sized, SearchFate;
    RunHalts(m, r, from);
  }

  /** The shortest such pattern, on the empty line: (?:)*?[] never halts. */
  lemma EmptyBodyRunsForever(m: Machine)
    requires CodeAt(m.fetch, 0, Program(Endless(Empty))) && Sized(m) && Whole(m) && m.s == []
    ensures Diverges(m, Start(Endless(Empty), 0))
  {
    hide CodeAt, Program, Sized, Diverges, SearchFate;
    assert Language(Empty, m.s)(0, 0);
    EndlessSearch(m.s, Empty, 0);
    RunHalts(m, Endless(Empty), 0);
  }

  /** The body of every lazy unbounded loop passes the scan that the compiler makes for
      greedy ones. */
  predicate LazyLoopsScanned(r: Re, cc: nat) {
    match r
    case Cat(a, b) => LazyLoopsScanned(a, cc) && LazyLoopsScanned(b, cc + Groups(a))
    case Alt(a, b) => LazyLoopsScanned(a, cc) && LazyLoopsScanned(b, cc + Groups(a))
    case Group(b) => LazyLoopsScanned(b, cc + 1)
    case Look(_, b) => LazyLoopsScanned(b, cc)
    case Quant(b, _, max, greedy) =>
      max == 0 || (LazyLoopsScanned(b, cc) && (max == INFINITE && !greedy ==> CheckAdvance(Gen(b, cc)) == 1))
    case _ => true
  }

  lemma {:induction false} ScannedAdvance(r: Re, cc: nat, s: seq<byte>)
    requires WellFormed(r) && LazyLoopsScanned(r, cc)
    ensures LazyLoopsAdvance(r, s)
    decreases r
  {
    hide CheckAdvance, Gen, NeverEmpty;
    match r
    case Cat(a, b) => ScannedAdvance(a, cc, s); ScannedAdvance(b, cc + Groups(a), s);
    case Alt(a, b) => ScannedAdvance(a, cc, s); ScannedAdvance(b, cc + Groups(a), s);
    case Group(b) => ScannedAdvance(b, cc + 1, s);
    case Look(_, b) => ScannedAdvance(b, cc, s);
    case Quant(b, _, max, greedy) =>
      if max > 0 { ScannedAdvance(b, cc, s); }
      if max == INFINITE && !greedy { AdvanceNeverEmpty(b, s, cc); }
    case _ =>
  }

  /** For patterns whose lazy loops pass the scan: every run halts and its result is right. */
  lemma ScannedAnswers(m: Machine, r: Re, from: nat) returns (result: Option<seq<int>>)
    requires CodeAt(m.fetch, 0, Program(r)) && Sized(m) && Whole(m) && WellFormed(r) && LazyLoopsScanned(r, 1) && from <= |m.s|
    ensures Reaches(m, Start(r, from), Done(result)) && Answer(r, m.s, from, result)
  {
    hide CodeAt, Program, Sized, Answer, Search, LazyLoopsScanned, LazyLoopsAdvance;
    ScannedAdvance(r, 1, m.s);
    RunSearches(m, r, from);
    SearchAnswers(m.s, m.rounds, r, from);
    result := Search(m.s, m.rounds, r, from);
  }

  // ----- Runs that halt -----

  /** The captures of the first outcome in order, however many rounds of its lazy loops are
      looked at, if they are enough. */
  ghost predicate FirstFound(r: Re, s: seq<byte>, from: nat, result: Option<seq<int>>)
    requires from <= |s|
  {
    exists k: nat :: FoundWith(r, s, from, result, k)
  }

  /** Looking at `k` rounds is enough. */
  ghost predicate FoundWith(r: Re, s: seq<byte>, from: nat, result: Option<seq<int>>, k: nat)
    requires from <= |s|
  {
    forall rounds: nat :: rounds >= k ==> result == Search(s, rounds, r, from)
  }

  /** For every pattern: a run that halts has the right result, the first in order.  Lazy
      loops that can match the empty string may keep a run from halting, but not mislead it. */
  lemma HaltedRunAnswers(m: Machine, r: Re, from: nat, n: nat)
    requires CodeAt(m.fetch, 0, Program(r)) && Sized(m) && WellFormed(r) && from <= |m.s|
    requires Steps(m, Start(r, from), n).Done?
    ensures Answer(r, m.s, from, Steps(m, Start(r, from), n).result)
    ensures FirstFound(r, m.s, from, Steps(m, Start(r, from), n).result)
  {
    hide CodeAt, Program, Sized, Answer, Search, Steps;
    var result := Steps(m, Start(r, from), n).result;
    forall rounds: nat | rounds >= n + |m.s| + 1 ensures result == Search(m.s, rounds, r, from) {
      HaltedRunSearches(m, r, from, n, rounds);
    }
    assert FoundWith(r, m.s, from, result, n + |m.s| + 1);
    SearchAnswers(m.s, n + |m.s| + 1, r, from);
  }

  lemma HaltedRunSearches(m: Machine, r: Re, from: nat, n: nat, rounds: nat)
    requires CodeAt(m.fetch, 0, Program(r)) && Sized(m) && WellFormed(r) && from <= |m.s| && n + |m.s| < rounds
    requires Steps(m, Start(r, from), n).Done?
    ensures Steps(m, Start(r, from), n).result == Search(m.s, rounds, r, from)
  {
    hide CodeAt, Program, Search, Steps, LazyLoopsAdvance;
    var w, c := m.(rounds := rounds, fuel := Some(n)), Start(r, from);
    SizedAlike(m, w);
    RunSearches(w, r, from);
    SameRun(m, w, c, n);
    var k: nat :| Steps(w, c, k) == Done(Search(m.s, rounds, r, from));
    OneEnd(w, c, k, n);
  }

  lemma SizedAlike(m: Machine, w: Machine)
    requires SameProgram(m, w) && Sized(m)
    ensures Sized(w)
  {
  }
}
