/** The order of preference is a strict one, so a search has one answer; what that answer is for
    greedy and lazy iterations. */
module RegexPreference {
  import opened Basics
  import opened RegexSyntax
  import opened RegexOutcomes
  import opened RegexSearch
  import opened RegexFate
  import opened RegexDerivations

  // ----- The order -----

  lemma {:induction false} Asymmetric(r: Re, x: Tree, y: Tree)
    requires Precedes(r, x, y)
    ensures !Precedes(r, y, x) && x != y
    decreases r, 0, 0
  {
    hide AllPrecede;
    match r
    case Cat(a, b) => if Precedes(a, x.x, y.x) { Asymmetric(a, x.x, y.x); } else { Asymmetric(b, x.y, y.y); }
    case Alt(a, b) =>
      if x.Left? && y.Left? { Asymmetric(a, x.x, y.x); }
      if x.Right? && y.Right? { Asymmetric(b, x.x, y.x); }
    case Group(b) => Asymmetric(b, x.x, y.x);
    case Look(_, b) => Asymmetric(b, x.x, y.x);
    case Quant(b, _, _, greedy) => AllAsymmetric(b, greedy, x.xs, y.xs);
    case _ =>
  }

  lemma {:induction false} AllAsymmetric(b: Re, greedy: bool, xs: seq<Tree>, ys: seq<Tree>)
    requires AllPrecede(b, greedy, xs, ys)
    ensures !AllPrecede(b, greedy, ys, xs) && xs != ys
    decreases b, 1, |xs|
  {
    hide Precedes;
    if xs != [] && ys != [] {
      if Precedes(b, xs[0], ys[0]) { Asymmetric(b, xs[0], ys[0]); } else { AllAsymmetric(b, greedy, xs[1..], ys[1..]); }
    }
  }

  lemma {:induction false} Transitive(r: Re, x: Tree, y: Tree, z: Tree)
    requires Precedes(r, x, y) && Precedes(r, y, z)
    ensures Precedes(r, x, z)
    decreases r, 0, 0
  {
    hide AllPrecede;
    match r
    case Cat(a, b) =>
      if Precedes(a, x.x, y.x) && Precedes(a, y.x, z.x) { Transitive(a, x.x, y.x, z.x); }
      if !Precedes(a, x.x, y.x) && !Precedes(a, y.x, z.x) { Transitive(b, x.y, y.y, z.y); }
    case Alt(a, b) =>
      if x.Left? && z.Left? { Transitive(a, x.x, y.x, z.x); }
      if x.Right? { Transitive(b, x.x, y.x, z.x); }
    case Group(b) => Transitive(b, x.x, y.x, z.x);
    case Look(_, b) => Transitive(b, x.x, y.x, z.x);
    case Quant(b, _, _, greedy) => AllTransitive(b, greedy, x.xs, y.xs, z.xs);
    case _ =>
  }

  lemma {:induction false} AllTransitive(b: Re, greedy: bool, xs: seq<Tree>, ys: seq<Tree>, zs: seq<Tree>)
    requires AllPrecede(b, greedy, xs, ys) && AllPrecede(b, greedy, ys, zs)
    ensures AllPrecede(b, greedy, xs, zs)
    decreases b, 1, |xs|
  {
    hide Precedes;
    if xs != [] && ys != [] && zs != [] {
      if Precedes(b, xs[0], ys[0]) && Precedes(b, ys[0], zs[0]) { Transitive(b, xs[0], ys[0], zs[0]); }
      if xs[0] == ys[0] == zs[0] && !Precedes(b, xs[0], ys[0]) && !Precedes(b, ys[0], zs[0]) {
        AllTransitive(b, greedy, xs[1..], ys[1..], zs[1..]);
      }
    }
  }

  lemma FirstReads(s: seq<byte>, r: Re, i: int, d: Tree, caps: seq<int>)
    requires IsFirst(s, r, i, d, caps)
    ensures !NoReading(s, r, i)
  {
    hide Reading;
  }

  /** A search has one answer. */
  lemma OneAnswer(s: seq<byte>, r: Re, from: int, a: Option<seq<int>>, b: Option<seq<int>>)
    requires Preferred(s, r, from, a) && Preferred(s, r, from, b)
    ensures a == b
  {
    hide Reading, Precedes, NoReading;
    if a.Some? {
      var i, d :| from <= i <= |s| && IsFirst(s, r, i, d, a.value) && forall h :: from <= h < i ==> NoReading(s, r, h);
      FirstReads(s, r, i, d, a.value);
      if b.Some? {
        var j, e :| from <= j <= |s| && IsFirst(s, r, j, e, b.value) && forall h :: from <= h < j ==> NoReading(s, r, h);
        FirstReads(s, r, j, e, b.value);
        if d != e { Asymmetric(Group(r), d, e); }
      }
    } else if b.Some? {
      var j, e :| from <= j <= |s| && IsFirst(s, r, j, e, b.value);
      FirstReads(s, r, j, e, b.value);
    }
  }

  // ----- Greedy and lazy -----

  /** What a quantified pattern matches is its iterations. */
  lemma QuantReading(s: seq<byte>, b: Re, min: nat, max: nat, greedy: bool, i: int, xs: seq<Tree>)
    requires min <= max
    ensures var caps := Opened0(Groups(b), i);
            var p := Rounds(s, b, 1, min, if max == INFINITE then max else max - min, greedy, xs, Out(i, caps));
            Reading(s, Quant(b, min, max, greedy), i, Inside(Times(xs))) ==
            if p == None then None else Some(p.value.(caps := SetCap(p.value.caps, 1, p.value.pos)))
  {
    hide Rounds, Replay, Before;
    var r, o, o1 := Quant(b, min, max, greedy), Out(i, NullCaps(Groups(b))), Out(i, Opened0(Groups(b), i));
    GroupStep(s, r, 0, MATCHED, Inside(Times(xs)), o);
    assert Opened(0, o) == o1;
    assert Cleared(o1.caps, 1, 1 + Groups(b)) == o1.caps;
    QuantStep(s, b, min, max, greedy, 1, Times(xs), o1);
  }

  function Opened0(groups: nat, i: int): seq<int> {
    NullCaps(groups)[0 := i]
  }

  /** A lazy quantifier that may match nothing does. */
  lemma LazyMatchesNothing(s: seq<byte>, b: Re, max: nat, from: int, result: Option<seq<int>>)
    requires 0 <= from <= |s| && Preferred(s, Quant(b, 0, max, false), from, result)
    ensures result == Some(NullCaps(Groups(b))[0 := from][1 := from])
  {
    hide Reading;
    var r, d, caps := Quant(b, 0, max, false), Inside(Times([])), NullCaps(Groups(b))[0 := from][1 := from];
    QuantReading(s, b, 0, max, false, from, []);
    forall y | Reading(s, r, from, y).Some? && y != d ensures Precedes(Group(r), d, y) {
      ReadingForm(s, b, 0, max, false, from, y);
      assert y.x == Times(y.x.xs) && Precedes(r, d.x, y.x);
    }
    assert IsFirst(s, r, from, d, caps);
    OneAnswer(s, r, from, result, Some(caps));
  }

  lemma ReadingForm(s: seq<byte>, b: Re, min: nat, max: nat, greedy: bool, i: int, d: Tree)
    requires Reading(s, Quant(b, min, max, greedy), i, d).Some?
    ensures d.Inside? && d.x.Times? && min <= max
  {
    hide Rounds, Replay, Before;
    var o := Out(i, NullCaps(Groups(b)));
    GroupStep(s, Quant(b, min, max, greedy), 0, MATCHED, d, o);
    QuantStep(s, b, min, max, greedy, 1, d.x, Opened(0, o));
  }

  predicate TakesOne(b: Re) {
    b.Char? || b.Dot? || b.Class?
  }

  /** `n` characters from `i` on that `b` accepts. */
  ghost predicate Run(s: seq<byte>, b: Re, i: int, n: nat) {
    0 <= i && i + n <= |s| && forall k :: i <= k < i + n ==> AcceptedAt(s, b, k)
  }

  ghost predicate AcceptedAt(s: seq<byte>, b: Re, k: int) {
    Matches(b, s, k, k + 1)
  }

  predicate AllLeaves(xs: seq<Tree>) {
    forall k :: 0 <= k < |xs| ==> xs[k] == Leaf
  }

  lemma OneReplay(s: seq<byte>, b: Re, cc: nat, d: Tree, o: Out)
    requires TakesOne(b) && 0 <= o.pos <= |s|
    ensures Replay(s, b, cc, d, o) == if d == Leaf && Run(s, b, o.pos, 1) then Some(o.(pos := o.pos + 1)) else None
  {
    assert Run(s, b, o.pos, 1) <==> o.pos < |s| && AcceptedAt(s, b, o.pos);
  }

  lemma {:induction false} OneRounds(s: seq<byte>, b: Re, cc: nat, n: nat, m: nat, greedy: bool, xs: seq<Tree>, o: Out)
    requires TakesOne(b) && 0 <= o.pos <= |s| && m <= INFINITE
    ensures Rounds(s, b, cc, n, m, greedy, xs, o) ==
            if AllLeaves(xs) && n <= |xs| && (m == INFINITE || |xs| <= n + m) && Run(s, b, o.pos, |xs|)
            then Some(o.(pos := o.pos + |xs|)) else None
    decreases |xs|
  {
    hide Replay, AcceptedAt;
    if xs != [] {
      assert xs == [xs[0]] + xs[1..];
      OneReplay(s, b, cc, xs[0], o);
      if xs[0] == Leaf && Run(s, b, o.pos, 1) {
        var more := if n > 0 || m == INFINITE then m else if m > 0 then m - 1 else 0;
        OneRounds(s, b, cc, if n > 0 then n - 1 else n, more, greedy, xs[1..], o.(pos := o.pos + 1));
        assert AllLeaves(xs) <==> AllLeaves(xs[1..]);
        assert Run(s, b, o.pos, |xs|) <==> Run(s, b, o.pos + 1, |xs| - 1);
      }
    }
  }

  /** A greedy atom of one character takes as many of a run as it may, a lazy one as few. */
  lemma AtomTakes(s: seq<byte>, b: Re, min: nat, max: nat, greedy: bool, from: int, n: nat, result: Option<seq<int>>)
    requires TakesOne(b) && min <= max <= INFINITE && min < INFINITE && min <= n && Run(s, b, from, n) && !Run(s, b, from, n + 1)
    requires Preferred(s, Quant(b, min, max, greedy), from, result)
    ensures result == Some([from, from + if !greedy then min else if max == INFINITE || n < max then n else max])
  {
    hide Reading, AcceptedAt;
    var r := Quant(b, min, max, greedy);
    var q := if !greedy then min else if max == INFINITE || n < max then n else max;
    var xs := seq(q, _ => Leaf);
    var d, caps := Inside(Times(xs)), [from, from + q];
    AtomReading(s, b, min, max, greedy, from, xs);
    forall y | Reading(s, r, from, y).Some? && y != d ensures Precedes(Group(r), d, y) {
      ReadingForm(s, b, min, max, greedy, from, y);
      AtomReading(s, b, min, max, greedy, from, y.x.xs);
      LeavesPrecede(b, greedy, xs, y.x.xs);
    }
    assert IsFirst(s, r, from, d, caps);
    OneAnswer(s, r, from, result, Some(caps));
  }

  lemma AtomReading(s: seq<byte>, b: Re, min: nat, max: nat, greedy: bool, i: int, xs: seq<Tree>)
    requires TakesOne(b) && min <= max <= INFINITE && min < INFINITE && 0 <= i <= |s|
    ensures Reading(s, Quant(b, min, max, greedy), i, Inside(Times(xs))) ==
            if AllLeaves(xs) && min <= |xs| && (max == INFINITE || |xs| <= max) && Run(s, b, i, |xs|)
            then Some(Out(i + |xs|, [i, i + |xs|])) else None
  {
    hide Reading, Rounds, AcceptedAt;
    QuantReading(s, b, min, max, greedy, i, xs);
    OneRounds(s, b, 1, min, if max == INFINITE then max else max - min, greedy, xs, Out(i, Opened0(0, i)));
    assert SetCap(Opened0(0, i), 1, i + |xs|) == [i, i + |xs|];
  }

  lemma {:induction false} LeavesPrecede(b: Re, greedy: bool, xs: seq<Tree>, ys: seq<Tree>)
    requires AllLeaves(xs) && AllLeaves(ys) && (if greedy then |xs| > |ys| else |xs| < |ys|)
    ensures AllPrecede(b, greedy, xs, ys)
    decreases |xs|
  {
    if xs != [] && ys != [] { LeavesPrecede(b, greedy, xs[1..], ys[1..]); }
  }
}
