/** Derivations of a match, the order in which they are preferred, and that a search finds the
    most preferred one. */
module RegexDerivations {
  import opened Basics
  import opened RegexSyntax
  import opened RegexOutcomes
  import opened RegexLanguage
  import opened RegexSearch
  import opened RegexFate

  /** How a pattern matches: which alternative was taken, and what each iteration did. */
  datatype Tree =
    | Leaf
    | Both(x: Tree, y: Tree)
    | Left(x: Tree)
    | Right(x: Tree)
    | Inside(x: Tree)
    | Times(xs: seq<Tree>)

  /** The slots of groups lo to hi - 1 without a value. */
  function Cleared(caps: seq<int>, lo: nat, hi: nat): seq<int> {
    seq(|caps|, i requires 0 <= i < |caps| => if 2 * lo <= i < 2 * hi then -1 else caps[i])
  }

  /** Where a derivation ends and what its groups have captured, if it is one from `o`.  A
      quantifier that may match nothing forgets its groups first. */
  ghost function Replay(s: seq<byte>, r: Re, cc: nat, d: Tree, o: Out): Option<Out>
    decreases r, 0, 0
  {
    match r
    case Cat(a, b) =>
      if !d.Both? then None
      else (match Replay(s, a, cc, d.x, o) case None => None case Some(p) => Replay(s, b, cc + Groups(a), d.y, p))
    case Alt(a, b) =>
      if d.Left? then Replay(s, a, cc, d.x, o) else if d.Right? then Replay(s, b, cc + Groups(a), d.x, o) else None
    case Group(b) =>
      if !d.Inside? then None
      else (match Replay(s, b, cc + 1, d.x, o.(caps := SetCap(o.caps, 2 * cc, o.pos)))
            case None => None
            case Some(p) => Some(p.(caps := SetCap(p.caps, 2 * cc + 1, p.pos))))
    case Look(negated, b) =>
      if negated then if d.Leaf? && forall x :: Replay(s, b, cc, x, o) == None then Some(o) else None
      else if !d.Inside? then None
      else (match Replay(s, b, cc, d.x, o) case None => None case Some(p) => Some(Out(o.pos, p.caps)))
    case Quant(b, min, max, greedy) =>
      if !d.Times? || max < min then None
      else Rounds(s, b, cc, min, if max == INFINITE then max else max - min, greedy, d.xs,
                  if min == 0 then o.(caps := Cleared(o.caps, cc, cc + Groups(b))) else o)
    case _ =>
      if !d.Leaf? then None
      else if Matches(r, s, o.pos, o.pos) then Some(o)
      else if Matches(r, s, o.pos, o.pos + 1) then Some(o.(pos := o.pos + 1))
      else None
  }

  /** `n` iterations that must be and up to `m` that may.  In a greedy loop without a limit an
      iteration that may be and does not move is the last one. */
  ghost function Rounds(s: seq<byte>, b: Re, cc: nat, n: nat, m: nat, greedy: bool, xs: seq<Tree>, o: Out): Option<Out>
    decreases b, 1, |xs|
  {
    if xs == [] then if n == 0 then Some(o) else None
    else if n == 0 && m == 0 then None
    else match Replay(s, b, cc, xs[0], o)
      case None => None
      case Some(p) =>
        if n > 0 then Rounds(s, b, cc, n - 1, m, greedy, xs[1..], p)
        else if m == INFINITE && greedy && p.pos == o.pos then if |xs| == 1 then Some(p) else None
        else Rounds(s, b, cc, n, if m == INFINITE then m else m - 1, greedy, xs[1..], p)
  }

  // ----- Preference -----

  /** The left alternative before the right one, the first part before the second; more
      iterations before fewer when greedy, and fewer before more when lazy. */
  ghost predicate Precedes(r: Re, x: Tree, y: Tree)
    decreases r, 0, 0
  {
    match r
    case Cat(a, b) => x.Both? && y.Both? && (Precedes(a, x.x, y.x) || (x.x == y.x && Precedes(b, x.y, y.y)))
    case Alt(a, b) =>
      || (x.Left? && y.Right?)
      || (x.Left? && y.Left? && Precedes(a, x.x, y.x))
      || (x.Right? && y.Right? && Precedes(b, x.x, y.x))
    case Group(b) => x.Inside? && y.Inside? && Precedes(b, x.x, y.x)
    case Look(_, b) => x.Inside? && y.Inside? && Precedes(b, x.x, y.x)
    case Quant(b, _, _, greedy) => x.Times? && y.Times? && AllPrecede(b, greedy, x.xs, y.xs)
    case _ => false
  }

  ghost predicate AllPrecede(b: Re, greedy: bool, xs: seq<Tree>, ys: seq<Tree>)
    decreases b, 1, |xs|
  {
    if xs == [] then !greedy && ys != []
    else if ys == [] then greedy
    else Precedes(b, xs[0], ys[0]) || (xs[0] == ys[0] && AllPrecede(b, greedy, xs[1..], ys[1..]))
  }

  /** Of two derivations from the same place one is preferred. */
  lemma {:induction false} Total(s: seq<byte>, r: Re, cc: nat, o: Out, x: Tree, y: Tree)
    requires Replay(s, r, cc, x, o).Some? && Replay(s, r, cc, y, o).Some?
    ensures x == y || Precedes(r, x, y) || Precedes(r, y, x)
    decreases r, 0, 0
  {
    hide Matches, Rounds;
    match r
    case Cat(a, b) =>
      Total(s, a, cc, o, x.x, y.x);
      if x.x == y.x { Total(s, b, cc + Groups(a), Replay(s, a, cc, x.x, o).value, x.y, y.y); }
    case Alt(a, b) =>
      if x.Left? && y.Left? { Total(s, a, cc, o, x.x, y.x); }
      if x.Right? && y.Right? { Total(s, b, cc + Groups(a), o, x.x, y.x); }
    case Group(b) => Total(s, b, cc + 1, o.(caps := SetCap(o.caps, 2 * cc, o.pos)), x.x, y.x);
    case Look(negated, b) => if !negated { Total(s, b, cc, o, x.x, y.x); }
    case Quant(b, min, max, greedy) =>
      AllTotal(s, b, cc, min, if max == INFINITE then max else max - min, greedy, x.xs, y.xs,
               if min == 0 then o.(caps := Cleared(o.caps, cc, cc + Groups(b))) else o);
    case _ =>
  }

  lemma {:induction false} AllTotal(s: seq<byte>, b: Re, cc: nat, n: nat, m: nat, greedy: bool, xs: seq<Tree>, ys: seq<Tree>, o: Out)
    requires Rounds(s, b, cc, n, m, greedy, xs, o).Some? && Rounds(s, b, cc, n, m, greedy, ys, o).Some?
    ensures xs == ys || AllPrecede(b, greedy, xs, ys) || AllPrecede(b, greedy, ys, xs)
    decreases b, 1, |xs|
  {
    hide Replay, Precedes;
    if xs != [] && ys != [] {
      Total(s, b, cc, o, xs[0], ys[0]);
      if xs[0] == ys[0] {
        assert xs == [xs[0]] + xs[1..] && ys == [ys[0]] + ys[1..];
        var p := Replay(s, b, cc, xs[0], o).value;
        if n > 0 {
          AllTotal(s, b, cc, n - 1, m, greedy, xs[1..], ys[1..], p);
        } else if !(m == INFINITE && greedy && p.pos == o.pos) {
          AllTotal(s, b, cc, n, if m == INFINITE then m else m - 1, greedy, xs[1..], ys[1..], p);
        }
      }
    }
  }

  // ----- Derivations move forward -----

  predicate Forward(s: seq<byte>, o: Out, p: Option<Out>) {
    p.Some? ==> o.pos <= p.value.pos <= |s|
  }

  lemma {:induction false} ReplayForward(s: seq<byte>, r: Re, cc: nat, d: Tree, o: Out)
    requires Valid(|s|, o)
    ensures Forward(s, o, Replay(s, r, cc, d, o))
    decreases r, 0, 0
  {
    hide Replay, Before, Rounds;
    match r
    case Cat(a, b) =>
      CatStep(s, a, b, cc, MATCHED, d, o);
      if d.Both? {
        ReplayForward(s, a, cc, d.x, o);
        var p := Replay(s, a, cc, d.x, o);
        if p.Some? { ReplayForward(s, b, cc + Groups(a), d.y, p.value); }
      }
    case Alt(a, b) =>
      AltStep(s, a, b, cc, MATCHED, d, o);
      if d.Left? { ReplayForward(s, a, cc, d.x, o); }
      if d.Right? { ReplayForward(s, b, cc + Groups(a), d.x, o); }
    case Group(b) =>
      GroupStep(s, b, cc, MATCHED, d, o);
      if d.Inside? { ReplayForward(s, b, cc + 1, d.x, Opened(cc, o)); }
    case Look(negated, b) => LookStep(s, negated, b, cc, MATCHED, d, o);
    case Quant(b, min, max, greedy) =>
      QuantStep(s, b, min, max, greedy, cc, d, o);
      if d.Times? && min <= max {
        RoundsForward(s, b, cc, min, if max == INFINITE then max else max - min, greedy, d.xs,
                      if min == 0 then o.(caps := Cleared(o.caps, cc, cc + Groups(b))) else o);
      }
    case _ => UnitForward(s, r, cc, d, o);
  }

  lemma UnitForward(s: seq<byte>, r: Re, cc: nat, d: Tree, o: Out)
    requires IsUnit(r) && Valid(|s|, o)
    ensures Forward(s, o, Replay(s, r, cc, d, o))
  {
  }

  lemma {:induction false} RoundsForward(s: seq<byte>, b: Re, cc: nat, n: nat, m: nat, greedy: bool, xs: seq<Tree>, o: Out)
    requires Valid(|s|, o)
    ensures Forward(s, o, Rounds(s, b, cc, n, m, greedy, xs, o))
    decreases b, 1, |xs|
  {
    hide Replay;
    if xs != [] && (n > 0 || m > 0) {
      ReplayForward(s, b, cc, xs[0], o);
      var p := Replay(s, b, cc, xs[0], o);
      if p.Some? {
        if n > 0 {
          RoundsForward(s, b, cc, n - 1, m, greedy, xs[1..], p.value);
        } else {
          RoundsForward(s, b, cc, n, if m == INFINITE then m else m - 1, greedy, xs[1..], p.value);
        }
      }
    }
  }

  // ----- Where the run falls back, all derivations fail -----

  lemma UnitReplay(s: seq<byte>, r: Re, cc: nat, o: Out)
    requires IsUnit(r) && Valid(|s|, o)
    ensures Replay(s, r, cc, Leaf, o) == match UnitEnd(s, r, o.pos) case None => None case Some(q) => Some(o.(pos := q))
  {
  }

  lemma EnterCleared(min: nat, groups: nat, cc: nat, o: Out)
    ensures Enter(min, groups, cc, o) == if min == 0 then o.(caps := Cleared(o.caps, cc, cc + groups)) else o
  {
    if min == 0 { assert Enter(min, groups, cc, o).caps == Cleared(o.caps, cc, cc + groups); }
  }

  /** The iterations that may be. */
  function Tail(s: seq<byte>, b: Re, cc: nat, m: nat, greedy: bool, k: Fates): Fates {
    if m == INFINITE then o => LoopFate(s, b, cc, greedy, k, o) else UpToFates(s, b, cc, m, greedy, k)
  }

  lemma QuantBefore(s: seq<byte>, b: Re, min: nat, max: nat, greedy: bool, cc: nat, k: Fates, o: Out)
    requires min <= max <= INFINITE && min < INFINITE
    ensures var m := if max == INFINITE then max else max - min;
            var o1 := if min == 0 then o.(caps := Cleared(o.caps, cc, cc + Groups(b))) else o;
            Before(s, Quant(b, min, max, greedy), cc, k)(o) == Must(s, b, cc, min, Tail(s, b, cc, m, greedy, k))(o1)
  {
    hide Must, LoopFate, UpToFates;
    EnterCleared(min, Groups(b), cc, o);
    var m := if max == INFINITE then max else max - min;
    assert Optional(s, b, cc, min, max, greedy, k) == Tail(s, b, cc, m, greedy, k);
  }

  // ----- The definitions, case by case -----

  lemma CatBefore(s: seq<byte>, a: Re, b: Re, cc: nat, k: Fates)
    ensures Before(s, Cat(a, b), cc, k) == Before(s, a, cc, Before(s, b, cc + Groups(a), k))
  {
    hide Must, Optional, UnitEnd, LookFate, Else;
  }

  lemma CatStep(s: seq<byte>, a: Re, b: Re, cc: nat, k: Fates, d: Tree, o: Out)
    ensures Before(s, Cat(a, b), cc, k) == Before(s, a, cc, Before(s, b, cc + Groups(a), k))
    ensures Replay(s, Cat(a, b), cc, d, o) ==
            if d.Both? && Replay(s, a, cc, d.x, o).Some? then Replay(s, b, cc + Groups(a), d.y, Replay(s, a, cc, d.x, o).value) else None
  {
    hide Before, Rounds, Matches;
    CatBefore(s, a, b, cc, k);
  }

  lemma AltStep(s: seq<byte>, a: Re, b: Re, cc: nat, k: Fates, d: Tree, o: Out)
    ensures Before(s, Alt(a, b), cc, k)(o) == Else(Before(s, a, cc, k)(o), Before(s, b, cc + Groups(a), k)(o))
    ensures Replay(s, Alt(a, b), cc, d, o) ==
            if d.Left? then Replay(s, a, cc, d.x, o) else if d.Right? then Replay(s, b, cc + Groups(a), d.x, o) else None
  {
    hide Before, Rounds, Matches;
    BeforeAlt(s, a, b, cc, k, o);
  }

  lemma GroupStep(s: seq<byte>, b: Re, cc: nat, k: Fates, d: Tree, o: Out)
    ensures Before(s, Group(b), cc, k)(o) == Before(s, b, cc + 1, Closing(cc, k))(Opened(cc, o))
    ensures Replay(s, Group(b), cc, d, o) ==
            if d.Inside? && Replay(s, b, cc + 1, d.x, Opened(cc, o)).Some?
            then Some(Closed(cc, Replay(s, b, cc + 1, d.x, Opened(cc, o)).value)) else None
  {
    hide Before, Rounds, Matches;
    BeforeGroup(s, b, cc, k, o);
  }

  lemma LookStep(s: seq<byte>, negated: bool, b: Re, cc: nat, k: Fates, d: Tree, o: Out)
    ensures Before(s, Look(negated, b), cc, k)(o) == LookFate(negated, Before(s, b, cc, MATCHED)(o), o, k)
    ensures Replay(s, Look(negated, b), cc, d, o) ==
            if negated then if d.Leaf? && NoReplay(s, b, cc, o) then Some(o) else None
            else if d.Inside? && Replay(s, b, cc, d.x, o).Some? then Some(Out(o.pos, Replay(s, b, cc, d.x, o).value.caps)) else None
  {
    hide Before, Rounds, Matches;
    BeforeLook(s, negated, b, cc, k, o);
  }

  lemma QuantStep(s: seq<byte>, b: Re, min: nat, max: nat, greedy: bool, cc: nat, d: Tree, o: Out)
    ensures Replay(s, Quant(b, min, max, greedy), cc, d, o) ==
            if !d.Times? || max < min then None
            else Rounds(s, b, cc, min, if max == INFINITE then max else max - min, greedy, d.xs,
                        if min == 0 then o.(caps := Cleared(o.caps, cc, cc + Groups(b))) else o)
  {
    hide Rounds, Matches;
  }

  ghost predicate NoReplay(s: seq<byte>, b: Re, cc: nat, o: Out) {
    forall x :: Replay(s, b, cc, x, o) == None
  }

  lemma {:induction false} FateFails(s: seq<byte>, r: Re, cc: nat, k: Fates, o: Out, y: Tree)
    requires WellFormed(r) && Valid(|s|, o) && ByPosition(k) && Before(s, r, cc, k)(o) == Fallback && Replay(s, r, cc, y, o).Some?
    ensures k(Replay(s, r, cc, y, o).value) == Fallback
    decreases r, 1, 0
  {
    hide Before, Replay, ByPosition;
    match r
    case Cat(a, b) => CatFails(s, a, b, cc, k, o, y);
    case Alt(a, b) => AltFails(s, a, b, cc, k, o, y);
    case Group(b) => GroupFails(s, b, cc, k, o, y);
    case Look(negated, b) => LookFails(s, negated, b, cc, k, o, y);
    case Quant(b, min, max, greedy) => QuantFails(s, b, min, max, greedy, cc, k, o, y);
    case _ => UnitFails(s, r, cc, k, o, y);
  }

  lemma UnitFails(s: seq<byte>, r: Re, cc: nat, k: Fates, o: Out, y: Tree)
    requires IsUnit(r) && Valid(|s|, o) && Before(s, r, cc, k)(o) == Fallback && Replay(s, r, cc, y, o).Some?
    ensures k(Replay(s, r, cc, y, o).value) == Fallback
  {
    hide UnitEnd, Matches;
    UnitReplay(s, r, cc, o);
  }

  lemma CatFails(s: seq<byte>, a: Re, b: Re, cc: nat, k: Fates, o: Out, y: Tree)
    requires WellFormed(Cat(a, b)) && Valid(|s|, o) && ByPosition(k)
    requires Before(s, Cat(a, b), cc, k)(o) == Fallback && Replay(s, Cat(a, b), cc, y, o).Some?
    ensures k(Replay(s, Cat(a, b), cc, y, o).value) == Fallback
    decreases Cat(a, b), 0, 0
  {
    hide Before, Replay, ByPosition;
    CatStep(s, a, b, cc, k, y, o);
    var g := Before(s, b, cc + Groups(a), k);
    BeforeByPosition(s, b, cc + Groups(a), k);
    FateFails(s, a, cc, g, o, y.x);
    ReplayForward(s, a, cc, y.x, o);
    FateFails(s, b, cc + Groups(a), k, Replay(s, a, cc, y.x, o).value, y.y);
  }

  lemma AltFails(s: seq<byte>, a: Re, b: Re, cc: nat, k: Fates, o: Out, y: Tree)
    requires WellFormed(Alt(a, b)) && Valid(|s|, o) && ByPosition(k)
    requires Before(s, Alt(a, b), cc, k)(o) == Fallback && Replay(s, Alt(a, b), cc, y, o).Some?
    ensures k(Replay(s, Alt(a, b), cc, y, o).value) == Fallback
    decreases Alt(a, b), 0, 0
  {
    hide Before, Replay, ByPosition;
    AltStep(s, a, b, cc, k, y, o);
    if y.Left? { FateFails(s, a, cc, k, o, y.x); } else { FateFails(s, b, cc + Groups(a), k, o, y.x); }
  }

  lemma GroupFails(s: seq<byte>, b: Re, cc: nat, k: Fates, o: Out, y: Tree)
    requires WellFormed(b) && Valid(|s|, o) && ByPosition(k)
    requires Before(s, Group(b), cc, k)(o) == Fallback && Replay(s, Group(b), cc, y, o).Some?
    ensures k(Replay(s, Group(b), cc, y, o).value) == Fallback
    decreases Group(b), 0, 0
  {
    hide Before, Replay, ByPosition;
    GroupStep(s, b, cc, k, y, o);
    ClosingByPosition(cc, k);
    FateFails(s, b, cc + 1, Closing(cc, k), Opened(cc, o), y.x);
  }

  lemma QuantFails(s: seq<byte>, b: Re, min: nat, max: nat, greedy: bool, cc: nat, k: Fates, o: Out, y: Tree)
    requires WellFormed(Quant(b, min, max, greedy)) && Valid(|s|, o) && ByPosition(k)
    requires Before(s, Quant(b, min, max, greedy), cc, k)(o) == Fallback && Replay(s, Quant(b, min, max, greedy), cc, y, o).Some?
    ensures k(Replay(s, Quant(b, min, max, greedy), cc, y, o).value) == Fallback
    decreases b, 9, 0
  {
    hide Must, Before, Tail, Rounds, ByPosition;
    var m := if max == INFINITE then max else max - min;
    QuantBefore(s, b, min, max, greedy, cc, k, o);
    MustFails(s, b, cc, min, m, greedy, k, if min == 0 then o.(caps := Cleared(o.caps, cc, cc + Groups(b))) else o, y.xs);
  }

  lemma LookFails(s: seq<byte>, negated: bool, b: Re, cc: nat, k: Fates, o: Out, y: Tree)
    requires WellFormed(b) && Valid(|s|, o) && ByPosition(k)
    requires Before(s, Look(negated, b), cc, k)(o) == Fallback && Replay(s, Look(negated, b), cc, y, o).Some?
    ensures k(Replay(s, Look(negated, b), cc, y, o).value) == Fallback
    decreases b, 9, 0
  {
    hide Before, Replay, ByPosition;
    LookStep(s, negated, b, cc, k, y, o);
    MatchedByPosition();
    match Before(s, b, cc, MATCHED)(o)
    case Success(caps) =>
      if negated {
        var x := FateLeast(s, b, cc, MATCHED, o);
      } else {
        ByPositionAt(k, Out(o.pos, caps), Replay(s, Look(negated, b), cc, y, o).value);
      }
    case Fallback => if !negated { FateFails(s, b, cc, MATCHED, o, y.x); }
  }

  lemma TailByPosition(s: seq<byte>, b: Re, cc: nat, m: nat, greedy: bool, k: Fates)
    requires ByPosition(k)
    ensures ByPosition(Tail(s, b, cc, m, greedy, k))
  {
    hide LoopFate, UpToFates;
    if m == INFINITE {
      forall o: Out, o1: Out | o.pos == o1.pos ensures SameAt(Tail(s, b, cc, m, greedy, k), o, o1) { LoopSame(s, b, cc, greedy, k, o, o1); }
    } else {
      UpToByPosition(s, b, cc, m, greedy, k);
    }
  }

  lemma {:induction false} MustFails(s: seq<byte>, b: Re, cc: nat, n: nat, m: nat, greedy: bool, k: Fates, o: Out, ys: seq<Tree>)
    requires m <= INFINITE && WellFormed(b) && Valid(|s|, o) && ByPosition(k) && Must(s, b, cc, n, Tail(s, b, cc, m, greedy, k))(o) == Fallback
    requires Rounds(s, b, cc, n, m, greedy, ys, o).Some?
    ensures k(Rounds(s, b, cc, n, m, greedy, ys, o).value) == Fallback
    decreases b, 4, n
  {
    hide Before, Replay, Tail, ByPosition;
    if n > 0 {
      var g, p := Must(s, b, cc, n - 1, Tail(s, b, cc, m, greedy, k)), Replay(s, b, cc, ys[0], o).value;
      TailByPosition(s, b, cc, m, greedy, k);
      MustByPosition(s, b, cc, n - 1, Tail(s, b, cc, m, greedy, k));
      FateFails(s, b, cc, g, o, ys[0]);
      ReplayForward(s, b, cc, ys[0], o);
      MustFails(s, b, cc, n - 1, m, greedy, k, p, ys[1..]);
    } else {
      TailFails(s, b, cc, m, greedy, k, o, ys);
    }
  }

  lemma TailFails(s: seq<byte>, b: Re, cc: nat, m: nat, greedy: bool, k: Fates, o: Out, ys: seq<Tree>)
    requires m <= INFINITE && WellFormed(b) && Valid(|s|, o) && ByPosition(k) && Tail(s, b, cc, m, greedy, k)(o) == Fallback
    requires Rounds(s, b, cc, 0, m, greedy, ys, o).Some?
    ensures k(Rounds(s, b, cc, 0, m, greedy, ys, o).value) == Fallback
    decreases b, 3, 0
  {
    hide LoopFate, UpToFates, Rounds, ByPosition;
    if m == INFINITE { LoopFails(s, b, cc, greedy, k, o, ys); } else { UpToFails(s, b, cc, m, greedy, k, o, ys); }
  }

  lemma {:induction false} UpToFails(s: seq<byte>, b: Re, cc: nat, m: nat, greedy: bool, k: Fates, o: Out, ys: seq<Tree>)
    requires WellFormed(b) && Valid(|s|, o) && ByPosition(k) && m < INFINITE && UpToFates(s, b, cc, m, greedy, k)(o) == Fallback
    requires Rounds(s, b, cc, 0, m, greedy, ys, o).Some?
    ensures k(Rounds(s, b, cc, 0, m, greedy, ys, o).value) == Fallback
    decreases b, 2, m
  {
    hide Before, Replay, UpToFates, ByPosition;
    UpToUnfold(s, b, cc, m, greedy, k, o);
    if ys != [] {
      var g, p := UpToFates(s, b, cc, m - 1, greedy, k), Replay(s, b, cc, ys[0], o).value;
      UpToByPosition(s, b, cc, m - 1, greedy, k);
      FateFails(s, b, cc, g, o, ys[0]);
      ReplayForward(s, b, cc, ys[0], o);
      UpToFails(s, b, cc, m - 1, greedy, k, p, ys[1..]);
    }
  }

  lemma {:induction false} LoopFails(s: seq<byte>, b: Re, cc: nat, greedy: bool, k: Fates, o: Out, ys: seq<Tree>)
    requires WellFormed(b) && Valid(|s|, o) && ByPosition(k) && LoopFate(s, b, cc, greedy, k, o) == Fallback
    requires Rounds(s, b, cc, 0, INFINITE, greedy, ys, o).Some?
    ensures k(Rounds(s, b, cc, 0, INFINITE, greedy, ys, o).value) == Fallback
    decreases b, 2, |s| - o.pos, 2
  {
    hide Before, Replay, ByPosition;
    if ys != [] { RoundFails(s, b, cc, greedy, k, o, ys); }
  }

  /** An iteration behind which the run falls back. */
  lemma {:induction false} RoundFails(s: seq<byte>, b: Re, cc: nat, greedy: bool, k: Fates, o: Out, ys: seq<Tree>)
    requires WellFormed(b) && Valid(|s|, o) && ByPosition(k) && Before(s, b, cc, AfterRound(s, b, cc, greedy, k, o.pos))(o) == Fallback
    requires ys != [] && Rounds(s, b, cc, 0, INFINITE, greedy, ys, o).Some?
    ensures k(Rounds(s, b, cc, 0, INFINITE, greedy, ys, o).value) == Fallback
    decreases b, 2, |s| - o.pos, 1
  {
    hide Before, Replay, ByPosition, LoopFate, Rounds;
    RoundsStep(s, b, cc, greedy, ys, o);
    RoundByPosition(s, b, cc, greedy, k, o.pos);
    FateFails(s, b, cc, AfterRound(s, b, cc, greedy, k, o.pos), o, ys[0]);
    BehindFails(s, b, cc, greedy, k, o, ys);
  }

  lemma BehindFails(s: seq<byte>, b: Re, cc: nat, greedy: bool, k: Fates, o: Out, ys: seq<Tree>)
    requires WellFormed(b) && Valid(|s|, o) && ByPosition(k) && ys != [] && Rounds(s, b, cc, 0, INFINITE, greedy, ys, o).Some?
    requires Replay(s, b, cc, ys[0], o).Some? && AfterRound(s, b, cc, greedy, k, o.pos)(Replay(s, b, cc, ys[0], o).value) == Fallback
    ensures k(Rounds(s, b, cc, 0, INFINITE, greedy, ys, o).value) == Fallback
    decreases b, 2, |s| - o.pos, 0
  {
    hide Before, Replay, ByPosition, LoopFate, Rounds;
    var p := Replay(s, b, cc, ys[0], o).value;
    RoundsStep(s, b, cc, greedy, ys, o);
    ReplayForward(s, b, cc, ys[0], o);
    if p.pos > o.pos { LoopFails(s, b, cc, greedy, k, p, ys[1..]); }
  }

  lemma PrecedeStep(b: Re, greedy: bool, xs: seq<Tree>, ys: seq<Tree>)
    requires xs != [] && ys != []
    ensures AllPrecede(b, greedy, xs, ys) <==> Precedes(b, xs[0], ys[0]) || (xs[0] == ys[0] && AllPrecede(b, greedy, xs[1..], ys[1..]))
  {
    hide Precedes;
  }

  /** The first of the iterations of a loop without a limit. */
  lemma RoundsStep(s: seq<byte>, b: Re, cc: nat, greedy: bool, ys: seq<Tree>, o: Out)
    requires ys != []
    ensures var p := Replay(s, b, cc, ys[0], o);
            Rounds(s, b, cc, 0, INFINITE, greedy, ys, o) ==
            if p == None then None
            else if greedy && p.value.pos == o.pos then if |ys| == 1 then p else None
            else Rounds(s, b, cc, 0, INFINITE, greedy, ys[1..], p.value)
  {
    hide Replay;
  }

  // ----- Where it succeeds, it is with the most preferred derivation that does -----

  /** Every derivation that is preferred to `d` fails. */
  ghost predicate Foremost(s: seq<byte>, r: Re, cc: nat, k: Fates, o: Out, d: Tree) {
    forall y :: Precedes(r, y, d) && Replay(s, r, cc, y, o).Some? ==> k(Replay(s, r, cc, y, o).value) == Fallback
  }

  lemma {:induction false} FateLeast(s: seq<byte>, r: Re, cc: nat, k: Fates, o: Out) returns (d: Tree)
    requires WellFormed(r) && Valid(|s|, o) && ByPosition(k) && Before(s, r, cc, k)(o).Success?
    ensures Replay(s, r, cc, d, o).Some? && k(Replay(s, r, cc, d, o).value) == Before(s, r, cc, k)(o) && Foremost(s, r, cc, k, o, d)
    decreases r, 1, 0
  {
    hide Before, Replay, ByPosition, Foremost;
    match r
    case Cat(a, b) => d := CatLeast(s, a, b, cc, k, o);
    case Alt(a, b) => d := AltLeast(s, a, b, cc, k, o);
    case Group(b) => d := GroupLeast(s, b, cc, k, o);
    case Look(negated, b) => d := LookLeast(s, negated, b, cc, k, o);
    case Quant(b, min, max, greedy) => d := QuantLeast(s, b, min, max, greedy, cc, k, o);
    case _ => d := UnitLeast(s, r, cc, k, o);
  }

  lemma UnitLeast(s: seq<byte>, r: Re, cc: nat, k: Fates, o: Out) returns (d: Tree)
    requires IsUnit(r) && Valid(|s|, o) && Before(s, r, cc, k)(o).Success?
    ensures Replay(s, r, cc, d, o).Some? && k(Replay(s, r, cc, d, o).value) == Before(s, r, cc, k)(o) && Foremost(s, r, cc, k, o, d)
  {
    hide UnitEnd, Matches;
    d := Leaf;
    UnitReplay(s, r, cc, o);
  }

  lemma AltLeast(s: seq<byte>, a: Re, b: Re, cc: nat, k: Fates, o: Out) returns (d: Tree)
    requires WellFormed(Alt(a, b)) && Valid(|s|, o) && ByPosition(k) && Before(s, Alt(a, b), cc, k)(o).Success?
    ensures var r := Alt(a, b);
            Replay(s, r, cc, d, o).Some? && k(Replay(s, r, cc, d, o).value) == Before(s, r, cc, k)(o) && Foremost(s, r, cc, k, o, d)
    decreases Alt(a, b), 0, 0
  {
    hide Before, Replay, ByPosition;
    AltStep(s, a, b, cc, k, Leaf, o);
    var left := Before(s, a, cc, k)(o).Success?;
    if left {
      var x := FateLeast(s, a, cc, k, o);
      d := Left(x);
    } else {
      var x := FateLeast(s, b, cc + Groups(a), k, o);
      d := Right(x);
    }
    AltStep(s, a, b, cc, k, d, o);
    forall y | Precedes(Alt(a, b), y, d) && Replay(s, Alt(a, b), cc, y, o).Some?
      ensures k(Replay(s, Alt(a, b), cc, y, o).value) == Fallback
    {
      AltStep(s, a, b, cc, k, y, o);
      if y.Left? && !left { FateFails(s, a, cc, k, o, y.x); }
    }
  }

  lemma GroupLeast(s: seq<byte>, b: Re, cc: nat, k: Fates, o: Out) returns (d: Tree)
    requires WellFormed(b) && Valid(|s|, o) && ByPosition(k) && Before(s, Group(b), cc, k)(o).Success?
    ensures var r := Group(b);
            Replay(s, r, cc, d, o).Some? && k(Replay(s, r, cc, d, o).value) == Before(s, r, cc, k)(o) && Foremost(s, r, cc, k, o, d)
    decreases Group(b), 0, 0
  {
    hide Before, Replay, ByPosition;
    GroupStep(s, b, cc, k, Leaf, o);
    ClosingByPosition(cc, k);
    var x := FateLeast(s, b, cc + 1, Closing(cc, k), Opened(cc, o));
    d := Inside(x);
    GroupStep(s, b, cc, k, d, o);
    forall y | Precedes(Group(b), y, d) && Replay(s, Group(b), cc, y, o).Some?
      ensures k(Replay(s, Group(b), cc, y, o).value) == Fallback
    {
      GroupStep(s, b, cc, k, y, o);
    }
  }

  lemma LookLeast(s: seq<byte>, negated: bool, b: Re, cc: nat, k: Fates, o: Out) returns (d: Tree)
    requires WellFormed(b) && Valid(|s|, o) && ByPosition(k) && Before(s, Look(negated, b), cc, k)(o).Success?
    ensures var r := Look(negated, b);
            Replay(s, r, cc, d, o).Some? && k(Replay(s, r, cc, d, o).value) == Before(s, r, cc, k)(o) && Foremost(s, r, cc, k, o, d)
    decreases Look(negated, b), 0, 0
  {
    hide Before, Replay, ByPosition;
    LookStep(s, negated, b, cc, k, Leaf, o);
    MatchedByPosition();
    if negated {
      d := Leaf;
      forall x ensures Replay(s, b, cc, x, o) == None { if Replay(s, b, cc, x, o).Some? { FateFails(s, b, cc, MATCHED, o, x); } }
    } else {
      var x := FateLeast(s, b, cc, MATCHED, o);
      d := Inside(x);
      LookStep(s, negated, b, cc, k, d, o);
      forall y | Precedes(Look(negated, b), y, d) ensures Replay(s, Look(negated, b), cc, y, o) == None {
        LookStep(s, negated, b, cc, k, y, o);
      }
    }
  }

  lemma CatLeast(s: seq<byte>, a: Re, b: Re, cc: nat, k: Fates, o: Out) returns (d: Tree)
    requires WellFormed(Cat(a, b)) && Valid(|s|, o) && ByPosition(k) && Before(s, Cat(a, b), cc, k)(o).Success?
    ensures var r := Cat(a, b);
            Replay(s, r, cc, d, o).Some? && k(Replay(s, r, cc, d, o).value) == Before(s, r, cc, k)(o) && Foremost(s, r, cc, k, o, d)
    decreases Cat(a, b), 0, 0
  {
    hide Before, Replay, ByPosition;
    CatStep(s, a, b, cc, k, Leaf, o);
    var g := Before(s, b, cc + Groups(a), k);
    BeforeByPosition(s, b, cc + Groups(a), k);
    var x := FateLeast(s, a, cc, g, o);
    ReplayForward(s, a, cc, x, o);
    var y := FateLeast(s, b, cc + Groups(a), k, Replay(s, a, cc, x, o).value);
    d := Both(x, y);
    CatStep(s, a, b, cc, k, d, o);
    forall z | Precedes(Cat(a, b), z, d) && Replay(s, Cat(a, b), cc, z, o).Some?
      ensures k(Replay(s, Cat(a, b), cc, z, o).value) == Fallback
    {
      CatStep(s, a, b, cc, k, z, o);
      if Precedes(a, z.x, x) {
        ReplayForward(s, a, cc, z.x, o);
        FateFails(s, b, cc + Groups(a), k, Replay(s, a, cc, z.x, o).value, z.y);
      }
    }
  }

  ghost predicate ForemostOf(s: seq<byte>, b: Re, cc: nat, n: nat, m: nat, greedy: bool, k: Fates, o: Out, xs: seq<Tree>) {
    forall ys :: AllPrecede(b, greedy, ys, xs) && Rounds(s, b, cc, n, m, greedy, ys, o).Some? ==>
      k(Rounds(s, b, cc, n, m, greedy, ys, o).value) == Fallback
  }

  lemma QuantLeast(s: seq<byte>, b: Re, min: nat, max: nat, greedy: bool, cc: nat, k: Fates, o: Out) returns (d: Tree)
    requires WellFormed(Quant(b, min, max, greedy)) && Valid(|s|, o) && ByPosition(k) && Before(s, Quant(b, min, max, greedy), cc, k)(o).Success?
    ensures var r := Quant(b, min, max, greedy);
            Replay(s, r, cc, d, o).Some? && k(Replay(s, r, cc, d, o).value) == Before(s, r, cc, k)(o) && Foremost(s, r, cc, k, o, d)
    decreases b, 9, 0
  {
    hide Must, Tail, Rounds, ByPosition, Before, AllPrecede;
    var m := if max == INFINITE then max else max - min;
    var o1 := if min == 0 then o.(caps := Cleared(o.caps, cc, cc + Groups(b))) else o;
    QuantBefore(s, b, min, max, greedy, cc, k, o);
    var xs := MustLeast(s, b, cc, min, m, greedy, k, o1);
    d := Times(xs);
    var r := Quant(b, min, max, greedy);
    forall y | Precedes(r, y, d) && Replay(s, r, cc, y, o).Some? ensures k(Replay(s, r, cc, y, o).value) == Fallback {
      assert AllPrecede(b, greedy, y.xs, xs);
      assert Replay(s, r, cc, y, o) == Rounds(s, b, cc, min, m, greedy, y.xs, o1);
    }
  }

  lemma {:induction false} MustLeast(s: seq<byte>, b: Re, cc: nat, n: nat, m: nat, greedy: bool, k: Fates, o: Out) returns (xs: seq<Tree>)
    requires m <= INFINITE && WellFormed(b) && Valid(|s|, o) && ByPosition(k) && Must(s, b, cc, n, Tail(s, b, cc, m, greedy, k))(o).Success?
    ensures var p := Rounds(s, b, cc, n, m, greedy, xs, o);
            p.Some? && k(p.value) == Must(s, b, cc, n, Tail(s, b, cc, m, greedy, k))(o) && ForemostOf(s, b, cc, n, m, greedy, k, o, xs)
    decreases b, 4, n
  {
    hide Before, Replay, Tail, ByPosition, Precedes;
    if n == 0 {
      xs := TailLeast(s, b, cc, m, greedy, k, o);
    } else {
      var g := Must(s, b, cc, n - 1, Tail(s, b, cc, m, greedy, k));
      TailByPosition(s, b, cc, m, greedy, k);
      MustByPosition(s, b, cc, n - 1, Tail(s, b, cc, m, greedy, k));
      var x := FateLeast(s, b, cc, g, o);
      ReplayForward(s, b, cc, x, o);
      var rest := MustLeast(s, b, cc, n - 1, m, greedy, k, Replay(s, b, cc, x, o).value);
      xs := [x] + rest;
      assert xs[1..] == rest;
      forall ys | AllPrecede(b, greedy, ys, xs) && Rounds(s, b, cc, n, m, greedy, ys, o).Some?
        ensures k(Rounds(s, b, cc, n, m, greedy, ys, o).value) == Fallback
      {
        if Precedes(b, ys[0], x) {
          ReplayForward(s, b, cc, ys[0], o);
          MustFails(s, b, cc, n - 1, m, greedy, k, Replay(s, b, cc, ys[0], o).value, ys[1..]);
        }
      }
    }
  }

  lemma TailLeast(s: seq<byte>, b: Re, cc: nat, m: nat, greedy: bool, k: Fates, o: Out) returns (xs: seq<Tree>)
    requires m <= INFINITE && WellFormed(b) && Valid(|s|, o) && ByPosition(k) && Tail(s, b, cc, m, greedy, k)(o).Success?
    ensures var p := Rounds(s, b, cc, 0, m, greedy, xs, o);
            p.Some? && k(p.value) == Tail(s, b, cc, m, greedy, k)(o) && ForemostOf(s, b, cc, 0, m, greedy, k, o, xs)
    decreases b, 3, 0
  {
    hide LoopFate, UpToFates, Rounds, ByPosition, ForemostOf;
    if m == INFINITE { xs := LoopLeast(s, b, cc, greedy, k, o); } else { xs := UpToLeast(s, b, cc, m, greedy, k, o); }
  }

  lemma {:induction false} UpToLeast(s: seq<byte>, b: Re, cc: nat, m: nat, greedy: bool, k: Fates, o: Out) returns (xs: seq<Tree>)
    requires WellFormed(b) && Valid(|s|, o) && ByPosition(k) && m < INFINITE && UpToFates(s, b, cc, m, greedy, k)(o).Success?
    ensures var p := Rounds(s, b, cc, 0, m, greedy, xs, o);
            p.Some? && k(p.value) == UpToFates(s, b, cc, m, greedy, k)(o) && ForemostOf(s, b, cc, 0, m, greedy, k, o, xs)
    decreases b, 2, m
  {
    hide Before, Replay, UpToFates, ByPosition, Precedes;
    UpToUnfold(s, b, cc, m, greedy, k, o);
    if m == 0 {
      xs := [];
    } else {
      var g := UpToFates(s, b, cc, m - 1, greedy, k);
      var f := Before(s, b, cc, g)(o);
      UpToByPosition(s, b, cc, m - 1, greedy, k);
      if f.Success? && (greedy || k(o) == Fallback) {
        var x := FateLeast(s, b, cc, g, o);
        ReplayForward(s, b, cc, x, o);
        var rest := UpToLeast(s, b, cc, m - 1, greedy, k, Replay(s, b, cc, x, o).value);
        xs := [x] + rest;
        assert xs[1..] == rest;
        forall ys | AllPrecede(b, greedy, ys, xs) && Rounds(s, b, cc, 0, m, greedy, ys, o).Some?
          ensures k(Rounds(s, b, cc, 0, m, greedy, ys, o).value) == Fallback
        {
          if ys != [] && Precedes(b, ys[0], x) {
            ReplayForward(s, b, cc, ys[0], o);
            UpToFails(s, b, cc, m - 1, greedy, k, Replay(s, b, cc, ys[0], o).value, ys[1..]);
          }
        }
      } else {
        xs := [];
        forall ys | AllPrecede(b, greedy, ys, xs) && Rounds(s, b, cc, 0, m, greedy, ys, o).Some?
          ensures k(Rounds(s, b, cc, 0, m, greedy, ys, o).value) == Fallback
        {
          FateFails(s, b, cc, g, o, ys[0]);
          ReplayForward(s, b, cc, ys[0], o);
          UpToFails(s, b, cc, m - 1, greedy, k, Replay(s, b, cc, ys[0], o).value, ys[1..]);
        }
      }
    }
  }

  lemma {:induction false} LoopLeast(s: seq<byte>, b: Re, cc: nat, greedy: bool, k: Fates, o: Out) returns (xs: seq<Tree>)
    requires WellFormed(b) && Valid(|s|, o) && ByPosition(k) && LoopFate(s, b, cc, greedy, k, o).Success?
    ensures var p := Rounds(s, b, cc, 0, INFINITE, greedy, xs, o);
            p.Some? && k(p.value) == LoopFate(s, b, cc, greedy, k, o) && ForemostOf(s, b, cc, 0, INFINITE, greedy, k, o, xs)
    decreases b, 2, |s| - o.pos, 2
  {
    hide Before, Replay, ByPosition, Rounds;
    var g := AfterRound(s, b, cc, greedy, k, o.pos);
    if Before(s, b, cc, g)(o).Success? && (greedy || k(o) == Fallback) {
      xs := RoundLeast(s, b, cc, greedy, k, o);
    } else {
      xs := [];
      NoRounds(s, b, cc, greedy, o);
      forall ys | AllPrecede(b, greedy, ys, xs) && Rounds(s, b, cc, 0, INFINITE, greedy, ys, o).Some?
        ensures k(Rounds(s, b, cc, 0, INFINITE, greedy, ys, o).value) == Fallback
      {
        RoundFails(s, b, cc, greedy, k, o, ys);
      }
    }
  }

  lemma NoRounds(s: seq<byte>, b: Re, cc: nat, greedy: bool, o: Out)
    ensures Rounds(s, b, cc, 0, INFINITE, greedy, [], o) == Some(o)
  {
  }

  lemma {:induction false} RoundLeast(s: seq<byte>, b: Re, cc: nat, greedy: bool, k: Fates, o: Out) returns (xs: seq<Tree>)
    requires WellFormed(b) && Valid(|s|, o) && ByPosition(k) && (greedy || k(o) == Fallback)
    requires Before(s, b, cc, AfterRound(s, b, cc, greedy, k, o.pos))(o).Success?
    ensures var p := Rounds(s, b, cc, 0, INFINITE, greedy, xs, o);
            && p.Some? && k(p.value) == Before(s, b, cc, AfterRound(s, b, cc, greedy, k, o.pos))(o)
            && ForemostOf(s, b, cc, 0, INFINITE, greedy, k, o, xs)
    decreases b, 2, |s| - o.pos, 1
  {
    hide Before, Replay, ByPosition, Rounds, LoopFate, Precedes, AllPrecede;
    var g := AfterRound(s, b, cc, greedy, k, o.pos);
    RoundByPosition(s, b, cc, greedy, k, o.pos);
    var x := FateLeast(s, b, cc, g, o);
    var p := Replay(s, b, cc, x, o).value;
    ReplayForward(s, b, cc, x, o);
    NoRounds(s, b, cc, greedy, p);
    var rest := [];
    if p.pos > o.pos { rest := LoopLeast(s, b, cc, greedy, k, p); }
    xs := [x] + rest;
    assert xs[1..] == rest;
    RoundsStep(s, b, cc, greedy, xs, o);
    forall ys | AllPrecede(b, greedy, ys, xs) && Rounds(s, b, cc, 0, INFINITE, greedy, ys, o).Some?
      ensures k(Rounds(s, b, cc, 0, INFINITE, greedy, ys, o).value) == Fallback
    {
      if ys == [] {
        NonePrecedes(b, greedy, xs);
        NoRounds(s, b, cc, greedy, o);
      } else {
        RoundsStep(s, b, cc, greedy, ys, o);
        PrecedeStep(b, greedy, ys, xs);
        if Precedes(b, ys[0], x) { BehindFails(s, b, cc, greedy, k, o, ys); } else { NonePrecedes(b, greedy, ys[1..]); }
      }
    }
  }

  lemma NonePrecedes(b: Re, greedy: bool, xs: seq<Tree>)
    ensures AllPrecede(b, greedy, [], xs) <==> !greedy && xs != []
    ensures AllPrecede(b, greedy, xs, []) <==> greedy && xs != []
  {
  }

  // ----- There is a derivation for each match and no other -----

  ghost predicate Ends(s: seq<byte>, r: Re, cc: nat, o: Out, d: Tree, j: int) {
    Replay(s, r, cc, d, o).Some? && Replay(s, r, cc, d, o).value.pos == j
  }

  ghost predicate MatchesBy(r: Re, s: seq<byte>, i: int, j: int) {
    match r
    case Cat(a, b) => Compose(Language(a, s), Language(b, s), i, j)
    case Alt(a, b) => Matches(a, s, i, j) || Matches(b, s, i, j)
    case Group(b) => Matches(b, s, i, j)
    case Look(negated, b) => i == j && Starts(Language(b, s), i) != negated
    case Quant(b, min, max, _) => PowerBetween(Language(b, s), min, max, i, j)
    case _ => Matches(r, s, i, j)
  }

  lemma MatchesStep(r: Re, s: seq<byte>, i: int, j: int)
    ensures Matches(r, s, i, j) <==> MatchesBy(r, s, i, j)
  {
    hide Compose, Starts, PowerBetween;
  }

  lemma {:induction false} DerivationMatches(s: seq<byte>, r: Re, cc: nat, o: Out, d: Tree, j: int)
    requires WellFormed(r) && Valid(|s|, o) && Ends(s, r, cc, o, d, j)
    ensures Matches(r, s, o.pos, j)
    decreases r, 0, 0
  {
    hide Matches, Replay, PowerBetween;
    MatchesStep(r, s, o.pos, j);
    match r
    case Cat(a, b) =>
      CatStep(s, a, b, cc, MATCHED, d, o);
      var p := Replay(s, a, cc, d.x, o).value;
      ReplayForward(s, a, cc, d.x, o);
      DerivationMatches(s, a, cc, o, d.x, p.pos);
      DerivationMatches(s, b, cc + Groups(a), p, d.y, j);
      assert Language(a, s)(o.pos, p.pos) && Language(b, s)(p.pos, j);
    case Alt(a, b) =>
      AltStep(s, a, b, cc, MATCHED, d, o);
      if d.Left? { DerivationMatches(s, a, cc, o, d.x, j); } else { DerivationMatches(s, b, cc + Groups(a), o, d.x, j); }
    case Group(b) =>
      GroupStep(s, b, cc, MATCHED, d, o);
      DerivationMatches(s, b, cc + 1, Opened(cc, o), d.x, j);
    case Look(negated, b) =>
      LookStep(s, negated, b, cc, MATCHED, d, o);
      LookDerivation(s, b, cc, o);
      if !negated { assert Replay(s, b, cc, d.x, o).Some?; }
    case Quant(b, min, max, greedy) => QuantDerivation(s, b, min, max, greedy, cc, o, d, j);
    case _ => UnitDerivation(s, r, cc, o, j);
  }

  lemma UnitDerivation(s: seq<byte>, r: Re, cc: nat, o: Out, j: int)
    requires IsUnit(r) && Valid(|s|, o)
    ensures Matches(r, s, o.pos, j) <==> Ends(s, r, cc, o, Leaf, j)
    ensures forall d :: d != Leaf ==> Replay(s, r, cc, d, o) == None
  {
  }

  /** A pattern starts a match where it has a derivation. */
  lemma LookDerivation(s: seq<byte>, b: Re, cc: nat, o: Out)
    requires WellFormed(b) && Valid(|s|, o)
    ensures Starts(Language(b, s), o.pos) <==> !NoReplay(s, b, cc, o)
    decreases b, 9, 0
  {
    hide Matches, Replay;
    if j :| Language(b, s)(o.pos, j) {
      var d := MatchDerivation(s, b, cc, o, j);
    }
    if d :| Replay(s, b, cc, d, o) != None {
      var j := Replay(s, b, cc, d, o).value.pos;
      DerivationMatches(s, b, cc, o, d, j);
      assert Language(b, s)(o.pos, j);
    }
  }

  lemma QuantDerivation(s: seq<byte>, b: Re, min: nat, max: nat, greedy: bool, cc: nat, o: Out, d: Tree, j: int)
    requires WellFormed(Quant(b, min, max, greedy)) && Valid(|s|, o) && Ends(s, Quant(b, min, max, greedy), cc, o, d, j)
    ensures PowerBetween(Language(b, s), min, max, o.pos, j)
    decreases b, 9, 0
  {
    hide Matches, Rounds, Power;
    var m := if max == INFINITE then max else max - min;
    var n := RoundsPower(s, b, cc, min, m, greedy, d.xs, if min == 0 then o.(caps := Cleared(o.caps, cc, cc + Groups(b))) else o);
  }

  lemma {:induction false} RoundsPower(s: seq<byte>, b: Re, cc: nat, n: nat, m: nat, greedy: bool, xs: seq<Tree>, o: Out) returns (q: nat)
    requires m <= INFINITE && WellFormed(b) && Valid(|s|, o) && Rounds(s, b, cc, n, m, greedy, xs, o).Some?
    ensures n <= q && (m == INFINITE || q <= n + m) && Power(Language(b, s), q, o.pos, Rounds(s, b, cc, n, m, greedy, xs, o).value.pos)
    decreases b, 4, |xs|
  {
    hide Matches, Replay;
    if xs == [] {
      q := 0;
    } else {
      var p := Replay(s, b, cc, xs[0], o).value;
      ReplayForward(s, b, cc, xs[0], o);
      DerivationMatches(s, b, cc, o, xs[0], p.pos);
      assert Language(b, s)(o.pos, p.pos);
      if n == 0 && m == INFINITE && greedy && p.pos == o.pos {
        q := 0;
      } else {
        q := RoundsPower(s, b, cc, if n > 0 then n - 1 else n, if n > 0 || m == INFINITE then m else m - 1, greedy, xs[1..], p);
        q := q + 1;
      }
    }
  }

  lemma {:induction false} MatchDerivation(s: seq<byte>, r: Re, cc: nat, o: Out, j: int) returns (d: Tree)
    requires WellFormed(r) && Valid(|s|, o) && Matches(r, s, o.pos, j)
    ensures Ends(s, r, cc, o, d, j)
    decreases r, 0, 0
  {
    hide Matches, Replay, PowerBetween;
    MatchesStep(r, s, o.pos, j);
    match r
    case Cat(a, b) =>
      var k :| Language(a, s)(o.pos, k) && Language(b, s)(k, j);
      var x := MatchDerivation(s, a, cc, o, k);
      ReplayForward(s, a, cc, x, o);
      var y := MatchDerivation(s, b, cc + Groups(a), Replay(s, a, cc, x, o).value, j);
      d := Both(x, y);
      CatStep(s, a, b, cc, MATCHED, d, o);
    case Alt(a, b) =>
      if Matches(a, s, o.pos, j) {
        var x := MatchDerivation(s, a, cc, o, j);
        d := Left(x);
      } else {
        var x := MatchDerivation(s, b, cc + Groups(a), o, j);
        d := Right(x);
      }
      AltStep(s, a, b, cc, MATCHED, d, o);
    case Group(b) =>
      var x := MatchDerivation(s, b, cc + 1, Opened(cc, o), j);
      d := Inside(x);
      GroupStep(s, b, cc, MATCHED, d, o);
    case Look(negated, b) =>
      LookDerivation(s, b, cc, o);
      if negated {
        d := Leaf;
      } else {
        var x :| Replay(s, b, cc, x, o) != None;
        d := Inside(x);
      }
      LookStep(s, negated, b, cc, MATCHED, d, o);
    case Quant(b, min, max, greedy) => d := QuantMatch(s, b, min, max, greedy, cc, o, j);
    case _ =>
      d := Leaf;
      UnitDerivation(s, r, cc, o, j);
  }

  lemma QuantMatch(s: seq<byte>, b: Re, min: nat, max: nat, greedy: bool, cc: nat, o: Out, j: int) returns (d: Tree)
    requires WellFormed(Quant(b, min, max, greedy)) && Valid(|s|, o) && PowerBetween(Language(b, s), min, max, o.pos, j)
    ensures Ends(s, Quant(b, min, max, greedy), cc, o, d, j)
    decreases b, 9, 0
  {
    hide Matches, Rounds, Power;
    var q: nat :| min <= q && (max == INFINITE || q <= max) && Power(Language(b, s), q, o.pos, j);
    var xs := PowerRounds(s, b, cc, min, if max == INFINITE then max else max - min, greedy, q,
                          if min == 0 then o.(caps := Cleared(o.caps, cc, cc + Groups(b))) else o, j);
    d := Times(xs);
  }

  /** Iterations that may be and do not move are left out where they would end the loop. */
  lemma {:induction false} PowerRounds(s: seq<byte>, b: Re, cc: nat, n: nat, m: nat, greedy: bool, q: nat, o: Out, j: int) returns (xs: seq<Tree>)
    requires m <= INFINITE && WellFormed(b) && Valid(|s|, o) && Power(Language(b, s), q, o.pos, j)
    requires n <= q && (m == INFINITE || q <= n + m)
    ensures var p := Rounds(s, b, cc, n, m, greedy, xs, o); p.Some? && p.value.pos == j
    decreases b, 4, q
  {
    hide Matches, Replay, Language;
    if q == 0 {
      xs := [];
    } else {
      var k := FirstIteration(Language(b, s), q, o.pos, j);
      OneMatch(s, b, o.pos, k);
      var x := MatchDerivation(s, b, cc, o, k);
      ReplayForward(s, b, cc, x, o);
      var p := Replay(s, b, cc, x, o).value;
      if n == 0 && m == INFINITE && greedy && k == o.pos {
        xs := PowerRounds(s, b, cc, n, m, greedy, q - 1, o, j);
      } else {
        var rest := PowerRounds(s, b, cc, if n > 0 then n - 1 else n, if n > 0 || m == INFINITE then m else m - 1, greedy, q - 1, p, j);
        xs := [x] + rest;
        assert xs[1..] == rest;
      }
    }
  }

  lemma OneMatch(s: seq<byte>, b: Re, i: int, j: int)
    ensures Language(b, s)(i, j) <==> Matches(b, s, i, j)
  {
    hide Matches;
  }

  /** The derivations that end at `j` are there exactly when the pattern matches up to `j`. */
  lemma DerivationsExact(s: seq<byte>, r: Re, cc: nat, o: Out, j: int)
    requires WellFormed(r) && Valid(|s|, o)
    ensures (exists d :: Ends(s, r, cc, o, d, j)) <==> Matches(r, s, o.pos, j)
  {
    hide Ends, Matches;
    if d :| Ends(s, r, cc, o, d, j) { DerivationMatches(s, r, cc, o, d, j); }
    if Matches(r, s, o.pos, j) { var d := MatchDerivation(s, r, cc, o, j); }
  }

  // ----- The search -----

  /** A reading of the pattern as a whole from position `i`, with what it captures. */
  ghost function Reading(s: seq<byte>, r: Re, i: int, d: Tree): Option<Out> {
    Replay(s, Group(r), 0, d, Out(i, NullCaps(Groups(r))))
  }

  ghost predicate NoReading(s: seq<byte>, r: Re, i: int) {
    forall d :: Reading(s, r, i, d) == None
  }

  /** The reading with these captures that is preferred to all others from `i`. */
  ghost predicate IsFirst(s: seq<byte>, r: Re, i: int, d: Tree, caps: seq<int>) {
    && Reading(s, r, i, d).Some? && Reading(s, r, i, d).value.caps == caps
    && forall y :: Reading(s, r, i, y).Some? && y != d ==> Precedes(Group(r), d, y)
  }

  /** The captures of the preferred reading from the first start that has one. */
  ghost predicate Preferred(s: seq<byte>, r: Re, from: int, result: Option<seq<int>>) {
    match result
    case None => forall i :: from <= i <= |s| ==> NoReading(s, r, i)
    case Some(caps) =>
      exists i, d :: from <= i <= |s| && IsFirst(s, r, i, d, caps) && forall h :: from <= h < i ==> NoReading(s, r, h)
  }

  lemma {:induction false} SearchPreferred(s: seq<byte>, r: Re, from: nat)
    requires WellFormed(r) && from <= |s| && SearchFate(s, r, from) != Forever
    ensures Preferred(s, r, from, ResultOf(SearchFate(s, r, from)))
    decreases |s| - from
  {
    hide Before, Replay, IsFirst, Precedes;
    MatchedByPosition();
    var o := Out(from, NullCaps(Groups(r)));
    match Before(s, Group(r), 0, MATCHED)(o)
    case Success(caps) =>
      var d := FirstReading(s, r, from);
    case Fallback =>
      NothingReads(s, r, from);
      if from < |s| { SearchPreferred(s, r, from + 1); }
  }

  lemma NothingReads(s: seq<byte>, r: Re, i: nat)
    requires WellFormed(r) && i <= |s| && Before(s, Group(r), 0, MATCHED)(Out(i, NullCaps(Groups(r)))) == Fallback
    ensures NoReading(s, r, i)
  {
    hide Before, Replay, ByPosition;
    MatchedByPosition();
    forall d ensures Reading(s, r, i, d) == None {
      if Reading(s, r, i, d).Some? { FateFails(s, Group(r), 0, MATCHED, Out(i, NullCaps(Groups(r))), d); }
    }
  }

  lemma FirstReading(s: seq<byte>, r: Re, i: nat) returns (d: Tree)
    requires WellFormed(r) && i <= |s| && Before(s, Group(r), 0, MATCHED)(Out(i, NullCaps(Groups(r)))).Success?
    ensures IsFirst(s, r, i, d, Before(s, Group(r), 0, MATCHED)(Out(i, NullCaps(Groups(r)))).caps)
  {
    hide Before, Replay, ByPosition, Precedes;
    MatchedByPosition();
    var o := Out(i, NullCaps(Groups(r)));
    d := FateLeast(s, Group(r), 0, MATCHED, o);
    forall y | Reading(s, r, i, y).Some? && y != d ensures Precedes(Group(r), d, y) {
      Total(s, Group(r), 0, o, d, y);
    }
  }
}
