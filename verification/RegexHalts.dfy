/** Exactly when a run halts, for every pattern: the run has the fate of the pattern. */
module RegexHalts {
  import opened Basics
  import opened RegexSyntax
  import opened RegexOutcomes
  import opened RegexCode
  import opened RegexGen
  import opened RegexVM
  import opened RegexYields
  import opened RegexAdvance
  import opened RegexQuant
  import opened RegexGreedy
  import opened RegexSim
  import opened RegexSearch
  import opened RegexFate

  ghost predicate Diverges(m: Machine, c: Config) {
    forall n: nat :: !Steps(m, c, n).Done?
  }

  lemma DivergesVia(m: Machine, c: Config, d: Config)
    requires Reaches(m, c, d) && Diverges(m, d)
    ensures Diverges(m, c)
  {
    var k: nat :| Steps(m, c, k) == d;
    forall n: nat ensures !Steps(m, c, n).Done? {
      if n >= k {
        StepsAdd(m, c, k, n - k);
      } else {
        assert !Steps(m, d, 0).Done?;
        NotDoneBefore(m, c, n, k);
      }
    }
  }

  // ----- Fates of runs -----

  /** What the fates of a run refer to: a match unwinds to `base` with as many slots, and a
      run is lost that never ends or comes to one of the configurations `lost`. */
  datatype Aim = Aim(base: Saved, slots: nat, lost: iset<Config>)

  ghost predicate Lost(m: Machine, c: Config, lost: iset<Config>) {
    Diverges(m, c) || exists d :: d in lost && Reaches(m, c, d)
  }

  ghost predicate Meets(m: Machine, c: Config, f: Fate, t: Saved, x: Aim) {
    match f
    case Success(caps) => |caps| == x.slots && Reaches(m, c, Unwind(caps, x.base))
    case Fallback => Reaches(m, c, Backtrack(t))
    case Forever => Lost(m, c, x.lost)
  }

  /** The fate of all runs from one place with one outcome. */
  ghost predicate At(m: Machine, pc: int, o: Out, stack: seq<int>, f: Fate, x: Aim) {
    forall t :: Above(t, x.base) ==> Meets(m, Run(pc, o.pos, stack, o.caps, t), f, t, x)
  }

  /** The outcomes from `lo` on. */
  predicate From(m: Machine, o: Out, lo: int, x: Aim) {
    lo <= o.pos <= |m.s| && |o.caps| == x.slots
  }

  /** The fates of all runs from `lo` on. */
  ghost predicate Go(m: Machine, pc: int, stack: seq<int>, k: Fates, lo: int, x: Aim) {
    forall o: Out :: From(m, o, lo, x) ==> At(m, pc, o, stack, k(o), x)
  }

  lemma LostVia(m: Machine, c: Config, d: Config, lost: iset<Config>)
    requires Reaches(m, c, d) && Lost(m, d, lost)
    ensures Lost(m, c, lost)
  {
    hide Reaches, Diverges;
    if Diverges(m, d) {
      DivergesVia(m, c, d);
    } else {
      var e :| e in lost && Reaches(m, d, e);
      ReachTrans(m, c, d, e);
    }
  }

  lemma MeetsVia(m: Machine, c: Config, d: Config, f: Fate, t: Saved, x: Aim)
    requires Reaches(m, c, d) && Meets(m, d, f, t, x)
    ensures Meets(m, c, f, t, x)
  {
    hide Reaches, Lost;
    match f
    case Success(caps) => ReachTrans(m, c, d, Unwind(caps, x.base));
    case Fallback => ReachTrans(m, c, d, Backtrack(t));
    case Forever => LostVia(m, c, d, x.lost);
  }

  /** What is saved is taken up if the run falls back to it. */
  lemma MeetsElse(m: Machine, c: Config, f: Fate, g: Fate, u: Saved, t: Saved, x: Aim)
    requires Meets(m, c, f, u, x) && (f == Fallback ==> Meets(m, Backtrack(u), g, t, x))
    ensures Meets(m, c, Else(f, g), t, x)
  {
    hide Reaches, Lost;
    if f == Fallback { MeetsVia(m, c, Backtrack(u), g, t, x); }
  }

  // ----- Single instructions -----

  ghost predicate Moves(m: Machine, pc: int, stack: seq<int>, o: Out, pc1: int, stack1: seq<int>, o1: Out, t: Saved) {
    Step(m, Run(pc, o.pos, stack, o.caps, t)) == Run(pc1, o1.pos, stack1, o1.caps, t)
  }

  lemma StepAt(m: Machine, pc: int, o: Out, stack: seq<int>, pc1: int, o1: Out, stack1: seq<int>, f: Fate, x: Aim)
    requires (forall t :: Moves(m, pc, stack, o, pc1, stack1, o1, t)) && At(m, pc1, o1, stack1, f, x)
    ensures At(m, pc, o, stack, f, x)
  {
    hide Step, Meets, Reaches;
    forall t | Above(t, x.base) ensures Meets(m, Run(pc, o.pos, stack, o.caps, t), f, t, x) {
      var c := Run(pc, o.pos, stack, o.caps, t);
      assert Moves(m, pc, stack, o, pc1, stack1, o1, t);
      ReachSelf(m, Step(m, c));
      ReachStep(m, c, Step(m, c));
      MeetsVia(m, c, Step(m, c), f, t, x);
    }
  }

  /** An instruction that only moves on in the code and changes the stack. */
  lemma StepGo(m: Machine, pc: int, stack: seq<int>, pc1: int, stack1: seq<int>, k: Fates, lo: int, x: Aim)
    requires forall o: Out, t :: |o.caps| == x.slots ==> Moves(m, pc, stack, o, pc1, stack1, o, t)
    requires Go(m, pc1, stack1, k, lo, x)
    ensures Go(m, pc, stack, k, lo, x)
  {
    hide At, Moves;
    forall o: Out | From(m, o, lo, x) ensures At(m, pc, o, stack, k(o), x) {
      StepAt(m, pc, o, stack, pc1, o, stack1, k(o), x);
    }
  }

  lemma DropGo(m: Machine, pc: int, v: int, stack: seq<int>, k: Fates, lo: int, x: Aim)
    requires m.fetch(pc) == Some(IDrop) && Go(m, pc + 1, stack, k, lo, x)
    ensures Go(m, pc, stack + [v], k, lo, x)
  {
    hide Go;
    assert (stack + [v])[..|stack|] == stack;
    StepGo(m, pc, stack + [v], pc + 1, stack, k, lo, x);
  }

  /** `loop` with n iterations left on top of the stack. */
  lemma LoopGo(m: Machine, pc: int, off: int, n: nat, stack: seq<int>, k: Fates, lo: int, x: Aim)
    requires m.fetch(pc) == Some(ILoop(off)) && 0 < n < TWO32
    requires Go(m, if n > 1 then pc + 5 + off else pc + 5, stack + [n - 1], k, lo, x)
    ensures Go(m, pc, stack + [n], k, lo, x)
  {
    hide Go;
    assert (stack + [n])[|stack| := n - 1] == stack + [n - 1];
    StepGo(m, pc, stack + [n], if n > 1 then pc + 5 + off else pc + 5, stack + [n - 1], k, lo, x);
  }

  /** A split tries one way, and the other if the run falls back. */
  lemma SplitAt(m: Machine, pc: int, nextFirst: bool, off: int, o: Out, stack: seq<int>, f: Fate, g: Fate, x: Aim)
    requires m.fetch(pc) == Some(ISplit(nextFirst, off))
    requires var now, later := if nextFirst then pc + 5 else pc + 5 + off, if nextFirst then pc + 5 + off else pc + 5;
             At(m, now, o, stack, f, x) && (f == Fallback ==> At(m, later, o, stack, g, x))
    ensures At(m, pc, o, stack, Else(f, g), x)
  {
    hide Meets, Reaches, Else;
    var now, later := if nextFirst then pc + 5 else pc + 5 + off, if nextFirst then pc + 5 + off else pc + 5;
    forall t | Above(t, x.base) ensures Meets(m, Run(pc, o.pos, stack, o.caps, t), Else(f, g), t, x) {
      var c, u := Run(pc, o.pos, stack, o.caps, t), Push(Frame(SplitState, later, o.pos, stack, o.caps), t);
      var d := Run(now, o.pos, stack, o.caps, u);
      if f == Fallback {
        Pops(m, u);
        MeetsVia(m, Backtrack(u), Run(later, o.pos, stack, o.caps, t), g, t, x);
      }
      MeetsElse(m, d, f, g, u, t, x);
      ReachSelf(m, d);
      ReachStep(m, c, d);
      MeetsVia(m, c, d, Else(f, g), t, x);
    }
  }

  lemma Pops(m: Machine, u: Saved)
    requires u.Push? && u.top.kind.SplitState?
    ensures Reaches(m, Backtrack(u), Run(u.top.pc, u.top.pos, u.top.stack, u.top.caps, u.below))
  {
    var d := Run(u.top.pc, u.top.pos, u.top.stack, u.top.caps, u.below);
    ReachSelf(m, d);
    ReachStep(m, Backtrack(u), d);
  }

  lemma SplitGo(m: Machine, pc: int, greedy: bool, off: int, stack: seq<int>, next: Fates, other: Fates, k: Fates, lo: int, x: Aim)
    requires m.fetch(pc) == Some(ISplit(greedy, off)) && Go(m, pc + 5, stack, next, lo, x) && Go(m, pc + 5 + off, stack, other, lo, x)
    requires forall o: Out :: From(m, o, lo, x) ==> k(o) == Choose(greedy, next(o), other(o))
    ensures Go(m, pc, stack, k, lo, x)
  {
    hide At, Else;
    forall o: Out | From(m, o, lo, x) ensures At(m, pc, o, stack, k(o), x) {
      if greedy {
        SplitAt(m, pc, greedy, off, o, stack, next(o), other(o), x);
      } else {
        SplitAt(m, pc, greedy, off, o, stack, other(o), next(o), x);
      }
    }
  }

  // ----- Patterns -----

  ghost predicate Fit(m: Machine, r: Re, cc: nat, slots: nat) {
    Sized(m) && Whole(m) && WellFormed(r) && 2 * (cc + Groups(r)) <= slots
  }

  /** The code of a pattern has the fates of the pattern, given those behind it. */
  lemma {:induction false} CodeFates(m: Machine, r: Re, cc: nat, pc: int, stack: seq<int>, k: Fates, lo: int, x: Aim)
    requires Fit(m, r, cc, x.slots) && CodeAt(m.fetch, pc, Gen(r, cc)) && 0 <= lo && ByPosition(k)
    requires Go(m, pc + Len(Gen(r, cc)), stack, k, lo, x)
    ensures Go(m, pc, stack, Before(m.s, r, cc, k), lo, x)
    decreases r, 0, 0
  {
    hide Go, CodeAt, Len, Gen, Sized, Must, Optional, UnitEnd, LookFate, AltCode, ByPosition, Enter;
    match r
    case Cat(a, b) =>
      CatLayout(m.fetch, a, b, cc, pc);
      BeforeByPosition(m.s, b, cc + Groups(a), k);
      CodeFates(m, b, cc + Groups(a), pc + Len(Gen(a, cc)), stack, k, lo, x);
      CodeFates(m, a, cc, pc, stack, Before(m.s, b, cc + Groups(a), k), lo, x);
    case Alt(a, b) => AltFates(m, a, b, cc, pc, stack, k, lo, x);
    case Group(b) => GroupFates(m, b, cc, pc, stack, k, lo, x);
    case Look(negated, b) => LookFates(m, negated, b, cc, pc, stack, k, lo, x);
    case Quant(b, min, max, greedy) => QuantFates(m, b, min, max, greedy, cc, pc, stack, k, lo, x);
    case _ => UnitFates(m, r, cc, pc, stack, k, lo, x);
  }

  lemma AltFates(m: Machine, a: Re, b: Re, cc: nat, pc: int, stack: seq<int>, k: Fates, lo: int, x: Aim)
    requires Fit(m, Alt(a, b), cc, x.slots) && CodeAt(m.fetch, pc, Gen(Alt(a, b), cc)) && 0 <= lo && ByPosition(k)
    requires Go(m, pc + Len(Gen(Alt(a, b), cc)), stack, k, lo, x)
    ensures Go(m, pc, stack, Before(m.s, Alt(a, b), cc, k), lo, x)
    decreases Alt(a, b), -1, 0
  {
    hide Go, CodeAt, Len, Gen, Sized, Must, Optional, UnitEnd, LookFate, AltCode, ByPosition, Enter;
    var size, g, h := Len(Gen(a, cc)), Before(m.s, a, cc, k), Before(m.s, b, cc + Groups(a), k);
    AltLayout(m.fetch, pc, Gen(a, cc), Gen(b, cc + Groups(a)));
    AltGen(a, b, cc);
    CodeFates(m, b, cc + Groups(a), pc + 10 + size, stack, k, lo, x);
    StepGo(m, pc + 5 + size, stack, pc + Len(Gen(Alt(a, b), cc)), stack, k, lo, x);
    CodeFates(m, a, cc, pc + 5, stack, k, lo, x);
    SplitGo(m, pc, true, size + 5, stack, g, h, Before(m.s, Alt(a, b), cc, k), lo, x);
  }

  lemma GroupFates(m: Machine, b: Re, cc: nat, pc: int, stack: seq<int>, k: Fates, lo: int, x: Aim)
    requires Fit(m, Group(b), cc, x.slots) && CodeAt(m.fetch, pc, Gen(Group(b), cc)) && 0 <= lo && ByPosition(k)
    requires Go(m, pc + Len(Gen(Group(b), cc)), stack, k, lo, x)
    ensures Go(m, pc, stack, Before(m.s, Group(b), cc, k), lo, x)
    decreases Group(b), -1, 0
  {
    hide Go, CodeAt, Len, Gen, Sized, ByPosition;
    var size, g := Len(Gen(b, cc + 1)), Closing(cc, k);
    GroupLayout(m.fetch, b, cc, pc);
    SaveGo(m, pc + 2 + size, true, cc, stack, k, g, lo, x);
    ClosingByPosition(cc, k);
    CodeFates(m, b, cc + 1, pc + 2, stack, g, lo, x);
    SaveGo(m, pc, false, cc, stack, Before(m.s, b, cc + 1, g), Before(m.s, Group(b), cc, k), lo, x);
  }

  /** `save` stores the position in one of the slots of its group. */
  lemma SaveGo(m: Machine, pc: int, end: bool, g: nat, stack: seq<int>, k: Fates, k1: Fates, lo: int, x: Aim)
    requires m.fetch(pc) == Some(ISave(end, g)) && 2 * g + 1 < x.slots && Go(m, pc + 2, stack, k, lo, x)
    requires forall o: Out :: From(m, o, lo, x) ==> k1(o) == k(if end then Closed(g, o) else Opened(g, o))
    ensures Go(m, pc, stack, k1, lo, x)
  {
    hide At, SetCap;
    forall o: Out | From(m, o, lo, x) ensures At(m, pc, o, stack, k1(o), x) {
      var o1 := if end then Closed(g, o) else Opened(g, o);
      StepAt(m, pc, o, stack, pc + 2, o1, stack, k1(o), x);
    }
  }

  lemma GroupLayout(fetch: Fetch, b: Re, cc: nat, pc: int)
    requires CodeAt(fetch, pc, Gen(Group(b), cc))
    ensures var size := Len(Gen(b, cc + 1));
            && fetch(pc) == Some(ISave(false, cc)) && CodeAt(fetch, pc + 2, Gen(b, cc + 1))
            && fetch(pc + 2 + size) == Some(ISave(true, cc)) && Len(Gen(Group(b), cc)) == size + 4
  {
    hide CodeAt, Len, Gen;
    var a := Gen(b, cc + 1);
    GroupGen(b, cc);
    CodeAtHead(fetch, pc, ISave(false, cc), a + [ISave(true, cc)]);
    UnitLayout(fetch, pc + 2, a, ISave(true, cc));
  }

  lemma UnitFates(m: Machine, r: Re, cc: nat, pc: int, stack: seq<int>, k: Fates, lo: int, x: Aim)
    requires IsUnit(r) && WellFormed(r) && CodeAt(m.fetch, pc, Gen(r, cc)) && 0 <= lo && Go(m, pc + Len(Gen(r, cc)), stack, k, lo, x)
    ensures Go(m, pc, stack, Before(m.s, r, cc, k), lo, x)
  {
    hide At, CodeAt, UnitEnd, Straight;
    forall o: Out | From(m, o, lo, x) ensures At(m, pc, o, stack, Before(m.s, r, cc, k)(o), x) {
      StraightUnit(m.s, r, cc, o.pos);
      if r.Empty? {
        assert o.(pos := o.pos) == o;
      } else {
        var i := Gen(r, cc)[0];
        assert Gen(r, cc) == [i];
        UnitAt(m.fetch, pc, i);
        TestAt(m, pc, i, o, stack, k, x);
      }
    }
  }

  lemma StraightUnit(s: seq<byte>, r: Re, cc: nat, pos: int)
    requires IsUnit(r) && WellFormed(r)
    ensures UnitEnd(s, r, pos) == Straight(s, Gen(r, cc), pos) && (r.Empty? ==> Straight(s, Gen(r, cc), pos) == Some(pos))
  {
    hide Outcomes, ClassCode;
    UnitOutcomes(s, 0, r, 0, Out(pos, []));
    assert Gen(r, 0) == Gen(r, cc);
  }

  lemma TestAt(m: Machine, pc: int, i: Instr, o: Out, stack: seq<int>, k: Fates, x: Aim)
    requires m.fetch(pc) == Some(i) && (IsTest(i) || IsAssertion(i)) && 0 <= o.pos <= |m.s|
    requires forall q :: o.pos <= q <= |m.s| ==> At(m, pc + Size(i), o.(pos := q), stack, k(o.(pos := q)), x)
    ensures At(m, pc, o, stack, match Straight(m.s, [i], o.pos) case None => Fallback case Some(q) => k(o.(pos := q)), x)
  {
    hide Straight, Accepts, Holds;
    UnitStraight(m.s, i, o.pos);
    match Straight(m.s, [i], o.pos)
    case Some(q) => StepAt(m, pc, o, stack, pc + Size(i), o.(pos := q), stack, k(o.(pos := q)), x);
    case None =>
      forall t | Above(t, x.base) ensures Meets(m, Run(pc, o.pos, stack, o.caps, t), Fallback, t, x) {
        ReachSelf(m, Backtrack(t));
        ReachStep(m, Run(pc, o.pos, stack, o.caps, t), Backtrack(t));
      }
  }

  /** A lookahead runs its body above its own saved state. */
  lemma LookFates(m: Machine, negated: bool, b: Re, cc: nat, pc: int, stack: seq<int>, k: Fates, lo: int, x: Aim)
    requires Fit(m, b, cc, x.slots) && CodeAt(m.fetch, pc, Gen(Look(negated, b), cc)) && 0 <= lo && ByPosition(k)
    requires Go(m, pc + Len(Gen(Look(negated, b), cc)), stack, k, lo, x)
    ensures Go(m, pc, stack, Before(m.s, Look(negated, b), cc, k), lo, x)
    decreases b, 3, 0
  {
    hide At, CodeAt, Len, Gen, Fit, Meets, LookFate;
    var a := Gen(b, cc);
    GenUnfold(Look(negated, b), cc);
    CodeAtHead(m.fetch, pc, ILook(negated, Len(a) + 1), a + [IMatch]);
    UnitLayout(m.fetch, pc + 5, a, IMatch);
    var inside := Before(m.s, b, cc, MATCHED);
    MatchedByPosition();
    forall o: Out | From(m, o, lo, x) ensures At(m, pc, o, stack, LookFate(negated, inside(o), o, k), x) {
      forall t | Above(t, x.base) ensures Meets(m, Run(pc, o.pos, stack, o.caps, t), LookFate(negated, inside(o), o, k), t, x) {
        var u := Push(Frame(LookState(negated), pc + 6 + Len(a), o.pos, stack, o.caps), t);
        InsideMatches(m, pc + 5 + Len(a), stack, lo, x.(base := u));
        CodeFates(m, b, cc, pc + 5, stack, MATCHED, lo, x.(base := u));
        assert From(m, o, lo, x.(base := u));
        InsideAt(m, pc + 5, o, stack, inside(o), x.(base := u));
        LookEnds(m, pc, negated, Len(a), o, stack, t, inside(o), k, lo, x);
      }
      AllMeet(m, pc, o, stack, LookFate(negated, inside(o), o, k), x);
    }
  }

  lemma AllMeet(m: Machine, pc: int, o: Out, stack: seq<int>, f: Fate, x: Aim)
    requires forall t :: Above(t, x.base) ==> Meets(m, Run(pc, o.pos, stack, o.caps, t), f, t, x)
    ensures At(m, pc, o, stack, f, x)
  {
  }

  lemma InsideAt(m: Machine, pc: int, o: Out, stack: seq<int>, f: Fate, x: Aim)
    requires At(m, pc, o, stack, f, x)
    ensures Meets(m, Run(pc, o.pos, stack, o.caps, x.base), f, x.base, x)
  {
    hide Meets;
    assert Above(x.base, x.base);
  }

  lemma InsideMatches(m: Machine, pc: int, stack: seq<int>, lo: int, x: Aim)
    requires m.fetch(pc) == Some(IMatch)
    ensures Go(m, pc, stack, MATCHED, lo, x)
  {
    hide Reaches, Above;
    forall o: Out | From(m, o, lo, x) ensures At(m, pc, o, stack, MATCHED(o), x) {
      forall t | Above(t, x.base) ensures Meets(m, Run(pc, o.pos, stack, o.caps, t), Success(o.caps), t, x) {
        UnwindAbove(m, o.caps, t, x.base);
        ReachStep(m, Run(pc, o.pos, stack, o.caps, t), Unwind(o.caps, x.base));
      }
    }
  }

  lemma LookEnds(m: Machine, pc: int, negated: bool, size: nat, o: Out, stack: seq<int>, t: Saved, f: Fate, k: Fates, lo: int, x: Aim)
    requires m.fetch(pc) == Some(ILook(negated, size + 1)) && From(m, o, lo, x) && Above(t, x.base)
    requires var u := Push(Frame(LookState(negated), pc + 6 + size, o.pos, stack, o.caps), t);
             Meets(m, Run(pc + 5, o.pos, stack, o.caps, u), f, u, x.(base := u))
    requires Go(m, pc + 6 + size, stack, k, lo, x)
    ensures Meets(m, Run(pc, o.pos, stack, o.caps, t), LookFate(negated, f, o, k), t, x)
  {
    hide Reaches, Above, Lost, At;
    var u := Push(Frame(LookState(negated), pc + 6 + size, o.pos, stack, o.caps), t);
    var c, d := Run(pc, o.pos, stack, o.caps, t), Run(pc + 5, o.pos, stack, o.caps, u);
    ReachSelf(m, d);
    ReachStep(m, c, d);
    match f
    case Forever => LostVia(m, c, d, x.lost);
    case Success(caps) =>
      var o1 := Out(o.pos, caps);
      ReachTrans(m, c, d, Unwind(caps, u));
      assert From(m, o1, lo, x);
      LookPops(m, c, Unwind(caps, u), !negated, pc + 6 + size, o1, stack, t, k(o1), x);
    case Fallback =>
      ReachTrans(m, c, d, Backtrack(u));
      LookPops(m, c, Backtrack(u), negated, pc + 6 + size, o, stack, t, k(o), x);
  }

  lemma LookPops(m: Machine, c: Config, d: Config, on: bool, pc: int, o: Out, stack: seq<int>, t: Saved, g: Fate, x: Aim)
    requires Reaches(m, c, d) && Step(m, d) == (if on then Run(pc, o.pos, stack, o.caps, t) else Backtrack(t))
    requires Above(t, x.base) && At(m, pc, o, stack, g, x)
    ensures Meets(m, c, if on then g else Fallback, t, x)
  {
    hide Reaches, Above, Step, Lost;
    ReachSelf(m, Step(m, d));
    ReachStep(m, d, Step(m, d));
    ReachTrans(m, c, d, Step(m, d));
    if on { MeetsVia(m, c, Step(m, d), g, t, x); }
  }

  // ----- Counted iterations -----

  lemma {:induction false} FixedFates(m: Machine, b: Re, cc: nat, pc: int, n: nat, stack: seq<int>, k: Fates, lo: int, x: Aim)
    requires Fit(m, b, cc, x.slots) && CodeAt(m.fetch, pc, Gen(b, cc)) && 0 <= lo && 0 < n < TWO32 && ByPosition(k)
    requires var size := Len(Gen(b, cc));
             && m.fetch(pc + size) == Some(ILoop(Back(size))) && m.fetch(pc + size + 5) == Some(IDrop)
             && Go(m, pc + size + 6, stack, k, lo, x)
    ensures Go(m, pc, stack + [n], Must(m.s, b, cc, n, k), lo, x)
    decreases b, 1, n
  {
    hide Go, CodeAt, Len, Gen, Fit, Before, ByPosition;
    var size := Len(Gen(b, cc));
    MustByPosition(m.s, b, cc, n - 1, k);
    if n == 1 {
      DropGo(m, pc + size + 5, 0, stack, k, lo, x);
    } else {
      FixedFates(m, b, cc, pc, n - 1, stack, k, lo, x);
    }
    LoopGo(m, pc + size, Back(size), n, stack, Must(m.s, b, cc, n - 1, k), lo, x);
    CodeFates(m, b, cc, pc, stack + [n], Must(m.s, b, cc, n - 1, k), lo, x);
  }

  lemma {:induction false} CountedFates(m: Machine, b: Re, cc: nat, pc: int, n: nat, greedy: bool, stack: seq<int>, k: Fates, lo: int, x: Aim)
    requires Fit(m, b, cc, x.slots) && CodeAt(m.fetch, pc + 5, Gen(b, cc)) && 0 <= lo && 0 < n < TWO32 && ByPosition(k)
    requires var size := Len(Gen(b, cc));
             && m.fetch(pc) == Some(ISplit(greedy, size + 5)) && m.fetch(pc + 5 + size) == Some(ILoop(Back(size + 5)))
             && m.fetch(pc + size + 10) == Some(IDrop) && Go(m, pc + size + 11, stack, k, lo, x)
    ensures Go(m, pc, stack + [n], UpToFates(m.s, b, cc, n, greedy, k), lo, x)
    decreases b, 1, n
  {
    hide Go, CodeAt, Len, Gen, Fit, Before, ByPosition;
    var size, rest := Len(Gen(b, cc)), UpToFates(m.s, b, cc, n - 1, greedy, k);
    UpToByPosition(m.s, b, cc, n - 1, greedy, k);
    if n == 1 {
      DropGo(m, pc + size + 10, 0, stack, k, lo, x);
    } else {
      CountedFates(m, b, cc, pc, n - 1, greedy, stack, k, lo, x);
    }
    LoopGo(m, pc + 5 + size, Back(size + 5), n, stack, rest, lo, x);
    CodeFates(m, b, cc, pc + 5, stack + [n], rest, lo, x);
    DropGo(m, pc + size + 10, n, stack, k, lo, x);
    SplitGo(m, pc, greedy, size + 5, stack + [n], Before(m.s, b, cc, rest), k, UpToFates(m.s, b, cc, n, greedy, k), lo, x);
  }

  // ----- Unbounded loops -----

  /** With the check: an iteration that ends where it started leaves the loop. */
  lemma {:induction false} CheckedFates(m: Machine, b: Re, cc: nat, pc: int, stack: seq<int>, k: Fates, o: Out, x: Aim)
    requires Fit(m, b, cc, x.slots) && CodeAt(m.fetch, pc + 6, Gen(b, cc)) && NeedsCheck(Gen(b, cc), true) && ByPosition(k)
    requires 0 <= o.pos && From(m, o, o.pos, x)
    requires var size := Len(Gen(b, cc));
             && m.fetch(pc) == Some(ISplit(true, size + 6)) && m.fetch(pc + 5) == Some(IPushPos)
             && m.fetch(pc + 6 + size) == Some(IBnePos(Back(size + 6))) && Go(m, pc + size + 11, stack, k, o.pos, x)
    ensures At(m, pc, o, stack, LoopFate(m.s, b, cc, true, k, o), x)
    decreases b, 1, |m.s| - o.pos
  {
    hide CodeAt, Len, Gen, Fit, Before, At, NeedsCheck, ByPosition;
    var pos, size, g := o.pos, Len(Gen(b, cc)), AfterRound(m.s, b, cc, true, k, o.pos);
    forall p: Out | From(m, p, pos, x) ensures At(m, pc + 6 + size, p, stack + [pos], g(p), x) {
      if p.pos > pos { CheckedFates(m, b, cc, pc, stack, k, p, x); }
      assert (stack + [pos])[..|stack|] == stack;
      StepAt(m, pc + 6 + size, p, stack + [pos], if p.pos > pos then pc else pc + size + 11, p, stack, g(p), x);
    }
    RoundByPosition(m.s, b, cc, true, k, pos);
    CodeFates(m, b, cc, pc + 6, stack + [pos], g, pos, x);
    var f := Before(m.s, b, cc, g)(o);
    StepAt(m, pc + 5, o, stack, pc + 6, o, stack + [pos], f, x);
    SplitAt(m, pc, true, size + 6, o, stack, f, k(o), x);
  }

  /** The split at `head` goes to `entry` first when greedy, and to `exit` first when not. */
  predicate LoopHead(m: Machine, head: int, exit: int, entry: int, greedy: bool) {
    || (m.fetch(head) == Some(ISplit(greedy, exit - head - 5)) && entry == head + 5)
    || (m.fetch(head) == Some(ISplit(!greedy, entry - head - 5)) && exit == head + 5)
  }

  /** Behind the body the code comes back to the head. */
  predicate ComesBack(m: Machine, end: int, head: int) {
    end == head || m.fetch(end) == Some(IGoto(head - end - 5))
  }

  lemma HeadAt(m: Machine, head: int, exit: int, entry: int, greedy: bool, o: Out, stack: seq<int>, f: Fate, g: Fate, x: Aim)
    requires LoopHead(m, head, exit, entry, greedy) && At(m, exit, o, stack, g, x)
    requires greedy || g == Fallback ==> At(m, entry, o, stack, f, x)
    ensures At(m, head, o, stack, Choose(greedy, f, g), x)
  {
    hide At, Else;
    if m.fetch(head) == Some(ISplit(greedy, exit - head - 5)) && entry == head + 5 {
      if greedy {
        SplitAt(m, head, greedy, exit - head - 5, o, stack, f, g, x);
      } else {
        SplitAt(m, head, greedy, exit - head - 5, o, stack, g, f, x);
      }
    } else {
      if greedy {
        SplitAt(m, head, !greedy, entry - head - 5, o, stack, f, g, x);
      } else {
        SplitAt(m, head, !greedy, entry - head - 5, o, stack, g, f, x);
      }
    }
  }

  /** The configurations at the head of a loop. */
  ghost function Heads(head: int, pos: int, stack: seq<int>, x: Aim): iset<Config> {
    iset caps: seq<int>, t | |caps| == x.slots && Above(t, x.base) :: Run(head, pos, stack, caps, t)
  }

  function Wider(x: Aim, more: iset<Config>): Aim {
    x.(lost := x.lost + more)
  }

  lemma WiderAt(m: Machine, pc: int, o: Out, stack: seq<int>, f: Fate, x: Aim, more: iset<Config>)
    ensures At(m, pc, o, stack, f, x) ==> At(m, pc, o, stack, f, Wider(x, more))
    ensures f != Forever && At(m, pc, o, stack, f, Wider(x, more)) ==> At(m, pc, o, stack, f, x)
  {
    hide Reaches, Diverges;
    var y := Wider(x, more);
    if At(m, pc, o, stack, f, x) {
      forall t | Above(t, x.base) ensures Meets(m, Run(pc, o.pos, stack, o.caps, t), f, t, y) {
        assert Meets(m, Run(pc, o.pos, stack, o.caps, t), f, t, x);
      }
    }
    if f != Forever && At(m, pc, o, stack, f, y) {
      forall t | Above(t, x.base) ensures Meets(m, Run(pc, o.pos, stack, o.caps, t), f, t, x) {
        assert Meets(m, Run(pc, o.pos, stack, o.caps, t), f, t, y);
      }
    }
  }

  lemma AtHeads(m: Machine, head: int, o: Out, stack: seq<int>, x: Aim)
    requires |o.caps| == x.slots
    ensures At(m, head, o, stack, Forever, Wider(x, Heads(head, o.pos, stack, x)))
  {
    var y := Wider(x, Heads(head, o.pos, stack, x));
    forall t | Above(t, y.base) ensures Meets(m, Run(head, o.pos, stack, o.caps, t), Forever, t, y) {
      ReachSelf(m, Run(head, o.pos, stack, o.caps, t));
      assert Run(head, o.pos, stack, o.caps, t) in y.lost;
    }
  }

  /** One step behind the head the run is lost, or comes to the head again. */
  ghost predicate Again(m: Machine, head: int, pos: int, stack: seq<int>, x: Aim) {
    forall caps: seq<int>, t :: |caps| == x.slots && Above(t, x.base) ==>
      Lost(m, Step(m, Run(head, pos, stack, caps, t)), x.lost + Heads(head, pos, stack, x))
  }

  lemma HeadAgain(m: Machine, head: int, exit: int, entry: int, greedy: bool, pos: int, stack: seq<int>, x: Aim)
    requires LoopHead(m, head, exit, entry, greedy)
    requires forall o: Out :: o.pos == pos && |o.caps| == x.slots ==>
      && (!greedy ==> At(m, exit, o, stack, Fallback, x)) && At(m, entry, o, stack, Forever, Wider(x, Heads(head, pos, stack, x)))
    ensures Again(m, head, pos, stack, x)
  {
    hide Reaches, Lost, Heads;
    var y := Wider(x, Heads(head, pos, stack, x));
    forall caps: seq<int>, t | |caps| == x.slots && Above(t, x.base) ensures Lost(m, Step(m, Run(head, pos, stack, caps, t)), y.lost) {
      var o, c := Out(pos, caps), Run(head, pos, stack, caps, t);
      var u := Push(Frame(SplitState, if greedy then exit else entry, pos, stack, caps), t);
      assert Step(m, c) == Run(if greedy then entry else exit, pos, stack, caps, u);
      assert At(m, entry, o, stack, Forever, y);
      if greedy {
        assert Meets(m, Run(entry, o.pos, stack, o.caps, u), Forever, u, y);
      } else {
        var d := Run(entry, o.pos, stack, o.caps, t);
        assert At(m, exit, o, stack, Fallback, x);
        assert Meets(m, Run(exit, o.pos, stack, o.caps, u), Fallback, u, x) && Meets(m, d, Forever, t, y);
        Pops(m, u);
        ReachTrans(m, Step(m, c), Backtrack(u), d);
        LostVia(m, Step(m, c), d, y.lost);
      }
    }
  }

  /** A run that always comes back to the head never ends, unless it gets lost otherwise. */
  lemma {:induction false} ComesAgain(m: Machine, head: int, pos: int, stack: seq<int>, x: Aim, caps: seq<int>, t: Saved, n: nat)
    requires Again(m, head, pos, stack, x) && |caps| == x.slots && Above(t, x.base)
    ensures (exists d :: d in x.lost && Reaches(m, Run(head, pos, stack, caps, t), d)) || !Steps(m, Run(head, pos, stack, caps, t), n).Done?
    decreases n
  {
    hide Reaches, Step, Above;
    var c := Run(head, pos, stack, caps, t);
    if n > 0 {
      var c1 := Step(m, c);
      if Diverges(m, c1) {
        assert !Steps(m, c1, n - 1).Done?;
      } else {
        var d :| d in x.lost + Heads(head, pos, stack, x) && Reaches(m, c1, d);
        ReachStep(m, c, d);
        if d !in x.lost {
          var caps1: seq<int>, t1 :| |caps1| == x.slots && Above(t1, x.base) && d == Run(head, pos, stack, caps1, t1);
          var j := StepsTo(m, c1, d);
          assert Steps(m, c, j + 1) == d;
          if n <= j {
            NotDoneBefore(m, c, n, j + 1);
          } else {
            ComesAgain(m, head, pos, stack, x, caps1, t1, n - j - 1);
            StepsAdd(m, c, j + 1, n - j - 1);
            if e :| e in x.lost && Reaches(m, d, e) { ReachTrans(m, c, d, e); }
          }
        }
      }
    }
  }

  lemma StepsTo(m: Machine, c: Config, d: Config) returns (k: nat)
    requires Reaches(m, c, d)
    ensures Steps(m, c, k) == d
  {
    k :| Steps(m, c, k) == d;
  }

  lemma AgainForever(m: Machine, head: int, o: Out, stack: seq<int>, x: Aim)
    requires Again(m, head, o.pos, stack, x) && |o.caps| == x.slots
    ensures At(m, head, o, stack, Forever, x)
  {
    hide Reaches, Again, Above;
    forall t | Above(t, x.base) ensures Meets(m, Run(head, o.pos, stack, o.caps, t), Forever, t, x) {
      var c := Run(head, o.pos, stack, o.caps, t);
      if n: nat :| Steps(m, c, n).Done? {
        ComesAgain(m, head, o.pos, stack, x, o.caps, t, n);
      }
    }
  }

  /** Without the check: an iteration that ends where it started comes back to the head. */
  lemma {:induction false} UncheckedFates(m: Machine, b: Re, cc: nat, head: int, exit: int, entry: int, greedy: bool,
                                          stack: seq<int>, k: Fates, o: Out, x: Aim)
    requires Fit(m, b, cc, x.slots) && CodeAt(m.fetch, entry, Gen(b, cc)) && !NeedsCheck(Gen(b, cc), greedy) && ByPosition(k)
    requires 0 <= o.pos && From(m, o, o.pos, x)
    requires LoopHead(m, head, exit, entry, greedy) && ComesBack(m, entry + Len(Gen(b, cc)), head) && Go(m, exit, stack, k, o.pos, x)
    ensures At(m, head, o, stack, LoopFate(m.s, b, cc, greedy, k, o), x)
    decreases b, 1, |m.s| - o.pos
  {
    hide CodeAt, Len, Gen, Fit, Before, At, NeedsCheck, Heads, LoopHead, ByPosition;
    var pos, heads := o.pos, Heads(head, o.pos, stack, x);
    var size, g, y := Len(Gen(b, cc)), AfterRound(m.s, b, cc, greedy, k, pos), Wider(x, heads);
    forall p: Out | From(m, p, pos, y) ensures At(m, exit, p, stack, k(p), y) { WiderAt(m, exit, p, stack, k(p), x, heads); }
    forall p: Out | From(m, p, pos, y) ensures At(m, entry + size, p, stack, g(p), y) {
      if p.pos > pos {
        UncheckedFates(m, b, cc, head, exit, entry, greedy, stack, k, p, y);
      } else {
        AtHeads(m, head, p, stack, x);
      }
      if entry + size != head { StepAt(m, entry + size, p, stack, head, p, stack, g(p), y); }
    }
    RoundByPosition(m.s, b, cc, greedy, k, pos);
    CodeFates(m, b, cc, entry, stack, g, pos, y);
    BeforeByPosition(m.s, b, cc, g);
    RoundEnds(m, head, exit, entry, greedy, o, stack, Before(m.s, b, cc, g), k, x);
  }

  /** All outcomes of one position go the same way. */
  lemma RoundEnds(m: Machine, head: int, exit: int, entry: int, greedy: bool, o: Out, stack: seq<int>, f: Fates, g: Fates, x: Aim)
    requires LoopHead(m, head, exit, entry, greedy) && ByPosition(f) && ByPosition(g) && From(m, o, o.pos, x)
    requires Go(m, exit, stack, g, o.pos, x) && Go(m, entry, stack, f, o.pos, Wider(x, Heads(head, o.pos, stack, x)))
    ensures At(m, head, o, stack, Choose(greedy, f(o), g(o)), x)
  {
    hide At, LoopHead, Heads, ByPosition;
    var heads := Heads(head, o.pos, stack, x);
    assert From(m, o, o.pos, Wider(x, heads));
    WiderAt(m, entry, o, stack, f(o), x, heads);
    if f(o) == Forever && (greedy || g(o) == Fallback) {
      forall p: Out | p.pos == o.pos && |p.caps| == x.slots
        ensures (!greedy ==> At(m, exit, p, stack, Fallback, x)) && At(m, entry, p, stack, Forever, Wider(x, heads))
      {
        ByPositionAt(f, o, p);
        ByPositionAt(g, o, p);
        assert From(m, p, o.pos, x) && From(m, p, o.pos, Wider(x, heads));
      }
      HeadAgain(m, head, exit, entry, greedy, o.pos, stack, x);
      AgainForever(m, head, o, stack, x);
    } else {
      HeadAt(m, head, exit, entry, greedy, o, stack, f(o), g(o), x);
    }
  }

  lemma InfiniteFates(m: Machine, b: Re, cc: nat, pc: int, greedy: bool, stack: seq<int>, min: nat, k: Fates, lo: int, x: Aim)
    requires Fit(m, b, cc, x.slots) && 0 <= lo && ByPosition(k) && CodeAt(m.fetch, pc, InfiniteLoop(Gen(b, cc), NeedsCheck(Gen(b, cc), greedy), greedy))
    requires Go(m, pc + Len(InfiniteLoop(Gen(b, cc), NeedsCheck(Gen(b, cc), greedy), greedy)), stack, k, lo, x)
    ensures Go(m, pc, stack, Optional(m.s, b, cc, min, INFINITE, greedy, k), lo, x)
    decreases b, 2, 0
  {
    hide CodeAt, Len, Gen, Fit, At, InfiniteLoop, LoopFate, ScanAdvance;
    var a := Gen(b, cc);
    CheckedLayout(m.fetch, pc, a, greedy);
    UncheckedLayout(m.fetch, pc, a, greedy);
    forall o: Out | From(m, o, lo, x) ensures At(m, pc, o, stack, LoopFate(m.s, b, cc, greedy, k, o), x) {
      if NeedsCheck(a, greedy) {
        GoFrom(m, pc + 11 + Len(a), stack, k, lo, o.pos, x);
        CheckedFates(m, b, cc, pc, stack, k, o, x);
      } else {
        GoFrom(m, pc + 10 + Len(a), stack, k, lo, o.pos, x);
        UncheckedFates(m, b, cc, pc, pc + 10 + Len(a), pc + 5, greedy, stack, k, o, x);
      }
    }
  }

  // ----- Quantifiers -----

  lemma CountedGo(m: Machine, b: Re, cc: nat, pc: int, n: nat, greedy: bool, stack: seq<int>, k: Fates, lo: int, x: Aim)
    requires Fit(m, b, cc, x.slots) && 0 <= lo && ByPosition(k) && 0 < n < TWO32 && CodeAt(m.fetch, pc, CountedLoop(Gen(b, cc), n, greedy))
    requires Go(m, pc + Len(CountedLoop(Gen(b, cc), n, greedy)), stack, k, lo, x)
    ensures Go(m, pc, stack, UpToFates(m.s, b, cc, n, greedy, k), lo, x)
    decreases b, 2, 0
  {
    hide ByPosition, Go, CodeAt, Len, Gen, Fit, CountedLoop, UpToFates;
    CountedLayout(m.fetch, pc, Gen(b, cc), n, greedy);
    CountedFates(m, b, cc, pc + 5, n, greedy, stack, k, lo, x);
    StepGo(m, pc, stack, pc + 5, stack + [n], UpToFates(m.s, b, cc, n, greedy, k), lo, x);
  }

  lemma OptionalGo(m: Machine, b: Re, cc: nat, pc: int, greedy: bool, stack: seq<int>, k: Fates, lo: int, x: Aim)
    requires Fit(m, b, cc, x.slots) && 0 <= lo && ByPosition(k) && CodeAt(m.fetch, pc, OptionalCode(Gen(b, cc), greedy))
    requires Go(m, pc + Len(OptionalCode(Gen(b, cc), greedy)), stack, k, lo, x)
    ensures Go(m, pc, stack, UpToFates(m.s, b, cc, 1, greedy, k), lo, x)
    decreases b, 2, 0
  {
    hide ByPosition, Go, CodeAt, Len, Gen, Fit, Before;
    var a := Gen(b, cc);
    CodeAtHead(m.fetch, pc, ISplit(greedy, Len(a)), a);
    CodeFates(m, b, cc, pc + 5, stack, k, lo, x);
    assert UpToFates(m.s, b, cc, 0, greedy, k) == k;
    SplitGo(m, pc, greedy, Len(a), stack, Before(m.s, b, cc, k), k, UpToFates(m.s, b, cc, 1, greedy, k), lo, x);
  }

  lemma ZeroFates(m: Machine, b: Re, cc: nat, pc: int, max: nat, greedy: bool, stack: seq<int>, k: Fates, lo: int, x: Aim)
    requires Fit(m, b, cc, x.slots) && 0 <= lo && ByPosition(k) && max <= INFINITE
    requires CodeAt(m.fetch, pc, TailFromZero(Gen(b, cc), max, greedy, NeedsCheck(Gen(b, cc), greedy)))
    requires Go(m, pc + Len(TailFromZero(Gen(b, cc), max, greedy, NeedsCheck(Gen(b, cc), greedy))), stack, k, lo, x)
    ensures Go(m, pc, stack, Optional(m.s, b, cc, 0, max, greedy, k), lo, x)
    decreases b, 3, 0
  {
    hide ByPosition, Go, CodeAt, Gen, Fit, Before, InfiniteLoop, CountedLoop, OptionalCode, LoopFate, NeedsCheck;
    if max == 0 {
    } else if max == 1 {
      OptionalGo(m, b, cc, pc, greedy, stack, k, lo, x);
    } else if max == INFINITE {
      InfiniteFates(m, b, cc, pc, greedy, stack, 0, k, lo, x);
    } else {
      CountedGo(m, b, cc, pc, max, greedy, stack, k, lo, x);
    }
  }

  lemma TailFates(m: Machine, b: Re, cc: nat, pc: int, min: nat, max: nat, greedy: bool, stack: seq<int>, k: Fates, lo: int, x: Aim)
    requires Fit(m, b, cc, x.slots) && 0 <= lo && ByPosition(k) && min <= max <= INFINITE
    requires CodeAt(m.fetch, pc, TailFromMin(Gen(b, cc), min, max, greedy, NeedsCheck(Gen(b, cc), greedy)))
    requires Go(m, pc + Len(TailFromMin(Gen(b, cc), min, max, greedy, NeedsCheck(Gen(b, cc), greedy))), stack, k, lo, x)
    ensures Go(m, pc, stack, Optional(m.s, b, cc, min, max, greedy, k), lo, x)
    decreases b, 3, 0
  {
    hide ByPosition, Go, CodeAt, Gen, Fit, Before, InfiniteLoop, CountedLoop, LoopFate, NeedsCheck;
    if max == INFINITE {
      InfiniteFates(m, b, cc, pc, greedy, stack, min, k, lo, x);
    } else if max > min {
      CountedGo(m, b, cc, pc, max - min, greedy, stack, k, lo, x);
    }
  }

  lemma MinFates(m: Machine, b: Re, cc: nat, pc: int, min: nat, stack: seq<int>, k: Fates, lo: int, x: Aim)
    requires Fit(m, b, cc, x.slots) && 0 <= lo && ByPosition(k) && 0 < min < TWO32 && CodeAt(m.fetch, pc, MinCode(Gen(b, cc), min))
    requires Go(m, pc + Len(MinCode(Gen(b, cc), min)), stack, k, lo, x)
    ensures Go(m, pc, stack, Must(m.s, b, cc, min, k), lo, x)
    decreases b, 3, 0
  {
    hide ByPosition, Go, CodeAt, Gen, Fit, Before, FixedLoop, Len;
    if min == 1 {
      CodeFates(m, b, cc, pc, stack, k, lo, x);
      assert Must(m.s, b, cc, 0, k) == k;
    } else {
      FixedLayout(m.fetch, pc, Gen(b, cc), min);
      FixedFates(m, b, cc, pc + 5, min, stack, k, lo, x);
      StepGo(m, pc, stack, pc + 5, stack + [min], Must(m.s, b, cc, min, k), lo, x);
    }
  }

  lemma PlusFates(m: Machine, b: Re, cc: nat, pc: int, greedy: bool, stack: seq<int>, k: Fates, lo: int, x: Aim)
    requires Fit(m, b, cc, x.slots) && 0 <= lo && ByPosition(k) && !NeedsCheck(Gen(b, cc), greedy) && CodeAt(m.fetch, pc, PlusLoop(Gen(b, cc), greedy))
    requires Go(m, pc + Len(PlusLoop(Gen(b, cc), greedy)), stack, k, lo, x)
    ensures Go(m, pc, stack, Must(m.s, b, cc, 1, Optional(m.s, b, cc, 1, INFINITE, greedy, k)), lo, x)
    decreases b, 3, 0
  {
    hide ByPosition, CodeAt, Len, Gen, Fit, At, PlusLoop, LoopFate, Before, NeedsCheck;
    var a, g := Gen(b, cc), Optional(m.s, b, cc, 1, INFINITE, greedy, k);
    PlusLayout(m.fetch, pc, a, greedy);
    forall o: Out | From(m, o, lo, x) ensures At(m, pc + Len(a), o, stack, g(o), x) {
      GoFrom(m, pc + Len(a) + 5, stack, k, lo, o.pos, x);
      UncheckedFates(m, b, cc, pc + Len(a), pc + Len(a) + 5, pc, greedy, stack, k, o, x);
    }
    OptionalByPosition(m.s, b, cc, 1, INFINITE, greedy, k);
    CodeFates(m, b, cc, pc, stack, g, lo, x);
    assert Must(m.s, b, cc, 0, g) == g;
  }

  lemma ResetGo(m: Machine, pc: int, cc: nat, groups: nat, stack: seq<int>, k: Fates, k1: Fates, lo: int, x: Aim)
    requires CodeAt(m.fetch, pc, ResetCode(groups, cc)) && 2 * (cc + groups) <= x.slots
    requires Go(m, pc + Len(ResetCode(groups, cc)), stack, k, lo, x)
    requires forall o: Out :: From(m, o, lo, x) ==> k1(o) == k(Enter(0, groups, cc, o))
    ensures Go(m, pc, stack, k1, lo, x)
  {
    hide At;
    if groups > 0 {
      UnitAt(m.fetch, pc, ISaveReset(cc, cc + groups - 1));
      forall o: Out | From(m, o, lo, x) ensures At(m, pc, o, stack, k1(o), x) {
        StepAt(m, pc, o, stack, pc + 3, Enter(0, groups, cc, o), stack, k1(o), x);
      }
    }
  }

  lemma ResetFates(m: Machine, b: Re, max: nat, greedy: bool, cc: nat, pc: int, stack: seq<int>, k: Fates, lo: int, x: Aim)
    requires Fit(m, b, cc, x.slots) && 0 <= lo && ByPosition(k) && max <= INFINITE
    requires CodeAt(m.fetch, pc, ResetCode(Groups(b), cc) + TailFromZero(Gen(b, cc), max, greedy, NeedsCheck(Gen(b, cc), greedy)))
    requires Go(m, pc + Len(ResetCode(Groups(b), cc) + TailFromZero(Gen(b, cc), max, greedy, NeedsCheck(Gen(b, cc), greedy))), stack, k, lo, x)
    ensures Go(m, pc, stack, Before(m.s, Quant(b, 0, max, greedy), cc, k), lo, x)
    decreases b, 4, 0
  {
    hide Before, ByPosition, Go, Enter, CodeAt, Gen, Fit, Optional, NeedsCheck, Len, ResetCode, TailFromZero;
    var reset, tail := ResetCode(Groups(b), cc), TailFromZero(Gen(b, cc), max, greedy, NeedsCheck(Gen(b, cc), greedy));
    CodeAtConcat(m.fetch, pc, reset, tail);
    BytesConcat(reset, tail);
    FitSlots(m, b, cc, x.slots);
    ZeroFates(m, b, cc, pc + Len(reset), max, greedy, stack, k, lo, x);
    NoneBefore(m.s, b, max, greedy, cc, k);
    ResetGo(m, pc, cc, Groups(b), stack, Optional(m.s, b, cc, 0, max, greedy, k), Before(m.s, Quant(b, 0, max, greedy), cc, k), lo, x);
  }

  lemma NoneBefore(s: seq<byte>, b: Re, max: nat, greedy: bool, cc: nat, k: Fates)
    ensures forall o: Out :: Before(s, Quant(b, 0, max, greedy), cc, k)(o) == Optional(s, b, cc, 0, max, greedy, k)(Enter(0, Groups(b), cc, o))
  {
    hide Optional, Enter;
    NoneMust(s, b, cc, Optional(s, b, cc, 0, max, greedy, k));
  }

  /** Nothing is cleared in front of mandatory iterations. */
  lemma NotCleared(m: Machine, b: Re, min: nat, max: nat, greedy: bool, cc: nat, pc: int, stack: seq<int>, k: Fates, lo: int, x: Aim)
    requires min > 0 && Go(m, pc, stack, Must(m.s, b, cc, min, Optional(m.s, b, cc, min, max, greedy, k)), lo, x)
    ensures Go(m, pc, stack, Before(m.s, Quant(b, min, max, greedy), cc, k), lo, x)
  {
    hide At, Must, Optional;
    forall o: Out | From(m, o, lo, x) ensures At(m, pc, o, stack, Before(m.s, Quant(b, min, max, greedy), cc, k)(o), x) {
      assert Enter(min, Groups(b), cc, o) == o;
    }
  }

  lemma MinThenTail(m: Machine, b: Re, min: nat, max: nat, greedy: bool, cc: nat, pc: int, stack: seq<int>, k: Fates, lo: int, x: Aim)
    requires Fit(m, b, cc, x.slots) && 0 <= lo && ByPosition(k) && 0 < min <= max <= INFINITE && min < INFINITE
    requires CodeAt(m.fetch, pc, MinCode(Gen(b, cc), min) + TailFromMin(Gen(b, cc), min, max, greedy, NeedsCheck(Gen(b, cc), greedy)))
    requires Go(m, pc + Len(MinCode(Gen(b, cc), min) + TailFromMin(Gen(b, cc), min, max, greedy, NeedsCheck(Gen(b, cc), greedy))), stack, k, lo, x)
    ensures Go(m, pc, stack, Must(m.s, b, cc, min, Optional(m.s, b, cc, min, max, greedy, k)), lo, x)
    decreases b, 4, 0
  {
    hide ByPosition, Go, CodeAt, Gen, Fit, Optional, NeedsCheck, Len, TailFromMin, MinCode, Must;
    var first, tail := MinCode(Gen(b, cc), min), TailFromMin(Gen(b, cc), min, max, greedy, NeedsCheck(Gen(b, cc), greedy));
    CodeAtConcat(m.fetch, pc, first, tail);
    BytesConcat(first, tail);
    TailFates(m, b, cc, pc + Len(first), min, max, greedy, stack, k, lo, x);
    OptionalByPosition(m.s, b, cc, min, max, greedy, k);
    MinFates(m, b, cc, pc, min, stack, Optional(m.s, b, cc, min, max, greedy, k), lo, x);
  }

  lemma PlainFates(m: Machine, b: Re, min: nat, max: nat, greedy: bool, cc: nat, pc: int, stack: seq<int>, k: Fates, lo: int, x: Aim)
    requires Fit(m, b, cc, x.slots) && 0 <= lo && ByPosition(k) && min <= max <= INFINITE && min < INFINITE
    requires CodeAt(m.fetch, pc, PlainQuant(Gen(b, cc), cc, Groups(b), min, max, greedy, NeedsCheck(Gen(b, cc), greedy)))
    requires Go(m, pc + Len(PlainQuant(Gen(b, cc), cc, Groups(b), min, max, greedy, NeedsCheck(Gen(b, cc), greedy))), stack, k, lo, x)
    ensures Go(m, pc, stack, Before(m.s, Quant(b, min, max, greedy), cc, k), lo, x)
    decreases b, 5, 0
  {
    hide ByPosition, Go, CodeAt, Gen, Fit, Optional, NeedsCheck, Len, ResetCode, TailFromZero, TailFromMin, MinCode, PlusLoop, Must, Before;
    if min == 0 {
      ResetFates(m, b, max, greedy, cc, pc, stack, k, lo, x);
    } else {
      if min == 1 && max == INFINITE && !NeedsCheck(Gen(b, cc), greedy) {
        PlusFates(m, b, cc, pc, greedy, stack, k, lo, x);
      } else {
        MinThenTail(m, b, min, max, greedy, cc, pc, stack, k, lo, x);
      }
      NotCleared(m, b, min, max, greedy, cc, pc, stack, k, lo, x);
    }
  }

  lemma NoneMust(s: seq<byte>, b: Re, cc: nat, k: Fates)
    ensures Must(s, b, cc, 0, k) == k
  {
  }

  lemma FitSlots(m: Machine, b: Re, cc: nat, slots: nat)
    requires Fit(m, b, cc, slots)
    ensures 2 * (cc + Groups(b)) <= slots
  {
  }

  lemma QuantFates(m: Machine, b: Re, min: nat, max: nat, greedy: bool, cc: nat, pc: int, stack: seq<int>, k: Fates, lo: int, x: Aim)
    requires Fit(m, Quant(b, min, max, greedy), cc, x.slots) && CodeAt(m.fetch, pc, Gen(Quant(b, min, max, greedy), cc)) && 0 <= lo && ByPosition(k)
    requires Go(m, pc + Len(Gen(Quant(b, min, max, greedy), cc)), stack, k, lo, x)
    ensures Go(m, pc, stack, Before(m.s, Quant(b, min, max, greedy), cc, k), lo, x)
    decreases b, 6, 0
  {
    hide Go, CodeAt, Gen, Optional, NeedsCheck, Len, PlainQuant, Must, GreedyCode, SimpleLength, Sized, ByPosition;
    var r := Quant(b, min, max, greedy);
    GenUnfold(r, cc);
    if UsesGreedy(Gen(b, cc), max, greedy) {
      GreedyFates(m, b, min, max, cc, pc, stack, k, lo, x);
    } else {
      PlainFates(m, b, min, max, greedy, cc, pc, stack, k, lo, x);
    }
  }

  // ----- The optimised instruction -----

  /** Visited outcomes have the fate of the first that does not fall back. */
  lemma {:induction false} VisitsMeets(m: Machine, c: Config, pc: int, stack: seq<int>, outs: seq<Out>, s: Saved, k: Fates, lo: int, x: Aim)
    requires m.fuel == None && Yields(m, c, pc, stack, outs, s) && Go(m, pc, stack, k, lo, x)
    requires Bounded(|m.s|, lo, x.slots, outs) && Above(s, x.base)
    ensures Meets(m, c, Over(outs, k), s, x)
    decreases |outs|
  {
    hide Reaches, Meets, Steps;
    if outs == [] {
      FellBack(m, c, s, x);
    } else {
      var o := outs[0];
      var t, n: nat :| Arrives(m, c, n, pc, stack, o, t, s) && Visits(m, Backtrack(t), pc, stack, outs[1..], s, Less(m.fuel, n + 1));
      ArrivedAt(m, c, n, pc, stack, o, t, s);
      AboveTrans(t, s, x.base);
      var d := Run(pc, o.pos, stack, o.caps, t);
      assert From(m, o, lo, x) && At(m, pc, o, stack, k(o), x);
      VisitsMeets(m, Backtrack(t), pc, stack, outs[1..], s, k, lo, x);
      MeetsElse(m, d, k(o), Over(outs[1..], k), t, s, x);
      MeetsVia(m, c, d, Over(outs, k), s, x);
    }
  }

  lemma FellBack(m: Machine, c: Config, s: Saved, x: Aim)
    requires Reaches(m, c, Backtrack(s))
    ensures Meets(m, c, Fallback, s, x)
  {
  }

  lemma GreedyFates(m: Machine, b: Re, min: nat, max: nat, cc: nat, pc: int, stack: seq<int>, k: Fates, lo: int, x: Aim)
    requires Fit(m, Quant(b, min, max, true), cc, x.slots) && UsesGreedy(Gen(b, cc), max, true) && 0 <= lo
    requires CodeAt(m.fetch, pc, GreedyCode(Gen(b, cc), min, max))
    requires Go(m, pc + Len(GreedyCode(Gen(b, cc), min, max)), stack, k, lo, x)
    ensures Go(m, pc, stack, Before(m.s, Quant(b, min, max, true), cc, k), lo, x)
  {
    hide CodeAt, Gen, Before, Len, GreedyCode, SimpleLength, Outcomes, Meets, Sized, Iterated, Visits, Over;
    var r := Quant(b, min, max, true);
    SimpleNoGroups(b, cc);
    StraightAdvances(b, cc, m.s);
    var end := pc + Len(GreedyCode(Gen(b, cc), min, max));
    forall o: Out | From(m, o, lo, x) ensures At(m, pc, o, stack, Before(m.s, r, cc, k)(o), x) {
      forall t | Above(t, x.base) ensures Meets(m, Run(pc, o.pos, stack, o.caps, t), Before(m.s, r, cc, k)(o), t, x) {
        SimGreedy(m, pc, b, cc, min, max, o, stack);
        QuantUnfold(m.s, m.rounds, b, min, max, true, cc, o);
        OutcomesBounded(m.s, m.rounds, r, cc, o);
        FateOfOutcomes(m.s, m.rounds, r, cc, k, o);
        GoFrom(m, end, stack, k, lo, o.pos, x);
        VisitsMeets(m, Run(pc, o.pos, stack, o.caps, t), end, stack, Outcomes(m.s, m.rounds, r, cc, o), t, k, o.pos, x);
      }
    }
  }

  lemma GoFrom(m: Machine, pc: int, stack: seq<int>, k: Fates, lo: int, lo1: int, x: Aim)
    requires Go(m, pc, stack, k, lo, x) && lo <= lo1
    ensures Go(m, pc, stack, k, lo1, x)
  {
    hide At;
    forall o: Out | From(m, o, lo1, x) ensures At(m, pc, o, stack, k(o), x) { assert From(m, o, lo, x); }
  }

  lemma {:induction false} StraightAdvances(r: Re, cc: nat, s: seq<byte>)
    requires WellFormed(r) && SimpleLength(Gen(r, cc)) >= 0
    ensures LazyLoopsAdvance(r, s)
    decreases r
  {
    hide SimpleLength, QuantCode, AltCode, GroupCode, LookCode, ClassCode;
    match r
    case Cat(a, b) =>
      ScanConcat(Gen(a, cc), Gen(b, cc + Groups(a)));
      StraightAdvances(a, cc, s);
      StraightAdvances(b, cc + Groups(a), s);
    case Alt(a, b) => AltScan(Gen(a, cc), Gen(b, cc + Groups(a)));
    case Group(b) => GroupScan(Gen(b, cc + 1), cc);
    case Look(negated, b) => LookScan(negated, Gen(b, cc));
    case Quant(b, min, max, greedy) =>
      StraightQuant(Gen(b, cc), cc, Groups(b), min, max, greedy);
      if max == 1 { StraightAdvances(b, cc, s); }
    case _ =>
  }

  // ----- The whole search -----

  /** Every start position has the fate of the search from there on. */
  lemma {:induction false} SearchMeets(m: Machine, r: Re, i: nat, x: Aim)
    requires CodeAt(m.fetch, 0, Program(r)) && Sized(m) && Whole(m) && WellFormed(r) && i <= |m.s|
    requires x == Aim(Nil, 2 * Groups(r) + 2, iset{})
    ensures At(m, 0, Out(i, NullCaps(Groups(r))), [], SearchFate(m.s, r, i), x)
    decreases |m.s| - i
  {
    hide CodeAt, Gen, Before, Len, Program, Sized, At, Else;
    var o := Out(i, NullCaps(Groups(r)));
    SearchLayout(m.fetch, r);
    InsideMatches(m, 11 + Len(Gen(Group(r), 0)), [], i, x);
    MatchedByPosition();
    CodeFates(m, Group(r), 0, 11, [], MATCHED, i, x);
    assert From(m, o, i, x);
    if i < |m.s| {
      var next := o.(pos := i + 1);
      SearchMeets(m, r, i + 1, x);
      StepAt(m, 6, next, [], 0, next, [], SearchFate(m.s, r, i + 1), x);
      StepAt(m, 5, o, [], 6, next, [], SearchFate(m.s, r, i + 1), x);
    } else {
      LastStart(m, o, x);
    }
    SplitAt(m, 0, false, 6, o, [], Before(m.s, Group(r), 0, MATCHED)(o), if i < |m.s| then SearchFate(m.s, r, i + 1) else Fallback, x);
  }

  lemma LastStart(m: Machine, o: Out, x: Aim)
    requires m.fetch(5) == Some(IAny) && o.pos == |m.s|
    ensures At(m, 5, o, [], Fallback, x)
  {
    forall t | Above(t, x.base) ensures Meets(m, Run(5, o.pos, [], o.caps, t), Fallback, t, x) {
      ReachSelf(m, Backtrack(t));
      ReachStep(m, Run(5, o.pos, [], o.caps, t), Backtrack(t));
    }
  }

  /** Every run of a compiled program: it halts with the captures of a match, halts without
      one, or runs for ever, as the fate of its search says. */
  lemma RunHalts(m: Machine, r: Re, from: nat)
    requires CodeAt(m.fetch, 0, Program(r)) && Sized(m) && Whole(m) && WellFormed(r) && from <= |m.s|
    ensures var c := Run(0, from, [], NullCaps(Groups(r)), Nil);
            match SearchFate(m.s, r, from)
            case Success(caps) => Reaches(m, c, Done(Some(caps)))
            case Fallback => Reaches(m, c, Done(None))
            case Forever => Diverges(m, c)
  {
    hide CodeAt, Program, Sized, SearchFate, Reaches, Diverges;
    var o, x := Out(from, NullCaps(Groups(r))), Aim(Nil, 2 * Groups(r) + 2, iset{});
    var c := Run(0, from, [], o.caps, Nil);
    SearchMeets(m, r, from, x);
    InsideAt(m, 0, o, [], SearchFate(m.s, r, from), x);
    match SearchFate(m.s, r, from)
    case Success(caps) =>
      ReachSelf(m, Done(Some(caps)));
      ReachStep(m, Unwind(caps, Nil), Done(Some(caps)));
      ReachTrans(m, c, Unwind(caps, Nil), Done(Some(caps)));
    case Fallback =>
      ReachSelf(m, Done(None));
      ReachStep(m, Backtrack(Nil), Done(None));
      ReachTrans(m, c, Backtrack(Nil), Done(None));
    case Forever =>
  }
}
