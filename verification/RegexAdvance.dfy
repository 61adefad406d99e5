/** What `re_check_advance` promises: code it answers 1 for always consumes a character. */
module RegexAdvance {
  import opened Basics
  import opened RegexSyntax
  import opened RegexOutcomes
  import opened RegexCode
  import opened RegexGen

  lemma UnitScan(i: Instr)
    ensures ScanAdvance([i]) == if IsTest(i) then 1 else if IsNeutral(i) then -2 else 0
    ensures SimpleLength([i]) == if IsTest(i) then 1 else if IsAssertion(i) then 0 else -1
  {
    assert [i][1..] == [];
  }

  lemma HeadScan(i: Instr, f: Code)
    ensures ScanAdvance([i] + f) == if IsTest(i) then 1 else if IsNeutral(i) then ScanAdvance(f) else 0
    ensures !IsTest(i) && !IsAssertion(i) ==> SimpleLength([i] + f) == -1
  {
    assert ([i] + f)[1..] == f;
  }

  lemma GroupScan(a: Code, cc: nat)
    ensures ScanAdvance(GroupCode(cc, a)) == ScanAdvance(a) && SimpleLength(GroupCode(cc, a)) == -1
  {
    HeadScan(ISave(false, cc), a + [ISave(true, cc)]);
    ScanConcat(a, [ISave(true, cc)]);
    UnitScan(ISave(true, cc));
  }

  lemma FixedScan(a: Code, n: nat)
    ensures ScanAdvance(FixedLoop(a, n)) == 1 ==> ScanAdvance(a) == 1
    ensures SimpleLength(FixedLoop(a, n)) == -1
  {
    var tail := [ILoop(Back(Len(a)))] + [IDrop];
    HeadScan(IPush(n), LoopEnd(a, Back(Len(a))));
    ScanConcat(a, tail);
    HeadScan(ILoop(Back(Len(a))), [IDrop]);
  }

  /** The optional iterations start with a split, or with a push and a split. */
  lemma TailScans(a: Code, n: nat, greedy: bool, check: bool)
    ensures ScanAdvance(OptionalCode(a, greedy)) == 0 && SimpleLength(OptionalCode(a, greedy)) == -1
    ensures ScanAdvance(InfiniteLoop(a, check, greedy)) == 0 && SimpleLength(InfiniteLoop(a, check, greedy)) == -1
    ensures ScanAdvance(CountedLoop(a, n, greedy)) == 0 && SimpleLength(CountedLoop(a, n, greedy)) == -1
  {
    hide ScanAdvance, SimpleLength;
    HeadScan(ISplit(greedy, Len(a)), a);
    HeadScan(ISplit(greedy, Len(a) + 6), [IPushPos] + (a + [IBnePos(Back(Len(a) + 6))]));
    HeadScan(ISplit(greedy, Len(a) + 5), a + [IGoto(Back(Len(a) + 5))]);
    var rest := LoopEnd(a, Back(Len(a) + 5));
    HeadScan(IPush(n), [ISplit(greedy, Len(a) + 5)] + rest);
    HeadScan(ISplit(greedy, Len(a) + 5), rest);
  }

  lemma ResetScan(groups: nat, cc: nat)
    ensures ScanAdvance(ResetCode(groups, cc)) == -2
    ensures groups > 0 ==> SimpleLength(ResetCode(groups, cc)) == -1
  {
    if groups > 0 { UnitScan(ISaveReset(cc, cc + groups - 1)); }
  }

  /** A quantifier's code is said to advance only when its body is and must run. */
  lemma QuantScan(a: Code, cc: nat, groups: nat, min: nat, max: nat, greedy: bool)
    ensures ScanAdvance(QuantCode(a, cc, groups, min, max, greedy)) == 1 ==> min > 0 && ScanAdvance(a) == 1
  {
    hide ScanAdvance, SimpleLength, InfiniteLoop, CountedLoop, OptionalCode, FixedLoop;
    var check := NeedsCheck(a, greedy);
    EmptyScan();
    if UsesGreedy(a, max, greedy) {
      HeadScan(IGreedy(Len(a) + 1, min, max, SimpleLength(a)), a + [IMatch]);
    } else if min == 0 {
      TailScans(a, max, greedy, check);
      ResetScan(groups, cc);
      ScanConcat(ResetCode(groups, cc), TailFromZero(a, max, greedy, check));
    } else {
      FixedScan(a, min);
      UnitScan(ISplit(!greedy, Back(Len(a))));
      ScanConcat(a, [ISplit(!greedy, Back(Len(a)))]);
      TailScans(a, if max > min then max - min else 0, greedy, check);
      ScanConcat(MinCode(a, min), TailFromMin(a, min, max, greedy, check));
    }
  }

  lemma EmptyScan()
    ensures ScanAdvance([]) == -2 && SimpleLength([]) == 0
  {
  }

  // ----- Soundness -----

  lemma {:induction false} CheckAdvanceSound(s: seq<byte>, rounds: nat, r: Re, cc: nat, o: Out)
    requires WellFormed(r) && Valid(|s|, o) && ScanAdvance(Gen(r, cc)) == 1
    ensures Bounded(|s|, o.pos + 1, |o.caps|, Outcomes(s, rounds, r, cc, o))
    decreases r, 1
  {
    hide Outcomes, ScanAdvance;
    match r
    case Cat(a, b) => AdvanceCat(s, rounds, a, b, cc, o);
    case Group(b) =>
      var o1 := o.(caps := SetCap(o.caps, 2 * cc, o.pos));
      GroupScan(Gen(b, cc + 1), cc);
      CheckAdvanceSound(s, rounds, b, cc + 1, o1);
      CloseAllBounded(|s|, cc, Outcomes(s, rounds, b, cc + 1, o1), o.pos + 1, |o.caps|);
      GroupUnfold(s, rounds, b, cc, o);
    case Quant(b, min, max, greedy) =>
      QuantScan(Gen(b, cc), cc, Groups(b), min, max, greedy);
      AdvanceSteady(s, rounds, b, cc);
      MatcherSteady(s, rounds, b, cc);
      IteratedBounded(|s|, rounds, Matcher(s, rounds, b, cc), min, max, greedy, o);
      QuantUnfold(s, rounds, b, min, max, greedy, cc, o);
    case Alt(a, b) => AltScan(Gen(a, cc), Gen(b, cc + Groups(a)));
    case Look(negated, b) => HeadScan(ILook(negated, Len(Gen(b, cc)) + 1), Gen(b, cc) + [IMatch]);
    case _ => AdvanceUnit(s, rounds, r, cc, o);
  }

  lemma AltScan(a: Code, b: Code)
    ensures ScanAdvance(AltCode(a, b)) == 0 && SimpleLength(AltCode(a, b)) == -1
  {
    HeadScan(ISplit(true, Len(a) + 5), a + ([IGoto(Len(b))] + b));
  }

  lemma AdvanceUnit(s: seq<byte>, rounds: nat, r: Re, cc: nat, o: Out)
    requires IsUnit(r) && Valid(|s|, o) && ScanAdvance(Gen(r, cc)) == 1
    ensures Bounded(|s|, o.pos + 1, |o.caps|, Outcomes(s, rounds, r, cc, o))
  {
    if !r.Empty? { UnitScan(Gen(r, cc)[0]); }
  }

  lemma AdvanceCat(s: seq<byte>, rounds: nat, a: Re, b: Re, cc: nat, o: Out)
    requires WellFormed(a) && WellFormed(b) && Valid(|s|, o) && ScanAdvance(Gen(Cat(a, b), cc)) == 1
    ensures Bounded(|s|, o.pos + 1, |o.caps|, Outcomes(s, rounds, Cat(a, b), cc, o))
    decreases Cat(a, b), 0
  {
    hide Outcomes, ScanAdvance, Sem, SemAll, Matcher, Steady, QuantCode, AltCode, LookCode, GroupCode, ClassCode;
    var outs, g := Outcomes(s, rounds, a, cc, o), Matcher(s, rounds, b, cc + Groups(a));
    ScanConcat(Gen(a, cc), Gen(b, cc + Groups(a)));
    CatUnfold(s, rounds, a, b, cc, o);
    MatcherSteady(s, rounds, b, cc + Groups(a));
    OutcomesBounded(s, rounds, a, cc, o);
    if ScanAdvance(Gen(a, cc)) == 1 {
      CheckAdvanceSound(s, rounds, a, cc, o);
      SemAllBounded(|s|, Once(g), outs, o.pos + 1, |o.caps|);
    } else {
      AdvanceSteady(s, rounds, b, cc + Groups(a));
      OnceAllAdvance(|s|, g, outs, o.pos, |o.caps|);
    }
  }

  lemma {:induction false} OnceAllAdvance(len: nat, f: Body, outs: seq<Out>, lo: int, slots: nat)
    requires Steady(len, f, true) && 0 <= lo && Bounded(len, lo, slots, outs)
    ensures Bounded(len, lo + 1, slots, SemAll(len, Once(f), outs))
    decreases |outs|
  {
    if outs != [] {
      assert Valid(len, outs[0]);
      OnceAllAdvance(len, f, outs[1..], lo, slots);
    }
  }

  /** A body with such code always moves on. */
  lemma AdvanceSteady(s: seq<byte>, rounds: nat, r: Re, cc: nat)
    requires WellFormed(r) && ScanAdvance(Gen(r, cc)) == 1
    ensures Steady(|s|, Matcher(s, rounds, r, cc), true)
    decreases r, 2
  {
    hide Outcomes;
    forall o | Valid(|s|, o) ensures Bounded(|s|, o.pos + 1, |o.caps|, Matcher(s, rounds, r, cc)(o)) {
      CheckAdvanceSound(s, rounds, r, cc, o);
    }
  }
}
