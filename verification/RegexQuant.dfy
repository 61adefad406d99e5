/** The whole split/loop encoding of a quantifier does its iterations in order. */
module RegexQuant {
  import opened Basics
  import opened RegexSyntax
  import opened RegexOutcomes
  import opened RegexCode
  import opened RegexGen
  import opened RegexVM
  import opened RegexYields
  import opened RegexLoops

  /** The code `a` does what `f` does wherever it is stored. */
  ghost predicate CodeFor(m: Machine, a: Code, f: Body, slots: nat) {
    forall pc :: CodeAt(m.fetch, pc, a) ==> Simulates(m, pc, Len(a), f, slots)
  }

  lemma {:induction false} SemAllUpToZero(len: nat, f: Body, greedy: bool, outs: seq<Out>)
    ensures SemAll(len, UpTo(f, 0, greedy), outs) == outs
    decreases |outs|
  {
    if outs != [] {
      SemAllUpToZero(len, f, greedy, outs[1..]);
      assert outs == [outs[0]] + outs[1..];
    }
  }

  // ----- Where the pieces are -----

  lemma UnitLayout(fetch: Fetch, pc: int, a: Code, i: Instr)
    ensures Len(a + [i]) == Len(a) + Size(i)
    ensures CodeAt(fetch, pc, a + [i]) <==> CodeAt(fetch, pc, a) && fetch(pc + Len(a)) == Some(i)
  {
    CodeAtConcat(fetch, pc, a, [i]);
    BytesConcat(a, [i]);
    UnitAt(fetch, pc + Len(a), i);
  }

  lemma CheckedLayout(fetch: Fetch, pc: int, a: Code, greedy: bool)
    ensures Len(InfiniteLoop(a, true, greedy)) == Len(a) + 11
    ensures CodeAt(fetch, pc, InfiniteLoop(a, true, greedy)) ==>
      fetch(pc) == Some(ISplit(greedy, Len(a) + 6)) && fetch(pc + 5) == Some(IPushPos) &&
      CodeAt(fetch, pc + 6, a) && fetch(pc + 6 + Len(a)) == Some(IBnePos(Back(Len(a) + 6)))
  {
    hide CodeAt, Len;
    var rest := a + [IBnePos(Back(Len(a) + 6))];
    CodeAtHead(fetch, pc, ISplit(greedy, Len(a) + 6), [IPushPos] + rest);
    CodeAtHead(fetch, pc + 5, IPushPos, rest);
    UnitLayout(fetch, pc + 6, a, IBnePos(Back(Len(a) + 6)));
  }

  lemma UncheckedLayout(fetch: Fetch, pc: int, a: Code, greedy: bool)
    ensures Len(InfiniteLoop(a, false, greedy)) == Len(a) + 10
    ensures CodeAt(fetch, pc, InfiniteLoop(a, false, greedy)) ==>
      fetch(pc) == Some(ISplit(greedy, Len(a) + 5)) && CodeAt(fetch, pc + 5, a) &&
      fetch(pc + 5 + Len(a)) == Some(IGoto(Back(Len(a) + 5)))
  {
    hide CodeAt, Len;
    var rest := a + [IGoto(Back(Len(a) + 5))];
    CodeAtHead(fetch, pc, ISplit(greedy, Len(a) + 5), rest);
    UnitLayout(fetch, pc + 5, a, IGoto(Back(Len(a) + 5)));
  }

  lemma LoopEndLayout(fetch: Fetch, pc: int, a: Code, off: int)
    ensures Len(LoopEnd(a, off)) == Len(a) + 6
    ensures CodeAt(fetch, pc, LoopEnd(a, off)) ==>
      CodeAt(fetch, pc, a) && fetch(pc + Len(a)) == Some(ILoop(off)) && fetch(pc + Len(a) + 5) == Some(IDrop)
  {
    hide CodeAt, Len;
    var tail := [ILoop(off)] + [IDrop];
    CodeAtConcat(fetch, pc, a, tail);
    BytesConcat(a, tail);
    CodeAtHead(fetch, pc + Len(a), ILoop(off), [IDrop]);
    UnitAt(fetch, pc + Len(a) + 5, IDrop);
  }

  lemma UnitAt(fetch: Fetch, pc: int, i: Instr)
    ensures Len([i]) == Size(i) && (CodeAt(fetch, pc, [i]) <==> fetch(pc) == Some(i))
  {
    assert [i] == [i] + [];
    CodeAtHead(fetch, pc, i, []);
  }

  lemma CountedLayout(fetch: Fetch, pc: int, a: Code, n: nat, greedy: bool)
    ensures Len(CountedLoop(a, n, greedy)) == Len(a) + 16
    ensures CodeAt(fetch, pc, CountedLoop(a, n, greedy)) ==>
      fetch(pc) == Some(IPush(n)) && fetch(pc + 5) == Some(ISplit(greedy, Len(a) + 5)) && CodeAt(fetch, pc + 10, a) &&
      fetch(pc + 10 + Len(a)) == Some(ILoop(Back(Len(a) + 5))) && fetch(pc + 15 + Len(a)) == Some(IDrop)
  {
    hide CodeAt, Len, LoopEnd;
    var rest := LoopEnd(a, Back(Len(a) + 5));
    CodeAtHead(fetch, pc, IPush(n), [ISplit(greedy, Len(a) + 5)] + rest);
    CodeAtHead(fetch, pc + 5, ISplit(greedy, Len(a) + 5), rest);
    LoopEndLayout(fetch, pc + 10, a, Back(Len(a) + 5));
  }

  lemma FixedLayout(fetch: Fetch, pc: int, a: Code, n: nat)
    ensures Len(FixedLoop(a, n)) == Len(a) + 11
    ensures CodeAt(fetch, pc, FixedLoop(a, n)) ==>
      fetch(pc) == Some(IPush(n)) && CodeAt(fetch, pc + 5, a) &&
      fetch(pc + 5 + Len(a)) == Some(ILoop(Back(Len(a)))) && fetch(pc + 10 + Len(a)) == Some(IDrop)
  {
    hide CodeAt, Len, LoopEnd;
    CodeAtHead(fetch, pc, IPush(n), LoopEnd(a, Back(Len(a))));
    LoopEndLayout(fetch, pc + 5, a, Back(Len(a)));
  }

  lemma PlusLayout(fetch: Fetch, pc: int, a: Code, greedy: bool)
    ensures Len(PlusLoop(a, greedy)) == Len(a) + 5
    ensures CodeAt(fetch, pc, PlusLoop(a, greedy)) ==>
      CodeAt(fetch, pc, a) && fetch(pc + Len(a)) == Some(ISplit(!greedy, Back(Len(a))))
  {
    UnitLayout(fetch, pc, a, ISplit(!greedy, Back(Len(a))));
  }

  lemma SearchLoopLayout(fetch: Fetch)
    ensures Len(SearchLoop()) == 11
    ensures CodeAt(fetch, 0, SearchLoop()) ==> fetch(0) == Some(ISplit(false, 6)) && fetch(5) == Some(IAny) && fetch(6) == Some(IGoto(-11))
  {
    hide CodeAt, Len;
    CodeAtHead(fetch, 0, ISplit(false, 6), [IAny] + [IGoto(-11)]);
    CodeAtHead(fetch, 5, IAny, [IGoto(-11)]);
    UnitAt(fetch, 6, IGoto(-11));
  }

  // ----- Optional iterations -----

  /** What an unbounded loop needs: a greedy one the check or a body that advances, a lazy
      one a body that advances, unless only runs that end in time are looked at. */
  ghost predicate LoopOk(m: Machine, f: Body, greedy: bool, check: bool) {
    if greedy then check || Steady(|m.s|, f, true)
    else !check && InTime(m) && (m.fuel == None ==> Steady(|m.s|, f, true))
  }

  /** All iterations that move are looked at, and at least as many rounds as steps. */
  predicate InTime(m: Machine) {
    |m.s| < m.rounds && (m.fuel.Some? ==> m.fuel.value <= m.rounds)
  }

  /** Runs are looked at to their end. */
  predicate Whole(m: Machine) {
    |m.s| < m.rounds && m.fuel == None
  }

  /** The unbounded loop, with or without the check. */
  lemma SimInfinite(m: Machine, pc: int, a: Code, f: Body, slots: nat, greedy: bool, check: bool, o: Out, stack: seq<int>)
    requires CodeFor(m, a, f, slots) && Steady(|m.s|, f, false) && LoopOk(m, f, greedy, check)
    requires CodeAt(m.fetch, pc, InfiniteLoop(a, check, greedy)) && Valid(|m.s|, o) && |o.caps| == slots
    ensures Always(m, pc, stack, o, pc + Len(InfiniteLoop(a, check, greedy)), stack, Sem(|m.s|, Unbounded(f, m.rounds, greedy), o))
  {
    hide Always, Sem, CodeAt, Steady;
    if check {
      CheckedLayout(m.fetch, pc, a, greedy);
      SimCheckedAt(m, pc, Len(a), f, slots, -1, o, stack);
    } else {
      UncheckedLayout(m.fetch, pc, a, greedy);
      if greedy {
        SimUncheckedAt(m, pc, Len(a), f, slots, -1, o, stack);
      } else {
        RoundsByGoto(m, pc, Len(a), f, slots, stack);
        SimLazy(m, pc, pc + 10 + Len(a), pc + 5, f, slots, o, stack);
      }
    }
  }

  lemma SimLazy(m: Machine, head: int, exit: int, entry: int, f: Body, slots: nat, o: Out, stack: seq<int>)
    requires LeavesFirst(m, head, exit, entry) && Rounds(m, entry, head, f, slots, stack) && Steady(|m.s|, f, false)
    requires Valid(|m.s|, o) && |o.caps| == slots && LoopOk(m, f, false, false)
    ensures Always(m, head, stack, o, exit, stack, Sem(|m.s|, Lazy(f, m.rounds), o))
  {
    hide AlwaysFor, Sem, Steady, Rounds, LeavesFirst;
    SimLazyAt(m, head, exit, entry, f, slots, m.rounds, o, stack);
  }

  /** An iteration and the jump back to the split before it. */
  lemma RoundsByGoto(m: Machine, pc: int, size: nat, f: Body, slots: nat, stack: seq<int>)
    requires Simulates(m, pc + 5, size, f, slots) && m.fetch(pc + 5 + size) == Some(IGoto(Back(size + 5)))
    ensures Rounds(m, pc + 5, pc, f, slots, stack)
  {
    hide Always;
    forall o | Valid(|m.s|, o) && |o.caps| == slots ensures Always(m, pc + 5, stack, o, pc, stack, f(o)) {
      var outs := f(o);
      assert Follows(m, pc + 5, size, f, stack, o);
      forall k | 0 <= k < |outs| ensures Always(m, pc + 5 + size, stack, outs[k], pc, stack, [outs[k]]) {
        AlwaysHere(m, pc, stack, outs[k]);
        GotoStep(m, pc + 5 + size, Back(size + 5), stack, outs[k], pc, stack, [outs[k]]);
      }
      AlwaysMove(m, pc + 5, stack, o, pc + 5 + size, stack, outs, pc, stack, outs);
    }
  }

  lemma SimCounted(m: Machine, pc: int, a: Code, f: Body, slots: nat, greedy: bool, n: nat, o: Out, stack: seq<int>)
    requires CodeFor(m, a, f, slots) && Steady(|m.s|, f, false) && 0 < n < TWO32
    requires CodeAt(m.fetch, pc, CountedLoop(a, n, greedy)) && Valid(|m.s|, o) && |o.caps| == slots
    ensures Always(m, pc, stack, o, pc + Len(CountedLoop(a, n, greedy)), stack, Sem(|m.s|, UpTo(f, n, greedy), o))
  {
    hide Always, Sem, CodeAt;
    CountedLayout(m.fetch, pc, a, n, greedy);
    SimCountedAt(m, pc + 5, Len(a), f, slots, n, greedy, o, stack);
    PushStep(m, pc, n, stack, o, pc + Len(a) + 16, stack, Sem(|m.s|, UpTo(f, n, greedy), o));
  }

  lemma SimOptional(m: Machine, pc: int, a: Code, f: Body, slots: nat, greedy: bool, o: Out, stack: seq<int>)
    requires CodeFor(m, a, f, slots)
    requires CodeAt(m.fetch, pc, OptionalCode(a, greedy)) && Valid(|m.s|, o) && |o.caps| == slots
    ensures Always(m, pc, stack, o, pc + Len(OptionalCode(a, greedy)), stack, Sem(|m.s|, UpTo(f, 1, greedy), o))
  {
    hide Always, CodeAt;
    CodeAtHead(m.fetch, pc, ISplit(greedy, Len(a)), a);
    assert Follows(m, pc + 5, Len(a), f, stack, o);
    AlwaysHere(m, pc + 5 + Len(a), stack, o);
    AlwaysSplit(m, pc, greedy, Len(a), o, stack, pc + 5 + Len(a), stack, f(o), [o]);
    SemAllUpToZero(|m.s|, f, greedy, f(o));
  }

  lemma SimTailFromZero(m: Machine, pc: int, a: Code, f: Body, slots: nat, max: nat, greedy: bool, check: bool, o: Out, stack: seq<int>)
    requires CodeFor(m, a, f, slots) && Steady(|m.s|, f, false) && max <= INFINITE
    requires max == INFINITE ==> LoopOk(m, f, greedy, check)
    requires CodeAt(m.fetch, pc, TailFromZero(a, max, greedy, check)) && Valid(|m.s|, o) && |o.caps| == slots
    ensures Always(m, pc, stack, o, pc + Len(TailFromZero(a, max, greedy, check)), stack, Iterated(|m.s|, m.rounds, f, 0, max, greedy, o))
  {
    hide Always, CodeAt, InfiniteLoop, CountedLoop, OptionalCode;
    SemAllUnit(|m.s|, Unbounded(f, m.rounds, greedy), o);
    SemAllUnit(|m.s|, UpTo(f, max, greedy), o);
    if max == 0 {
      AlwaysHere(m, pc, stack, o);
    } else if max == 1 {
      SimOptional(m, pc, a, f, slots, greedy, o, stack);
    } else if max == INFINITE {
      SimInfinite(m, pc, a, f, slots, greedy, check, o, stack);
    } else {
      SimCounted(m, pc, a, f, slots, greedy, max, o, stack);
    }
  }

  // ----- Mandatory iterations -----

  lemma SimMin(m: Machine, pc: int, a: Code, f: Body, slots: nat, min: nat, o: Out, stack: seq<int>)
    requires CodeFor(m, a, f, slots) && Steady(|m.s|, f, false) && 0 < min < TWO32
    requires CodeAt(m.fetch, pc, MinCode(a, min)) && Valid(|m.s|, o) && |o.caps| == slots
    ensures Always(m, pc, stack, o, pc + Len(MinCode(a, min)), stack, Sem(|m.s|, Repeat(f, min), o))
  {
    hide Always, CodeAt, FixedLoop;
    if min == 1 {
      assert Follows(m, pc, Len(a), f, stack, o);
      SemAllZero(|m.s|, f, f(o));
    } else {
      FixedLayout(m.fetch, pc, a, min);
      SimFixedAt(m, pc + 5, Len(a), f, slots, min, o, stack);
      PushStep(m, pc, min, stack, o, pc + Len(a) + 11, stack, Sem(|m.s|, Repeat(f, min), o));
    }
  }

  /** The split behind the body: leaves, or goes round again. */
  lemma SimPlusSplit(m: Machine, pc: int, size: nat, f: Body, slots: nat, greedy: bool, o: Out, stack: seq<int>)
    requires m.fetch(pc + size) == Some(ISplit(!greedy, Back(size))) && Simulates(m, pc, size, f, slots)
    requires Steady(|m.s|, f, false) && LoopOk(m, f, greedy, false) && Valid(|m.s|, o) && |o.caps| == slots
    ensures Always(m, pc + size, stack, o, pc + size + 5, stack, Sem(|m.s|, Unbounded(f, m.rounds, greedy), o))
  {
    hide Always, Sem, Steady;
    if greedy {
      SimPlusAt(m, pc, size, f, slots, -1, o, stack);
    } else {
      assert Rounds(m, pc, pc + size, f, slots, stack) by {
        forall o1 | Valid(|m.s|, o1) && |o1.caps| == slots ensures Always(m, pc, stack, o1, pc + size, stack, f(o1)) {
          assert Follows(m, pc, size, f, stack, o1);
        }
      }
      SimLazy(m, pc + size, pc + size + 5, pc, f, slots, o, stack);
    }
  }

  lemma SimPlus(m: Machine, pc: int, a: Code, f: Body, slots: nat, greedy: bool, o: Out, stack: seq<int>)
    requires CodeFor(m, a, f, slots) && LoopOk(m, f, greedy, false) && Steady(|m.s|, f, false)
    requires CodeAt(m.fetch, pc, PlusLoop(a, greedy)) && Valid(|m.s|, o) && |o.caps| == slots
    ensures Always(m, pc, stack, o, pc + Len(PlusLoop(a, greedy)), stack, Iterated(|m.s|, m.rounds, f, 1, INFINITE, greedy, o))
  {
    hide Always, CodeAt, PlusLoop, LoopOk;
    PlusLayout(m.fetch, pc, a, greedy);
    var outs, end, t := f(o), pc + Len(a) + 5, Unbounded(f, m.rounds, greedy);
    assert Bounded(|m.s|, o.pos, slots, outs);
    forall k | 0 <= k < |outs|
      ensures Always(m, pc + Len(a), stack, outs[k], end, stack, Sem(|m.s|, t, outs[k]))
    {
      SimPlusSplit(m, pc, Len(a), f, slots, greedy, outs[k], stack);
    }
    assert Follows(m, pc, Len(a), f, stack, o);
    AlwaysBind(m, pc, stack, o, pc + Len(a), stack, outs, end, stack, t);
    SemAllZero(|m.s|, f, outs);
  }

  lemma SimTailFromMin(m: Machine, pc: int, a: Code, f: Body, slots: nat, min: nat, max: nat, greedy: bool, check: bool, o: Out, stack: seq<int>)
    requires CodeFor(m, a, f, slots) && Steady(|m.s|, f, false) && min < max <= INFINITE
    requires max == INFINITE ==> LoopOk(m, f, greedy, check)
    requires CodeAt(m.fetch, pc, TailFromMin(a, min, max, greedy, check)) && Valid(|m.s|, o) && |o.caps| == slots
    ensures Always(m, pc, stack, o, pc + Len(TailFromMin(a, min, max, greedy, check)), stack, Sem(|m.s|, Rest(f, m.rounds, min, max, greedy), o))
  {
    hide Always, CodeAt, InfiniteLoop, CountedLoop, Sem, CodeFor, Steady;
    if max == INFINITE {
      SimInfinite(m, pc, a, f, slots, greedy, check, o, stack);
    } else {
      SimCounted(m, pc, a, f, slots, greedy, max - min, o, stack);
    }
  }

  lemma IteratedIs(len: nat, rounds: nat, f: Body, min: nat, max: nat, greedy: bool, o: Out)
    requires min <= max && min < INFINITE
    ensures var base := Sem(len, Repeat(f, min), o);
            Iterated(len, rounds, f, min, max, greedy, o) ==
            if max > min then SemAll(len, Rest(f, rounds, min, max, greedy), base) else base
  {
    hide Sem, SemAll;
  }

  lemma SimTailsFromMin(m: Machine, mid: int, a: Code, f: Body, slots: nat, min: nat, max: nat, greedy: bool, check: bool,
                        lo: int, base: seq<Out>, stack: seq<int>)
    requires CodeFor(m, a, f, slots) && Steady(|m.s|, f, false) && min < max <= INFINITE && 0 <= lo && Bounded(|m.s|, lo, slots, base)
    requires max == INFINITE ==> LoopOk(m, f, greedy, check)
    requires CodeAt(m.fetch, mid, TailFromMin(a, min, max, greedy, check))
    ensures forall k :: 0 <= k < |base| ==>
      Always(m, mid, stack, base[k], mid + Len(TailFromMin(a, min, max, greedy, check)), stack,
             Sem(|m.s|, Rest(f, m.rounds, min, max, greedy), base[k]))
  {
    hide Always, CodeAt, TailFromMin, Sem, CodeFor, Steady, Len, LoopOk, Rest;
    forall k | 0 <= k < |base|
      ensures Always(m, mid, stack, base[k], mid + Len(TailFromMin(a, min, max, greedy, check)), stack,
                     Sem(|m.s|, Rest(f, m.rounds, min, max, greedy), base[k]))
    {
      SimTailFromMin(m, mid, a, f, slots, min, max, greedy, check, base[k], stack);
    }
  }

  lemma SimMinThenTail(m: Machine, pc: int, a: Code, f: Body, slots: nat, min: nat, max: nat, greedy: bool, check: bool, o: Out, stack: seq<int>)
    requires CodeFor(m, a, f, slots) && Steady(|m.s|, f, false) && 0 < min < INFINITE && min <= max <= INFINITE
    requires max == INFINITE ==> LoopOk(m, f, greedy, check)
    requires CodeAt(m.fetch, pc, MinCode(a, min) + TailFromMin(a, min, max, greedy, check)) && Valid(|m.s|, o) && |o.caps| == slots
    ensures Always(m, pc, stack, o, pc + Len(MinCode(a, min) + TailFromMin(a, min, max, greedy, check)), stack,
                   Iterated(|m.s|, m.rounds, f, min, max, greedy, o))
  {
    hide Always, CodeAt, MinCode, TailFromMin, Sem, SemAll, CodeFor, Steady, Len, LoopOk, Bounded;
    var tail := TailFromMin(a, min, max, greedy, check);
    CodeAtConcat(m.fetch, pc, MinCode(a, min), tail);
    BytesConcat(MinCode(a, min), tail);
    SimMin(m, pc, a, f, slots, min, o, stack);
    SemBounded(|m.s|, Repeat(f, min), o);
    var base, mid := Sem(|m.s|, Repeat(f, min), o), pc + Len(MinCode(a, min));
    if max > min {
      SimTailsFromMin(m, mid, a, f, slots, min, max, greedy, check, o.pos, base, stack);
      AlwaysBind(m, pc, stack, o, mid, stack, base, mid + Len(tail), stack, Rest(f, m.rounds, min, max, greedy));
    } else {
      NoTail(a, min, greedy, check);
    }
    IteratedIs(|m.s|, m.rounds, f, min, max, greedy, o);
  }

  lemma NoTail(a: Code, min: nat, greedy: bool, check: bool)
    requires min < INFINITE
    ensures TailFromMin(a, min, min, greedy, check) == [] && Len([]) == 0
  {
  }

  // ----- The whole quantifier -----

  lemma ResetStep(m: Machine, pc: int, cc: nat, groups: nat, o: Out, stack: seq<int>, pcEnd: int, outs: seq<Out>)
    requires CodeAt(m.fetch, pc, ResetCode(groups, cc)) && 2 * (cc + groups) <= |o.caps|
    requires Always(m, pc + Len(ResetCode(groups, cc)), stack, Enter(0, groups, cc, o), pcEnd, stack, outs)
    ensures Always(m, pc, stack, o, pcEnd, stack, outs)
  {
    hide Yields;
    if groups > 0 {
      assert ResetCode(groups, cc) == [ISaveReset(cc, cc + groups - 1)] + [];
      CodeAtHead(m.fetch, pc, ISaveReset(cc, cc + groups - 1), []);
      AlwaysStep(m, pc, stack, o, pc + 3, stack, Enter(0, groups, cc, o), pcEnd, stack, outs);
    }
  }

  /** The plain encoding of a quantifier visits the iterated outcomes in order. */
  lemma SimPlain(m: Machine, pc: int, a: Code, f: Body, slots: nat, cc: nat, groups: nat,
                 min: nat, max: nat, greedy: bool, check: bool, o: Out, stack: seq<int>)
    requires CodeFor(m, a, f, slots) && Steady(|m.s|, f, false) && min <= max <= INFINITE && min < INFINITE
    requires max == INFINITE ==> LoopOk(m, f, greedy, check)
    requires CodeAt(m.fetch, pc, PlainQuant(a, cc, groups, min, max, greedy, check))
    requires Valid(|m.s|, o) && |o.caps| == slots && 2 * (cc + groups) <= slots
    ensures Always(m, pc, stack, o, pc + Len(PlainQuant(a, cc, groups, min, max, greedy, check)), stack,
                   Iterated(|m.s|, m.rounds, f, min, max, greedy, Enter(min, groups, cc, o)))
  {
    hide Always, CodeAt, Iterated, PlusLoop, MinCode, TailFromMin, TailFromZero;
    if min == 0 {
      var reset, tail := ResetCode(groups, cc), TailFromZero(a, max, greedy, check);
      var o1 := Enter(0, groups, cc, o);
      CodeAtConcat(m.fetch, pc, reset, tail);
      BytesConcat(reset, tail);
      SimTailFromZero(m, pc + Len(reset), a, f, slots, max, greedy, check, o1, stack);
      ResetStep(m, pc, cc, groups, o, stack, pc + Len(reset) + Len(tail), Iterated(|m.s|, m.rounds, f, 0, max, greedy, o1));
    } else if min == 1 && max == INFINITE && !check {
      SimPlus(m, pc, a, f, slots, greedy, o, stack);
    } else {
      SimMinThenTail(m, pc, a, f, slots, min, max, greedy, check, o, stack);
    }
  }
}
