/** The split/loop encodings of quantifiers, over any body whose code simulates it. */
module RegexLoops {
  import opened Basics
  import opened RegexOutcomes
  import opened RegexCode
  import opened RegexGen
  import opened RegexVM
  import opened RegexYields

  /** The `size` bytes of code at `pc` do what the body does, from every outcome
      with the given number of capture slots, on top of every stack. */
  ghost predicate Simulates(m: Machine, pc: int, size: nat, f: Body, slots: nat) {
    forall o, stack :: Valid(|m.s|, o) && |o.caps| == slots ==> Follows(m, pc, size, f, stack, o)
  }

  ghost predicate Follows(m: Machine, pc: int, size: nat, f: Body, stack: seq<int>, o: Out) {
    Always(m, pc, stack, o, pc + size, stack, f(o))
  }

  // ----- Single instructions -----

  lemma GotoStep(m: Machine, pc: int, off: int, stack: seq<int>, o: Out, pcEnd: int, stackEnd: seq<int>, outs: seq<Out>)
    requires m.fetch(pc) == Some(IGoto(off)) && Always(m, pc + 5 + off, stack, o, pcEnd, stackEnd, outs)
    ensures Always(m, pc, stack, o, pcEnd, stackEnd, outs)
  {
    hide Yields;
    AlwaysStep(m, pc, stack, o, pc + 5 + off, stack, o, pcEnd, stackEnd, outs);
  }

  lemma PushStep(m: Machine, pc: int, v: nat, stack: seq<int>, o: Out, pcEnd: int, stackEnd: seq<int>, outs: seq<Out>)
    requires m.fetch(pc) == Some(IPush(v)) && Always(m, pc + 5, stack + [v], o, pcEnd, stackEnd, outs)
    ensures Always(m, pc, stack, o, pcEnd, stackEnd, outs)
  {
    hide Yields;
    AlwaysStep(m, pc, stack, o, pc + 5, stack + [v], o, pcEnd, stackEnd, outs);
  }

  lemma DropStep(m: Machine, pc: int, v: int, stack: seq<int>, o: Out)
    requires m.fetch(pc) == Some(IDrop)
    ensures Always(m, pc, stack + [v], o, pc + 1, stack, [o])
  {
    hide Yields;
    AlwaysHere(m, pc + 1, stack, o);
    assert (stack + [v])[..|stack|] == stack;
    AlwaysStep(m, pc, stack + [v], o, pc + 1, stack, o, pc + 1, stack, [o]);
  }

  /** `loop` with n iterations left on top of the stack. */
  lemma LoopStep(m: Machine, pc: int, off: int, n: nat, stack: seq<int>, o: Out, pcEnd: int, stackEnd: seq<int>, outs: seq<Out>)
    requires m.fetch(pc) == Some(ILoop(off)) && 0 < n < TWO32
    requires Always(m, if n > 1 then pc + 5 + off else pc + 5, stack + [n - 1], o, pcEnd, stackEnd, outs)
    ensures Always(m, pc, stack + [n], o, pcEnd, stackEnd, outs)
  {
    hide Yields;
    assert (stack + [n])[|stack| := n - 1] == stack + [n - 1];
    AlwaysStep(m, pc, stack + [n], o, if n > 1 then pc + 5 + off else pc + 5, stack + [n - 1], o, pcEnd, stackEnd, outs);
  }

  // ----- {n} -----

  lemma {:induction false} SimFixedAt(m: Machine, pc: int, size: nat, f: Body, slots: nat, n: nat, o: Out, stack: seq<int>)
    requires Simulates(m, pc, size, f, slots) && Steady(|m.s|, f, false)
    requires m.fetch(pc + size) == Some(ILoop(Back(size))) && m.fetch(pc + size + 5) == Some(IDrop)
    requires 0 < n < TWO32 && Valid(|m.s|, o) && |o.caps| == slots
    ensures Always(m, pc, stack + [n], o, pc + size + 6, stack, Sem(|m.s|, Repeat(f, n), o))
    decreases n
  {
    hide Always;
    var outs, end := f(o), pc + size + 6;
    assert Bounded(|m.s|, o.pos, slots, outs);
    forall k | 0 <= k < |outs|
      ensures Always(m, pc + size, stack + [n], outs[k], end, stack, Sem(|m.s|, Repeat(f, n - 1), outs[k]))
    {
      if n == 1 {
        DropStep(m, pc + size + 5, 0, stack, outs[k]);
        LoopStep(m, pc + size, Back(size), 1, stack, outs[k], end, stack, [outs[k]]);
      } else {
        SimFixedAt(m, pc, size, f, slots, n - 1, outs[k], stack);
        LoopStep(m, pc + size, Back(size), n, stack, outs[k], end, stack, Sem(|m.s|, Repeat(f, n - 1), outs[k]));
      }
    }
    assert Follows(m, pc, size, f, stack + [n], o);
    AlwaysBind(m, pc, stack + [n], o, pc + size, stack + [n], outs, end, stack, Repeat(f, n - 1));
  }

  // ----- {0,n} -----

  lemma {:induction false} SimCountedAt(m: Machine, pc: int, size: nat, f: Body, slots: nat, n: nat, greedy: bool, o: Out, stack: seq<int>)
    requires m.fetch(pc) == Some(ISplit(greedy, size + 5)) && Simulates(m, pc + 5, size, f, slots) && Steady(|m.s|, f, false)
    requires m.fetch(pc + 5 + size) == Some(ILoop(Back(size + 5))) && m.fetch(pc + size + 10) == Some(IDrop)
    requires 0 < n < TWO32 && Valid(|m.s|, o) && |o.caps| == slots
    ensures Always(m, pc, stack + [n], o, pc + size + 11, stack, Sem(|m.s|, UpTo(f, n, greedy), o))
    decreases n
  {
    hide Always;
    var outs, end, t := f(o), pc + size + 11, UpTo(f, n - 1, greedy);
    assert Bounded(|m.s|, o.pos, slots, outs);
    forall k | 0 <= k < |outs|
      ensures Always(m, pc + 5 + size, stack + [n], outs[k], end, stack, Sem(|m.s|, t, outs[k]))
    {
      if n == 1 {
        DropStep(m, pc + size + 10, 0, stack, outs[k]);
        LoopStep(m, pc + 5 + size, Back(size + 5), 1, stack, outs[k], end, stack, [outs[k]]);
      } else {
        SimCountedAt(m, pc, size, f, slots, n - 1, greedy, outs[k], stack);
        LoopStep(m, pc + 5 + size, Back(size + 5), n, stack, outs[k], end, stack, Sem(|m.s|, t, outs[k]));
      }
    }
    assert Follows(m, pc + 5, size, f, stack + [n], o);
    AlwaysBind(m, pc + 5, stack + [n], o, pc + 5 + size, stack + [n], outs, end, stack, t);
    DropStep(m, pc + size + 10, n, stack, o);
    AlwaysSplit(m, pc, greedy, size + 5, o, stack + [n], end, stack, SemAll(|m.s|, t, outs), [o]);
  }

  // ----- Unbounded loops -----

  /** Without the zero-advance check; the body always advances. */
  lemma {:induction false} SimUncheckedAt(m: Machine, pc: int, size: nat, f: Body, slots: nat, from: int, o: Out, stack: seq<int>)
    requires m.fetch(pc) == Some(ISplit(true, size + 5)) && Simulates(m, pc + 5, size, f, slots) && Steady(|m.s|, f, true)
    requires m.fetch(pc + 5 + size) == Some(IGoto(Back(size + 5)))
    requires from < o.pos && Valid(|m.s|, o) && |o.caps| == slots
    ensures Always(m, pc, stack, o, pc + size + 10, stack, Sem(|m.s|, Loop(f, from), o))
    decreases |m.s| - o.pos
  {
    hide Always;
    var outs, end, t := f(o), pc + size + 10, Loop(f, o.pos);
    assert Bounded(|m.s|, o.pos + 1, slots, outs);
    forall k | 0 <= k < |outs|
      ensures Always(m, pc + 5 + size, stack, outs[k], end, stack, Sem(|m.s|, t, outs[k]))
    {
      SimUncheckedAt(m, pc, size, f, slots, o.pos, outs[k], stack);
      GotoStep(m, pc + 5 + size, Back(size + 5), stack, outs[k], end, stack, Sem(|m.s|, t, outs[k]));
    }
    assert Follows(m, pc + 5, size, f, stack, o);
    AlwaysBind(m, pc + 5, stack, o, pc + 5 + size, stack, outs, end, stack, t);
    AlwaysHere(m, end, stack, o);
    AlwaysSplit(m, pc, true, size + 5, o, stack, end, stack, SemAll(|m.s|, t, outs), [o]);
  }

  lemma PushPosStep(m: Machine, pc: int, stack: seq<int>, o: Out, pcEnd: int, stackEnd: seq<int>, outs: seq<Out>)
    requires m.fetch(pc) == Some(IPushPos) && Always(m, pc + 1, stack + [o.pos], o, pcEnd, stackEnd, outs)
    ensures Always(m, pc, stack, o, pcEnd, stackEnd, outs)
  {
    hide Yields;
    AlwaysStep(m, pc, stack, o, pc + 1, stack + [o.pos], o, pcEnd, stackEnd, outs);
  }

  lemma BnePosStep(m: Machine, pc: int, off: int, v: int, stack: seq<int>, o: Out, pcEnd: int, stackEnd: seq<int>, outs: seq<Out>)
    requires m.fetch(pc) == Some(IBnePos(off))
    requires Always(m, if v != o.pos then pc + 5 + off else pc + 5, stack, o, pcEnd, stackEnd, outs)
    ensures Always(m, pc, stack + [v], o, pcEnd, stackEnd, outs)
  {
    hide Yields;
    assert (stack + [v])[..|stack|] == stack;
    AlwaysStep(m, pc, stack + [v], o, if v != o.pos then pc + 5 + off else pc + 5, stack, o, pcEnd, stackEnd, outs);
  }

  /** With the check: an iteration that ends where it started leaves the loop. */
  lemma {:induction false} SimCheckedAt(m: Machine, pc: int, size: nat, f: Body, slots: nat, from: int, o: Out, stack: seq<int>)
    requires m.fetch(pc) == Some(ISplit(true, size + 6)) && m.fetch(pc + 5) == Some(IPushPos)
    requires Simulates(m, pc + 6, size, f, slots) && Steady(|m.s|, f, false)
    requires m.fetch(pc + 6 + size) == Some(IBnePos(Back(size + 6)))
    requires from < o.pos && Valid(|m.s|, o) && |o.caps| == slots
    ensures Always(m, pc, stack, o, pc + size + 11, stack, Sem(|m.s|, Loop(f, from), o))
    decreases |m.s| - o.pos
  {
    hide Always;
    var outs, end, t, stack1 := f(o), pc + size + 11, Loop(f, o.pos), stack + [o.pos];
    assert Bounded(|m.s|, o.pos, slots, outs);
    forall k | 0 <= k < |outs|
      ensures Always(m, pc + 6 + size, stack1, outs[k], end, stack, Sem(|m.s|, t, outs[k]))
    {
      if outs[k].pos == o.pos {
        AlwaysHere(m, end, stack, outs[k]);
      } else {
        SimCheckedAt(m, pc, size, f, slots, o.pos, outs[k], stack);
      }
      BnePosStep(m, pc + 6 + size, Back(size + 6), o.pos, stack, outs[k], end, stack, Sem(|m.s|, t, outs[k]));
    }
    assert Follows(m, pc + 6, size, f, stack1, o);
    AlwaysBind(m, pc + 6, stack1, o, pc + 6 + size, stack1, outs, end, stack, t);
    PushPosStep(m, pc + 5, stack, o, end, stack, SemAll(|m.s|, t, outs));
    AlwaysHere(m, end, stack, o);
    AlwaysSplit(m, pc, true, size + 6, o, stack, end, stack, SemAll(|m.s|, t, outs), [o]);
  }

  /** The split at the end of the greedy {1,} encoding. */
  lemma {:induction false} SimPlusAt(m: Machine, pc: int, size: nat, f: Body, slots: nat, from: int, o: Out, stack: seq<int>)
    requires m.fetch(pc + size) == Some(ISplit(false, Back(size))) && Simulates(m, pc, size, f, slots) && Steady(|m.s|, f, true)
    requires from < o.pos && Valid(|m.s|, o) && |o.caps| == slots
    ensures Always(m, pc + size, stack, o, pc + size + 5, stack, Sem(|m.s|, Loop(f, from), o))
    decreases |m.s| - o.pos
  {
    hide Always;
    var outs, end, t := f(o), pc + size + 5, Loop(f, o.pos);
    assert Bounded(|m.s|, o.pos + 1, slots, outs);
    forall k | 0 <= k < |outs|
      ensures Always(m, pc + size, stack, outs[k], end, stack, Sem(|m.s|, t, outs[k]))
    {
      SimPlusAt(m, pc, size, f, slots, o.pos, outs[k], stack);
    }
    assert Follows(m, pc, size, f, stack, o);
    AlwaysBind(m, pc, stack, o, pc + size, stack, outs, end, stack, t);
    AlwaysHere(m, end, stack, o);
    AlwaysSplit(m, pc + size, false, Back(size), o, stack, end, stack, [o], SemAll(|m.s|, t, outs));
  }

  // ----- Lazy unbounded loops -----

  function Cap(b: Option<nat>, n: nat): Option<nat> {
    if b == None then None else Some(if b.value <= n then b.value else n)
  }

  /** The split at `head` leaves the loop first and comes back to `entry`. */
  predicate LeavesFirst(m: Machine, head: int, exit: int, entry: int) {
    || (m.fetch(head) == Some(ISplit(true, entry - head - 5)) && exit == head + 5)
    || (m.fetch(head) == Some(ISplit(false, exit - head - 5)) && entry == head + 5)
  }

  /** From `entry` the code does one iteration and comes to the head of the loop. */
  ghost predicate Rounds(m: Machine, entry: int, head: int, f: Body, slots: nat, stack: seq<int>) {
    forall o :: Valid(|m.s|, o) && |o.caps| == slots ==> Always(m, entry, stack, o, head, stack, f(o))
  }

  /** There is no zero-advance check.  The first `n` rounds of the loop are its outcomes as
      far as a run of `n` steps gets.  If the body advances, `n` rounds are all there are. */
  lemma {:induction false} SimLazyAt(m: Machine, head: int, exit: int, entry: int, f: Body, slots: nat, n: nat, o: Out, stack: seq<int>)
    requires LeavesFirst(m, head, exit, entry) && Rounds(m, entry, head, f, slots, stack) && Steady(|m.s|, f, false)
    requires Valid(|m.s|, o) && |o.caps| == slots && (m.fuel == None ==> Steady(|m.s|, f, true) && |m.s| - o.pos < n)
    ensures AlwaysFor(m, head, stack, o, exit, stack, Sem(|m.s|, Lazy(f, n), o), Cap(m.fuel, n))
    decreases n
  {
    hide Visits, Above, LeavesFirst;
    if n == 0 {
      forall s ensures Visits(m, Run(head, o.pos, stack, o.caps, s), exit, stack, Sem(|m.s|, Lazy(f, n), o), s, Cap(m.fuel, n)) {
        NoSteps(m, Run(head, o.pos, stack, o.caps, s), exit, stack, Sem(|m.s|, Lazy(f, n), o), s);
      }
    } else {
      var outs, t, b := f(o), Lazy(f, n - 1), Cap(m.fuel, n - 1);
      assert Bounded(|m.s|, o.pos, slots, outs);
      assert m.fuel == None ==> Bounded(|m.s|, o.pos + 1, slots, outs);
      forall k | 0 <= k < |outs| ensures AlwaysFor(m, head, stack, outs[k], exit, stack, Sem(|m.s|, t, outs[k]), b) {
        SimLazyAt(m, head, exit, entry, f, slots, n - 1, outs[k], stack);
      }
      forall s ensures Visits(m, Run(head, o.pos, stack, o.caps, s), exit, stack, [o] + SemAll(|m.s|, t, outs), s, Cap(m.fuel, n)) {
        LazyRound(m, head, exit, entry, f, n, o, stack, s);
      }
    }
  }

  /** Nothing is said of a run without fuel. */
  lemma NoSteps(m: Machine, c: Config, pc: int, stack: seq<int>, outs: seq<Out>, s: Saved)
    requires c.Run?
    ensures Visits(m, c, pc, stack, outs, s, Some(0))
  {
  }

  lemma LazyRound(m: Machine, head: int, exit: int, entry: int, f: Body, n: nat, o: Out, stack: seq<int>, s: Saved)
    requires LeavesFirst(m, head, exit, entry) && n > 0 && Always(m, entry, stack, o, head, stack, f(o))
    requires forall k :: 0 <= k < |f(o)| ==>
      AlwaysFor(m, head, stack, f(o)[k], exit, stack, Sem(|m.s|, Lazy(f, n - 1), f(o)[k]), Cap(m.fuel, n - 1))
    ensures Visits(m, Run(head, o.pos, stack, o.caps, s), exit, stack, [o] + SemAll(|m.s|, Lazy(f, n - 1), f(o)), s, Cap(m.fuel, n))
  {
    hide Sem, SemAll, Steps;
    var c, rest, b := Run(head, o.pos, stack, o.caps, s), SemAll(|m.s|, Lazy(f, n - 1), f(o)), Cap(m.fuel, n - 1);
    var t := Push(Frame(SplitState, entry, o.pos, stack, o.caps), s);
    var body := Run(entry, o.pos, stack, o.caps, s);
    LazySplit(m, head, exit, entry, o, stack, s);
    assert Yields(m, body, head, stack, f(o), s);
    LazyRest(m, body, head, stack, f(o), exit, Lazy(f, n - 1), s, b);
    VisitsFrom(m, Backtrack(t), body, exit, stack, rest, s, b);
    VisitsLess(m, Backtrack(t), exit, stack, rest, s, Less(Cap(m.fuel, n), 2), b);
    LeavesWith(m, c, exit, stack, o, rest, t, s, Cap(m.fuel, n));
  }

  lemma LazySplit(m: Machine, head: int, exit: int, entry: int, o: Out, stack: seq<int>, s: Saved)
    requires LeavesFirst(m, head, exit, entry)
    ensures var t := Push(Frame(SplitState, entry, o.pos, stack, o.caps), s);
            && Steps(m, Run(head, o.pos, stack, o.caps, s), 1) == Run(exit, o.pos, stack, o.caps, t)
            && Reaches(m, Backtrack(t), Run(entry, o.pos, stack, o.caps, s)) && Above(t, s)
  {
    var t := Push(Frame(SplitState, entry, o.pos, stack, o.caps), s);
    var c := Run(head, o.pos, stack, o.caps, s);
    assert Steps(m, c, 1) == Steps(m, Step(m, c), 0);
    ReachSelf(m, Run(entry, o.pos, stack, o.caps, s));
    ReachStep(m, Backtrack(t), Run(entry, o.pos, stack, o.caps, s));
    assert Above(s, s);
  }

  lemma LazyRest(m: Machine, c: Config, pc: int, stack: seq<int>, outs: seq<Out>, pcEnd: int, task: Task, s: Saved, b: Option<nat>)
    requires Yields(m, c, pc, stack, outs, s) && AtMost(b, m.fuel)
    requires forall k :: 0 <= k < |outs| ==> AlwaysFor(m, pc, stack, outs[k], pcEnd, stack, Sem(|m.s|, task, outs[k]), b)
    ensures Visits(m, c, pcEnd, stack, SemAll(|m.s|, task, outs), s, b)
  {
    hide Visits, AlwaysFor, Sem, SemAll;
    VisitsLess(m, c, pc, stack, outs, s, b, m.fuel);
    VisitsBind(m, c, pc, stack, outs, pcEnd, stack, task, s, b);
  }

  lemma LeavesWith(m: Machine, c: Config, pc: int, stack: seq<int>, o: Out, rest: seq<Out>, t: Saved, s: Saved, b: Option<nat>)
    requires Above(t, s) && Steps(m, c, 1) == Run(pc, o.pos, stack, o.caps, t) && Visits(m, Backtrack(t), pc, stack, rest, s, Less(b, 2))
    ensures Visits(m, c, pc, stack, [o] + rest, s, b)
  {
    hide Steps, Above;
    var all := [o] + rest;
    assert all[1..] == rest;
    assert Arrives(m, c, 1, pc, stack, all[0], t, s);
  }
}
