/** How runs of the backtracking machine compose. */
module RegexYields {
  import opened Basics
  import opened RegexOutcomes
  import opened RegexCode
  import opened RegexVM

  /** `t` is `s` with alternatives, but no lookahead, saved on top of it. */
  ghost predicate Above(t: Saved, s: Saved) {
    t == s || (t.Push? && !t.top.kind.LookState? && Above(t.below, s))
  }

  lemma {:induction false} AboveTrans(u: Saved, t: Saved, s: Saved)
    requires Above(u, t) && Above(t, s)
    ensures Above(u, s)
  {
    if u != t {
      AboveTrans(u.below, t, s);
    }
  }

  // ----- Runs that are looked at for a while only -----

  /** What is left of the fuel after `n` steps. */
  function Less(b: Option<nat>, n: nat): Option<nat> {
    if b == None then None else Some(if b.value >= n then b.value - n else 0)
  }

  predicate AtMost(a: Option<nat>, b: Option<nat>) {
    (a == None <==> b == None) && (a.Some? && b.Some? ==> a.value <= b.value)
  }

  /** The run goes on for longer than the fuel lasts. */
  ghost predicate Outlasts(m: Machine, c: Config, b: Option<nat>) {
    b.Some? && !Steps(m, c, b.value).Done?
  }

  lemma OutlastsLess(m: Machine, c: Config, a: Option<nat>, b: Option<nat>)
    requires Outlasts(m, c, b) && AtMost(a, b)
    ensures Outlasts(m, c, a)
  {
    NotDoneBefore(m, c, a.value, b.value);
  }

  lemma OutlastsVia(m: Machine, c: Config, n: nat, b: Option<nat>)
    requires Outlasts(m, Steps(m, c, n), Less(b, n))
    ensures Outlasts(m, c, b)
  {
    if b.value >= n {
      StepsAdd(m, c, n, b.value - n);
    } else {
      NotDoneBefore(m, c, b.value, n);
    }
  }

  // ----- Visiting outcomes -----

  /** From `c` the machine arrives at `pc` with the outcomes `outs`, one after the
      other as it backtracks, and after the last one falls back to `s`, unless it runs for
      longer than the fuel lasts. */
  ghost predicate Visits(m: Machine, c: Config, pc: int, stack: seq<int>, outs: seq<Out>, s: Saved, b: Option<nat>)
    decreases |outs|
  {
    || Outlasts(m, c, b)
    || if outs == [] then Reaches(m, c, Backtrack(s))
       else exists t, n: nat :: Arrives(m, c, n, pc, stack, outs[0], t, s) && Visits(m, Backtrack(t), pc, stack, outs[1..], s, Less(b, n + 1))
  }

  ghost predicate Arrives(m: Machine, c: Config, n: nat, pc: int, stack: seq<int>, o: Out, t: Saved, s: Saved) {
    Above(t, s) && Steps(m, c, n) == Run(pc, o.pos, stack, o.caps, t)
  }

  /** With the fuel of the machine. */
  ghost predicate Yields(m: Machine, c: Config, pc: int, stack: seq<int>, outs: seq<Out>, s: Saved) {
    Visits(m, c, pc, stack, outs, s, m.fuel)
  }

  /** The same from every state stack. */
  ghost predicate Always(m: Machine, pc: int, stack: seq<int>, o: Out, pcEnd: int, stackEnd: seq<int>, outs: seq<Out>) {
    AlwaysFor(m, pc, stack, o, pcEnd, stackEnd, outs, m.fuel)
  }

  ghost predicate AlwaysFor(m: Machine, pc: int, stack: seq<int>, o: Out, pcEnd: int, stackEnd: seq<int>, outs: seq<Out>, b: Option<nat>) {
    forall s :: Visits(m, Run(pc, o.pos, stack, o.caps, s), pcEnd, stackEnd, outs, s, b)
  }

  lemma {:induction false} VisitsLess(m: Machine, c: Config, pc: int, stack: seq<int>, outs: seq<Out>, s: Saved, a: Option<nat>, b: Option<nat>)
    requires Visits(m, c, pc, stack, outs, s, b) && AtMost(a, b)
    ensures Visits(m, c, pc, stack, outs, s, a)
    decreases |outs|
  {
    hide Reaches, Outlasts, Steps, Above;
    if Outlasts(m, c, b) {
      OutlastsLess(m, c, a, b);
    } else if outs != [] {
      var t, n: nat :| Arrives(m, c, n, pc, stack, outs[0], t, s) && Visits(m, Backtrack(t), pc, stack, outs[1..], s, Less(b, n + 1));
      VisitsLess(m, Backtrack(t), pc, stack, outs[1..], s, Less(a, n + 1), Less(b, n + 1));
    }
  }

  lemma VisitsVia(m: Machine, c: Config, n: nat, d: Config, pc: int, stack: seq<int>, outs: seq<Out>, s: Saved, b: Option<nat>)
    requires Steps(m, c, n) == d && Visits(m, d, pc, stack, outs, s, Less(b, n))
    ensures Visits(m, c, pc, stack, outs, s, b)
  {
    hide Outlasts, Steps, Above;
    if Outlasts(m, d, Less(b, n)) {
      OutlastsVia(m, c, n, b);
    } else if outs == [] {
      var k: nat :| Steps(m, d, k) == Backtrack(s);
      StepsAdd(m, c, n, k);
    } else {
      var t, k: nat :| Arrives(m, d, k, pc, stack, outs[0], t, s) && Visits(m, Backtrack(t), pc, stack, outs[1..], s, Less(Less(b, n), k + 1));
      StepsAdd(m, c, n, k);
      assert Arrives(m, c, n + k, pc, stack, outs[0], t, s) && Less(Less(b, n), k + 1) == Less(b, (n + k) + 1);
    }
  }

  lemma VisitsFrom(m: Machine, c: Config, d: Config, pc: int, stack: seq<int>, outs: seq<Out>, s: Saved, b: Option<nat>)
    requires Reaches(m, c, d) && Visits(m, d, pc, stack, outs, s, b)
    ensures Visits(m, c, pc, stack, outs, s, b)
  {
    hide Visits;
    var n: nat :| Steps(m, c, n) == d;
    VisitsLess(m, d, pc, stack, outs, s, Less(b, n), b);
    VisitsVia(m, c, n, d, pc, stack, outs, s, b);
  }

  lemma YieldsPrefix(m: Machine, c: Config, d: Config, pc: int, stack: seq<int>, outs: seq<Out>, s: Saved)
    requires Reaches(m, c, d) && Yields(m, d, pc, stack, outs, s)
    ensures Yields(m, c, pc, stack, outs, s)
  {
    hide Visits;
    VisitsFrom(m, c, d, pc, stack, outs, s, m.fuel);
  }

  lemma YieldsStep(m: Machine, c: Config, pc: int, stack: seq<int>, outs: seq<Out>, s: Saved)
    requires Yields(m, Step(m, c), pc, stack, outs, s)
    ensures Yields(m, c, pc, stack, outs, s)
  {
    hide Visits;
    ReachSelf(m, Step(m, c));
    ReachStep(m, c, Step(m, c));
    YieldsPrefix(m, c, Step(m, c), pc, stack, outs, s);
  }

  lemma VisitsHere(m: Machine, pc: int, stack: seq<int>, o: Out, s: Saved, b: Option<nat>)
    ensures Visits(m, Run(pc, o.pos, stack, o.caps, s), pc, stack, [o], s, b)
  {
    ReachSelf(m, Backtrack(s));
    assert Arrives(m, Run(pc, o.pos, stack, o.caps, s), 0, pc, stack, [o][0], s, s);
    assert Visits(m, Backtrack(s), pc, stack, [o][1..], s, Less(b, 1));
  }

  lemma YieldsHere(m: Machine, pc: int, stack: seq<int>, o: Out, s: Saved)
    ensures Yields(m, Run(pc, o.pos, stack, o.caps, s), pc, stack, [o], s)
  {
    hide Visits;
    VisitsHere(m, pc, stack, o, s, m.fuel);
  }

  lemma YieldsNothing(m: Machine, pc: int, stack: seq<int>, s: Saved)
    ensures Yields(m, Backtrack(s), pc, stack, [], s)
  {
    ReachSelf(m, Backtrack(s));
  }

  /** From a running configuration it takes a step at least to fall back, so what comes after
      may have a step less to go. */
  lemma {:induction false} VisitsAppend(m: Machine, c: Config, pc: int, stack: seq<int>,
                                        first: seq<Out>, second: seq<Out>, t: Saved, s: Saved, b: Option<nat>, b1: Option<nat>)
    requires Visits(m, c, pc, stack, first, t, b) && Above(t, s)
    requires Visits(m, Backtrack(t), pc, stack, second, s, b1) && AtMost(if c.Run? then Less(b, 1) else b, b1)
    ensures Visits(m, c, pc, stack, first + second, s, b)
    decreases |first|
  {
    hide Outlasts;
    var all := first + second;
    if Outlasts(m, c, b) {
    } else if first == [] {
      assert all == second;
      FallsBack(m, c, pc, stack, second, t, s, b, b1);
    } else {
      hide Steps;
      var u, n: nat :| Arrives(m, c, n, pc, stack, first[0], u, t) && Visits(m, Backtrack(u), pc, stack, first[1..], t, Less(b, n + 1));
      VisitsAppend(m, Backtrack(u), pc, stack, first[1..], second, t, s, Less(b, n + 1), b1);
      AboveTrans(u, t, s);
      assert all[1..] == first[1..] + second;
      assert Arrives(m, c, n, pc, stack, all[0], u, s);
    }
  }

  lemma FallsBack(m: Machine, c: Config, pc: int, stack: seq<int>, outs: seq<Out>, t: Saved, s: Saved, b: Option<nat>, b1: Option<nat>)
    requires Reaches(m, c, Backtrack(t)) && Visits(m, Backtrack(t), pc, stack, outs, s, b1)
    requires AtMost(if c.Run? then Less(b, 1) else b, b1)
    ensures Visits(m, c, pc, stack, outs, s, b)
  {
    hide Visits;
    var n: nat :| Steps(m, c, n) == Backtrack(t);
    assert c.Run? ==> n > 0;
    VisitsLess(m, Backtrack(t), pc, stack, outs, s, Less(b, n), b1);
    VisitsVia(m, c, n, Backtrack(t), pc, stack, outs, s, b);
  }

  lemma YieldsAppend(m: Machine, c: Config, pc: int, stack: seq<int>, first: seq<Out>, second: seq<Out>, t: Saved, s: Saved)
    requires Yields(m, c, pc, stack, first, t) && Above(t, s)
    requires Yields(m, Backtrack(t), pc, stack, second, s)
    ensures Yields(m, c, pc, stack, first + second, s)
  {
    hide Visits;
    VisitsAppend(m, c, pc, stack, first, second, t, s, m.fuel, m.fuel);
  }

  /** One outcome goes on with `next`, and the ones behind it are visited after those. */
  lemma VisitsOne(m: Machine, c: Config, n: nat, pc: int, stack: seq<int>, o: Out, t: Saved,
                  pcEnd: int, stackEnd: seq<int>, next: seq<Out>, rest: seq<Out>, s: Saved, b: Option<nat>)
    requires Arrives(m, c, n, pc, stack, o, t, s) && AlwaysFor(m, pc, stack, o, pcEnd, stackEnd, next, b)
    requires Visits(m, Backtrack(t), pcEnd, stackEnd, rest, s, Less(b, n + 1))
    ensures Visits(m, c, pcEnd, stackEnd, next + rest, s, b)
  {
    hide Visits, Steps;
    var d := Run(pc, o.pos, stack, o.caps, t);
    VisitsLess(m, d, pcEnd, stackEnd, next, t, Less(b, n), b);
    VisitsAppend(m, d, pcEnd, stackEnd, next, rest, t, s, Less(b, n), Less(b, n + 1));
    VisitsVia(m, c, n, d, pcEnd, stackEnd, next + rest, s, b);
  }

  /** Sequencing: every outcome continues with `task`. */
  lemma {:induction false} VisitsBind(m: Machine, c: Config, pc: int, stack: seq<int>, outs: seq<Out>,
                                      pcEnd: int, stackEnd: seq<int>, task: Task, s: Saved, b: Option<nat>)
    requires Visits(m, c, pc, stack, outs, s, b)
    requires forall k :: 0 <= k < |outs| ==> AlwaysFor(m, pc, stack, outs[k], pcEnd, stackEnd, Sem(|m.s|, task, outs[k]), b)
    ensures Visits(m, c, pcEnd, stackEnd, SemAll(|m.s|, task, outs), s, b)
    decreases |outs|
  {
    hide Reaches, Outlasts, AlwaysFor, Steps, Above;
    if Outlasts(m, c, b) || outs == [] {
    } else {
      var t, n: nat :| Arrives(m, c, n, pc, stack, outs[0], t, s) && Visits(m, Backtrack(t), pc, stack, outs[1..], s, Less(b, n + 1));
      AllLess(m, pc, stack, outs, pcEnd, stackEnd, task, Less(b, n + 1), b);
      VisitsBind(m, Backtrack(t), pc, stack, outs[1..], pcEnd, stackEnd, task, s, Less(b, n + 1));
      VisitsOne(m, c, n, pc, stack, outs[0], t, pcEnd, stackEnd, Sem(|m.s|, task, outs[0]), SemAll(|m.s|, task, outs[1..]), s, b);
    }
  }

  lemma AllLess(m: Machine, pc: int, stack: seq<int>, outs: seq<Out>, pcEnd: int, stackEnd: seq<int>, task: Task, a: Option<nat>, b: Option<nat>)
    requires AtMost(a, b)
    requires forall k :: 0 <= k < |outs| ==> AlwaysFor(m, pc, stack, outs[k], pcEnd, stackEnd, Sem(|m.s|, task, outs[k]), b)
    ensures forall k :: 0 <= k < |outs| ==> AlwaysFor(m, pc, stack, outs[k], pcEnd, stackEnd, Sem(|m.s|, task, outs[k]), a)
  {
    hide Visits, Sem;
    forall k | 0 <= k < |outs| ensures AlwaysFor(m, pc, stack, outs[k], pcEnd, stackEnd, Sem(|m.s|, task, outs[k]), a) {
      AlwaysLess(m, pc, stack, outs[k], pcEnd, stackEnd, Sem(|m.s|, task, outs[k]), a, b);
    }
  }

  lemma AlwaysLess(m: Machine, pc: int, stack: seq<int>, o: Out, pcEnd: int, stackEnd: seq<int>, outs: seq<Out>, a: Option<nat>, b: Option<nat>)
    requires AlwaysFor(m, pc, stack, o, pcEnd, stackEnd, outs, b) && AtMost(a, b)
    ensures AlwaysFor(m, pc, stack, o, pcEnd, stackEnd, outs, a)
  {
    hide Visits;
    forall s ensures Visits(m, Run(pc, o.pos, stack, o.caps, s), pcEnd, stackEnd, outs, s, a) {
      VisitsLess(m, Run(pc, o.pos, stack, o.caps, s), pcEnd, stackEnd, outs, s, a, b);
    }
  }

  /** Every outcome moves on to another address, possibly changed. */
  lemma {:induction false} VisitsMove(m: Machine, c: Config, pc: int, stack: seq<int>, outs: seq<Out>,
                                      pcEnd: int, stackEnd: seq<int>, outs': seq<Out>, s: Saved, b: Option<nat>)
    requires Visits(m, c, pc, stack, outs, s, b) && |outs| == |outs'| && AtMost(b, m.fuel)
    requires forall k :: 0 <= k < |outs| ==> Always(m, pc, stack, outs[k], pcEnd, stackEnd, [outs'[k]])
    ensures Visits(m, c, pcEnd, stackEnd, outs', s, b)
    decreases |outs|
  {
    hide Reaches, Outlasts, AlwaysFor, Steps, Above;
    if Outlasts(m, c, b) {
    } else if outs == [] {
      assert outs' == [];
    } else {
      var t, n: nat :| Arrives(m, c, n, pc, stack, outs[0], t, s) && Visits(m, Backtrack(t), pc, stack, outs[1..], s, Less(b, n + 1));
      VisitsMove(m, Backtrack(t), pc, stack, outs[1..], pcEnd, stackEnd, outs'[1..], s, Less(b, n + 1));
      assert Always(m, pc, stack, outs[0], pcEnd, stackEnd, [outs'[0]]);
      AlwaysLess(m, pc, stack, outs[0], pcEnd, stackEnd, [outs'[0]], b, m.fuel);
      VisitsOne(m, c, n, pc, stack, outs[0], t, pcEnd, stackEnd, [outs'[0]], outs'[1..], s, b);
      assert outs' == [outs'[0]] + outs'[1..];
    }
  }

  /** A split explores one branch and then the other. */
  lemma YieldsSplit(m: Machine, pc: int, nextFirst: bool, off: int, o: Out, stack: seq<int>, s: Saved,
                    pcEnd: int, stackEnd: seq<int>, next: seq<Out>, target: seq<Out>)
    requires m.fetch(pc) == Some(ISplit(nextFirst, off))
    requires Always(m, pc + 5, stack, o, pcEnd, stackEnd, next)
    requires Always(m, pc + 5 + off, stack, o, pcEnd, stackEnd, target)
    ensures Yields(m, Run(pc, o.pos, stack, o.caps, s), pcEnd, stackEnd, Choice(nextFirst, next, target), s)
  {
    var c := Run(pc, o.pos, stack, o.caps, s);
    var (now, later) := if nextFirst then (pc + 5, pc + 5 + off) else (pc + 5 + off, pc + 5);
    var (a, b) := if nextFirst then (next, target) else (target, next);
    var t := Push(Frame(SplitState, later, o.pos, stack, o.caps), s);
    hide Visits;
    assert Step(m, c) == Run(now, o.pos, stack, o.caps, t);
    assert Yields(m, Run(now, o.pos, stack, o.caps, t), pcEnd, stackEnd, a, t);
    YieldsStep(m, c, pcEnd, stackEnd, a, t);
    assert Step(m, Backtrack(t)) == Run(later, o.pos, stack, o.caps, s);
    assert Yields(m, Run(later, o.pos, stack, o.caps, s), pcEnd, stackEnd, b, s);
    YieldsStep(m, Backtrack(t), pcEnd, stackEnd, b, s);
    assert Above(t, s);
    YieldsAppend(m, c, pcEnd, stackEnd, a, b, t, s);
  }

  /** With a match, saved alternatives are dropped down to the next lookahead. */
  lemma {:induction false} UnwindAbove(m: Machine, caps: seq<int>, t: Saved, s: Saved)
    requires Above(t, s)
    ensures Reaches(m, Unwind(caps, t), Unwind(caps, s))
  {
    if t == s {
      ReachSelf(m, Unwind(caps, s));
    } else {
      UnwindAbove(m, caps, t.below, s);
      ReachStep(m, Unwind(caps, t), Unwind(caps, s));
    }
  }

  /** One instruction that moves the configuration on. */
  lemma AlwaysStep(m: Machine, pc: int, stack: seq<int>, o: Out, pc1: int, stack1: seq<int>, o1: Out,
                   pcEnd: int, stackEnd: seq<int>, outs: seq<Out>)
    requires forall s :: Step(m, Run(pc, o.pos, stack, o.caps, s)) == Run(pc1, o1.pos, stack1, o1.caps, s)
    requires Always(m, pc1, stack1, o1, pcEnd, stackEnd, outs)
    ensures Always(m, pc, stack, o, pcEnd, stackEnd, outs)
  {
    hide Visits;
    forall s ensures Visits(m, Run(pc, o.pos, stack, o.caps, s), pcEnd, stackEnd, outs, s, m.fuel) {
      assert Yields(m, Run(pc1, o1.pos, stack1, o1.caps, s), pcEnd, stackEnd, outs, s);
      YieldsStep(m, Run(pc, o.pos, stack, o.caps, s), pcEnd, stackEnd, outs, s);
    }
  }

  lemma AlwaysHere(m: Machine, pc: int, stack: seq<int>, o: Out)
    ensures Always(m, pc, stack, o, pc, stack, [o])
  {
    hide Visits;
    forall s ensures Visits(m, Run(pc, o.pos, stack, o.caps, s), pc, stack, [o], s, m.fuel) {
      VisitsHere(m, pc, stack, o, s, m.fuel);
    }
  }

  lemma AlwaysSplit(m: Machine, pc: int, nextFirst: bool, off: int, o: Out, stack: seq<int>,
                    pcEnd: int, stackEnd: seq<int>, next: seq<Out>, target: seq<Out>)
    requires m.fetch(pc) == Some(ISplit(nextFirst, off))
    requires Always(m, pc + 5, stack, o, pcEnd, stackEnd, next)
    requires Always(m, pc + 5 + off, stack, o, pcEnd, stackEnd, target)
    ensures Always(m, pc, stack, o, pcEnd, stackEnd, Choice(nextFirst, next, target))
  {
    hide Visits;
    forall s ensures Visits(m, Run(pc, o.pos, stack, o.caps, s), pcEnd, stackEnd, Choice(nextFirst, next, target), s, m.fuel) {
      YieldsSplit(m, pc, nextFirst, off, o, stack, s, pcEnd, stackEnd, next, target);
    }
  }

  lemma AlwaysBind(m: Machine, pc: int, stack: seq<int>, o: Out, pcMid: int, stackMid: seq<int>, outs: seq<Out>,
                   pcEnd: int, stackEnd: seq<int>, task: Task)
    requires Always(m, pc, stack, o, pcMid, stackMid, outs)
    requires forall k :: 0 <= k < |outs| ==> Always(m, pcMid, stackMid, outs[k], pcEnd, stackEnd, Sem(|m.s|, task, outs[k]))
    ensures Always(m, pc, stack, o, pcEnd, stackEnd, SemAll(|m.s|, task, outs))
  {
    hide Visits, Sem, SemAll;
    forall s ensures Visits(m, Run(pc, o.pos, stack, o.caps, s), pcEnd, stackEnd, SemAll(|m.s|, task, outs), s, m.fuel) {
      VisitsBind(m, Run(pc, o.pos, stack, o.caps, s), pcMid, stackMid, outs, pcEnd, stackEnd, task, s, m.fuel);
    }
  }

  lemma AlwaysMove(m: Machine, pc: int, stack: seq<int>, o: Out, pcMid: int, stackMid: seq<int>, outs: seq<Out>,
                   pcEnd: int, stackEnd: seq<int>, outs': seq<Out>)
    requires Always(m, pc, stack, o, pcMid, stackMid, outs) && |outs| == |outs'|
    requires forall k :: 0 <= k < |outs| ==> Always(m, pcMid, stackMid, outs[k], pcEnd, stackEnd, [outs'[k]])
    ensures Always(m, pc, stack, o, pcEnd, stackEnd, outs')
  {
    hide Visits;
    forall s ensures Visits(m, Run(pc, o.pos, stack, o.caps, s), pcEnd, stackEnd, outs', s, m.fuel) {
      VisitsMove(m, Run(pc, o.pos, stack, o.caps, s), pcMid, stackMid, outs, pcEnd, stackEnd, outs', s, m.fuel);
    }
  }
}
