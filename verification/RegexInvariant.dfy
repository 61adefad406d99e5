/** What holds in every configuration a compiled program can reach. */
module RegexInvariant {
  import opened Basics
  import opened RegexSyntax
  import opened RegexOutcomes
  import opened RegexCode
  import opened RegexGen
  import opened RegexVM
  import opened RegexGreedy
  import opened RegexSearch
  import opened RegexStack

  /** A saved state resumes at an instruction whose depth its stack copy has. */
  ghost predicate FrameOk(x: Code, slots: nat, len: nat, f: Frame) {
    0 <= f.pos <= len && |f.caps| == slots &&
    match f.kind
    case GreedyState(count) => exists k :: GreedyFrameAt(x, f, count, k)
    case _ => Boundary(x, f.pc, |f.stack|)
  }

  ghost predicate GreedyFrameAt(x: Code, f: Frame, count: nat, k: int) {
    0 <= k < |x| && x[k].IGreedy? && BoundaryAt(x, f.pc - 1, |f.stack|, k) && count > 0 &&
    exists bottom: nat :: Climb(bottom, x[k].count, count) == f.pos
  }

  ghost predicate SavedOk(x: Code, slots: nat, len: nat, s: Saved) {
    match s
    case Nil => true
    case Push(f, below) => FrameOk(x, slots, len, f) && SavedOk(x, slots, len, below)
  }

  /** The invariant: the runtime stack is as deep as the scan says at this pc, the
      cursor is inside the subject, the slots are all there, the machine is not stuck. */
  ghost predicate Sound(x: Code, slots: nat, len: nat, c: Config) {
    match c
    case Run(pc, pos, stack, caps, saved) =>
      Boundary(x, pc, |stack|) && 0 <= pos <= len && |caps| == slots && SavedOk(x, slots, len, saved)
    case Backtrack(saved) => SavedOk(x, slots, len, saved)
    case Unwind(caps, saved) => |caps| == slots && SavedOk(x, slots, len, saved)
    case Done(result) => result.Some? ==> |result.value| == slots
    case Stuck => false
  }

  ghost predicate Loaded(m: Machine, x: Code, slots: nat) {
    Sized(m) && CodeAt(m.fetch, 0, x + [IMatch]) && Balanced(x, slots)
  }

  // ----- Fetching at a boundary -----

  lemma FetchAt(m: Machine, x: Code, pc: int, d: int, k: int)
    requires CodeAt(m.fetch, 0, x + [IMatch]) && BoundaryAt(x, pc, d, k)
    ensures m.fetch(pc) == Some(if k < |x| then x[k] else IMatch)
    ensures k < |x| ==> CodeAt(m.fetch, pc + Size(x[k]), x[k + 1..] + [IMatch])
  {
    hide CodeAt;
    var rest := x[k..] + [IMatch];
    assert x + [IMatch] == x[..k] + rest;
    CodeAtConcat(m.fetch, 0, x[..k], rest);
    if k < |x| {
      assert rest == [x[k]] + (x[k + 1..] + [IMatch]);
      CodeAtHead(m.fetch, pc, x[k], x[k + 1..] + [IMatch]);
    } else {
      assert rest == [IMatch] + [];
      CodeAtHead(m.fetch, pc, IMatch, []);
    }
  }

  lemma NextBoundary(x: Code, pc: int, d: int, k: int)
    requires BoundaryAt(x, pc, d, k) && k < |x|
    ensures Boundary(x, pc + Size(x[k]), d + Effect(x[k]))
  {
    hide Len, Net, Size, Effect;
    assert x[..k + 1] == x[..k] + [x[k]];
    Measures(x[..k], [x[k]]);
    UnitMeasures(x[k]);
    assert BoundaryAt(x, pc + Size(x[k]), d + Effect(x[k]), k + 1);
  }

  lemma AtomCode(m: Machine, pc: int, rest: Code, n: nat, off: int) returns (a: Code)
    requires AtomAhead(rest, n, off) && CodeAt(m.fetch, pc, rest + [IMatch])
    ensures CodeAt(m.fetch, pc, a + [IMatch]) && SimpleLength(a) == n && n > 0 && off == Len(a) + 1
  {
    hide Len, SimpleLength, CodeAt;
    a :| a + [IMatch] <= rest && SimpleLength(a) == n && n > 0 && off == Len(a) + 1;
    var h := a + [IMatch];
    assert rest + [IMatch] == h + (rest[|h|..] + [IMatch]);
    CodeAtConcat(m.fetch, pc, h, rest[|h|..] + [IMatch]);
  }

  // ----- One step -----

  lemma RunOk(m: Machine, x: Code, slots: nat, c: Config)
    requires Loaded(m, x, slots) && c.Run? && Sound(x, slots, |m.s|, c)
    ensures Sound(x, slots, |m.s|, Step(m, c))
  {
    hide CodeAt, Boundary, Sized, GreedyRun, AtomRunner;
    var k := WhichInstr(x, c.pc, |c.stack|);
    FetchAt(m, x, c.pc, |c.stack|, k);
    if k < |x| {
      assert InstrOk(x, slots, k);
      NextBoundary(x, c.pc, |c.stack|, k);
      if x[k].IGreedy? {
        GreedyOk(m, x, slots, c, k);
      } else {
        ExecOk(m, x, slots, c, k);
      }
    }
  }

  lemma WhichInstr(x: Code, pc: int, d: int) returns (k: int)
    requires Boundary(x, pc, d)
    ensures BoundaryAt(x, pc, d, k)
  {
    k :| BoundaryAt(x, pc, d, k);
  }

  lemma ExecOk(m: Machine, x: Code, slots: nat, c: Config, k: int)
    requires c.Run? && Sound(x, slots, |m.s|, c) && BoundaryAt(x, c.pc, |c.stack|, k) && k < |x|
    requires m.fetch(c.pc) == Some(x[k]) && !x[k].IGreedy? && InstrOk(x, slots, k)
    requires Boundary(x, c.pc + Size(x[k]), |c.stack| + Effect(x[k]))
    ensures Sound(x, slots, |m.s|, Step(m, c))
  {
    hide Boundary, AtomAhead, Net, Len, Accepts, Holds;
  }

  lemma GreedyOk(m: Machine, x: Code, slots: nat, c: Config, k: int)
    requires c.Run? && Sound(x, slots, |m.s|, c) && BoundaryAt(x, c.pc, |c.stack|, k) && k < |x| && Sized(m)
    requires m.fetch(c.pc) == Some(x[k]) && x[k].IGreedy? && InstrOk(x, slots, k)
    requires CodeAt(m.fetch, c.pc + 17, x[k + 1..] + [IMatch])
    ensures Sound(x, slots, |m.s|, Step(m, c))
  {
    hide Boundary, AtomAhead, Net, Len, Sized, CodeAt, GreedyRun, AtomRunner, Uniform, GreedyOuts, Step, SimpleLength;
    var i := x[k];
    var a := AtomCode(m, c.pc + 17, x[k + 1..], i.count, i.off);
    AtomRunsUniformly(m, c.pc + 17, a);
    var o := Out(c.pos, c.caps);
    var q := GreedyDown(AtomRunner(m, c.pc + 17), |m.s|, i.count, o, 0, 0, i.max);
    var end := Climb(o.pos, i.count, q);
    GreedyExec(m, c.pc, i, q, end, c.stack, o, c.saved);
    if q > i.min {
      var f := Frame(GreedyState(q - i.min), c.pc + 1, end, c.stack, c.caps);
      var bottom := ClimbSplit(o.pos, i.count, i.min, q);
      assert GreedyFrameAt(x, f, q - i.min, k);
    }
  }

  lemma PopOk(m: Machine, x: Code, slots: nat, saved: Saved)
    requires Loaded(m, x, slots) && SavedOk(x, slots, |m.s|, saved)
    ensures Sound(x, slots, |m.s|, PopFailed(m, saved))
  {
    hide CodeAt, Boundary, Sized;
    if saved.Push? && saved.top.kind.GreedyState? {
      GreedyPopOk(m, x, slots, saved);
    }
  }

  lemma GreedyPopOk(m: Machine, x: Code, slots: nat, saved: Saved)
    requires Loaded(m, x, slots) && SavedOk(x, slots, |m.s|, saved) && saved.Push? && saved.top.kind.GreedyState?
    ensures Sound(x, slots, |m.s|, PopFailed(m, saved))
  {
    hide CodeAt, Boundary, Sized, Net, Len, AtomAhead;
    var f := saved.top;
    var count := f.kind.count;
    var k :| GreedyFrameAt(x, f, count, k);
    var i := x[k];
    var bottom: nat :| Climb(bottom, i.count, count) == f.pos;
    FetchAt(m, x, f.pc - 1, |f.stack|, k);
    ClimbLast(bottom, i.count, count - 1);
    assert InstrOk(x, slots, k);
    if count > 1 {
      var g := f.(kind := GreedyState(count - 1), pos := f.pos - i.count);
      assert GreedyFrameAt(x, g, count - 1, k);
    }
  }

  /** Every step keeps the invariant; in particular no step underflows the stack,
      leaves the program, or writes a slot that does not exist. */
  lemma StepSound(m: Machine, x: Code, slots: nat, c: Config)
    requires Loaded(m, x, slots) && Sound(x, slots, |m.s|, c)
    ensures Sound(x, slots, |m.s|, Step(m, c))
  {
    hide CodeAt, Boundary, Sized, Balanced;
    match c
    case Run(_, _, _, _, _) => RunOk(m, x, slots, c);
    case Backtrack(saved) => PopOk(m, x, slots, saved);
    case _ =>
  }

  lemma {:induction false} StepsSound(m: Machine, x: Code, slots: nat, c: Config, n: nat)
    requires Loaded(m, x, slots) && Sound(x, slots, |m.s|, c)
    ensures Sound(x, slots, |m.s|, Steps(m, c, n))
    decreases n
  {
    hide Loaded, Step, Sound;
    if n > 0 {
      StepSound(m, x, slots, c);
      StepsSound(m, x, slots, Step(m, c), n - 1);
    }
  }

  // ----- The depth the compiler stores -----

  /** The largest depth of the scan. */
  function MaxDepth(f: Code): nat {
    if f == [] then 0 else Max(0, Effect(f[0]) + MaxDepth(f[1..]))
  }

  lemma {:induction false} DepthBound(f: Code, k: nat)
    requires k <= |f|
    ensures Net(f[..k]) <= MaxDepth(f)
    decreases k
  {
    if k > 0 {
      assert f[..k][1..] == f[1..][..k - 1];
      DepthBound(f[1..], k - 1);
    }
  }

  lemma {:induction false} DepthSnoc(f: Code, i: Instr)
    ensures MaxDepth(f + [i]) == Max(MaxDepth(f), Net(f) + Effect(i))
    decreases |f|
  {
    if f == [] {
      assert f + [i] == [i] && [i][1..] == [];
    } else {
      assert (f + [i])[1..] == f[1..] + [i];
      DepthSnoc(f[1..], i);
    }
  }

  function Start(r: Re, i: int): Config {
    Run(0, i, [], NullCaps(Groups(r)), Nil)
  }

  /** In every configuration of every run, also one restored from a saved state, the
      machine is not stuck and its stack is within the size the compiler stores. */
  lemma StackDiscipline(m: Machine, r: Re, i: nat, n: nat)
    requires CodeAt(m.fetch, 0, Program(r)) && Sized(m) && i <= |m.s|
    ensures var c := Steps(m, Start(r, i), n);
            Sound(Body0(r), 2 * Groups(r) + 2, |m.s|, c) && c != Stuck &&
            (c.Run? ==> |c.stack| <= MaxDepth(Program(r)))
  {
    hide CodeAt, Sized, Program, Body0, MaxDepth, Boundary;
    ProgramBalanced(r);
    var x := Body0(r);
    WholeBoundary(x);
    assert Sound(x, 2 * Groups(r) + 2, |m.s|, Start(r, i));
    StepsSound(m, x, 2 * Groups(r) + 2, Start(r, i), n);
    var c := Steps(m, Start(r, i), n);
    if c.Run? {
      var k := WhichInstr(x, c.pc, |c.stack|);
      assert x[..k] == (x + [IMatch])[..k];
      DepthBound(x + [IMatch], k);
    }
  }
}
