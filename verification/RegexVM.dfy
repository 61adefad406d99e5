/** The backtracking machine as a step function on configurations. */
module RegexVM {
  import opened Basics
  import opened RegexSyntax
  import opened RegexOutcomes
  import opened RegexCode
  import opened RegexGen

  /** The fetch function of a program of `size` bytes, and the subject.  The last two say how
      far a run is looked at: how many rounds of a lazy loop, and, if only runs that end soon
      matter, for how many steps. */
  datatype Machine = Machine(fetch: Fetch, size: nat, s: seq<byte>, rounds: nat, fuel: Option<nat>)

  datatype Kind = SplitState | LookState(negated: bool) | GreedyState(count: nat)

  /** A saved state.  A greedy state keeps the address of its operands. */
  datatype Frame = Frame(kind: Kind, pc: int, pos: int, stack: seq<int>, caps: seq<int>)

  /** The state stack, newest state first. */
  datatype Saved = Nil | Push(top: Frame, below: Saved)

  /** `Backtrack` and `Unwind` are the two ways into the pop loop: with no match
      and with a match. */
  datatype Config =
    | Run(pc: int, pos: int, stack: seq<int>, caps: seq<int>, saved: Saved)
    | Backtrack(saved: Saved)
    | Unwind(caps: seq<int>, saved: Saved)
    | Done(result: Option<seq<int>>)
    | Stuck

  const TWO64: int := 0x1_0000_0000_0000_0000

  function Step(m: Machine, c: Config): Config {
    match c
    case Run(pc, pos, stack, caps, saved) => (
      match m.fetch(pc)
      case None => Stuck
      case Some(i) => Exec(m, i, pc, pos, stack, caps, saved)
    )
    case Backtrack(saved) => PopFailed(m, saved)
    case Unwind(caps, saved) => PopMatched(caps, saved)
    case Done(_) => c
    case Stuck => Stuck
  }

  function Exec(m: Machine, i: Instr, pc: int, pos: int, stack: seq<int>, caps: seq<int>, saved: Saved): Config {
    var next := pc + Size(i);
    if IsTest(i) then
      if 0 <= pos < |m.s| && Accepts(i, m.s[pos]) then Run(next, pos + 1, stack, caps, saved) else Backtrack(saved)
    else if IsAssertion(i) then
      if Holds(i, m.s, pos) then Run(next, pos, stack, caps, saved) else Backtrack(saved)
    else
      match i
      case IGoto(off) => Run(next + off, pos, stack, caps, saved)
      case ISplit(nextFirst, off) =>
        var (now, later) := if nextFirst then (next, next + off) else (next + off, next);
        Run(now, pos, stack, caps, Push(Frame(SplitState, later, pos, stack, caps), saved))
      case IMatch => Unwind(caps, saved)
      case ISave(end, g) =>
        if 2 * g + 1 < |caps| then Run(next, pos, stack, SetCap(caps, if end then 2 * g + 1 else 2 * g, pos), saved)
        else Stuck
      case ISaveReset(lo, hi) =>
        if 2 * hi + 1 < |caps| then Run(next, pos, stack, ResetCaps(caps, lo, hi), saved) else Stuck
      case ILoop(off) =>
        if stack == [] then Stuck
        else
          var v := (stack[|stack| - 1] - 1) % TWO64;
          Run(if v != 0 then next + off else next, pos, stack[|stack| - 1 := v], caps, saved)
      case IPush(v) => Run(next, pos, stack + [v], caps, saved)
      case IDrop => if stack == [] then Stuck else Run(next, pos, stack[..|stack| - 1], caps, saved)
      case ILook(negated, off) =>
        Run(next, pos, stack, caps, Push(Frame(LookState(negated), next + off, pos, stack, caps), saved))
      case IPushPos => Run(next, pos, stack + [pos], caps, saved)
      case IBnePos(off) =>
        if stack == [] then Stuck
        else Run(if stack[|stack| - 1] != pos then next + off else next, pos, stack[..|stack| - 1], caps, saved)
      case IGreedy(off, min, max, _) => (
        match GreedyRun(AtomRunner(m, next), |m.s|, pos, 0, max)
        case None => Stuck
        case Some((q, end)) =>
          if q < min then Backtrack(saved)
          else Run(next + off, end, stack, caps,
                   if q > min then Push(Frame(GreedyState(q - min), pc + 1, end, stack, caps), saved) else saved)
      )
  }

  /** One iteration of the pop loop with ret == 0. */
  function PopFailed(m: Machine, saved: Saved): Config {
    match saved
    case Nil => Done(None)
    case Push(f, below) =>
      match f.kind
      case SplitState => Run(f.pc, f.pos, f.stack, f.caps, below)
      case LookState(negated) => if negated then Run(f.pc, f.pos, f.stack, f.caps, below) else Backtrack(below)
      case GreedyState(count) =>
        match m.fetch(f.pc - 1)
        case Some(IGreedy(off, _, _, chars)) =>
          var pos := f.pos - chars;
          if count == 0 || pos < 0 then Stuck
          else Run(f.pc + 16 + off, pos, f.stack, f.caps,
                   if count == 1 then below else Push(f.(kind := GreedyState(count - 1), pos := pos), below))
        case _ => Stuck
  }

  /** One iteration of the pop loop with ret == 1. */
  function PopMatched(caps: seq<int>, saved: Saved): Config {
    match saved
    case Nil => Done(Some(caps))
    case Push(f, below) =>
      match f.kind
      case LookState(negated) =>
        if negated then Backtrack(below) else Run(f.pc, f.pos, f.stack, caps, below)
      case _ => Unwind(caps, below)
  }

  datatype AtomResult = AtomStuck | AtomFail | AtomEnd(pos: int)

  /** The recursive run without saved states: straight-line code up to its match. */
  function AtomRun(m: Machine, pc: int, pos: int): AtomResult
    decreases m.size - pc
  {
    if pc >= m.size then AtomStuck
    else
      match m.fetch(pc)
      case None => AtomStuck
      case Some(i) =>
        if i.IMatch? then AtomEnd(pos)
        else if IsTest(i) then
          if 0 <= pos < |m.s| && Accepts(i, m.s[pos]) then AtomRun(m, pc + Size(i), pos + 1) else AtomFail
        else if IsAssertion(i) then
          if Holds(i, m.s, pos) then AtomRun(m, pc + Size(i), pos) else AtomFail
        else AtomStuck
  }

  function AtomRunner(m: Machine, pc: int): int -> AtomResult {
    pos => AtomRun(m, pc, pos)
  }

  /** The loop of `simple_greedy_quant` over a subject of `len` characters: the
      iterations done and where they end.  An iteration that does not advance
      would never end and is not modelled. */
  function GreedyRun(run: int -> AtomResult, len: nat, pos: int, q: nat, max: nat): Option<(nat, int)>
    decreases len - pos
  {
    match run(pos)
    case AtomStuck => None
    case AtomFail => Some((q, pos))
    case AtomEnd(end) =>
      if !(pos < end <= len) then None
      else if q + 1 >= max && max != INFINITE then Some((q + 1, end))
      else GreedyRun(run, len, end, q + 1, max)
  }

  // ----- Runs -----

  function Steps(m: Machine, c: Config, n: nat): Config
    decreases n
  {
    if n == 0 then c else Steps(m, Step(m, c), n - 1)
  }

  ghost predicate Reaches(m: Machine, c: Config, d: Config) {
    exists n: nat :: Steps(m, c, n) == d
  }

  lemma {:induction false} StepsAdd(m: Machine, c: Config, a: nat, b: nat)
    ensures Steps(m, c, a + b) == Steps(m, Steps(m, c, a), b)
    decreases a
  {
    if a > 0 {
      StepsAdd(m, Step(m, c), a - 1, b);
    }
  }

  lemma ReachSelf(m: Machine, c: Config)
    ensures Reaches(m, c, c)
  {
    assert Steps(m, c, 0) == c;
  }

  lemma ReachStep(m: Machine, c: Config, d: Config)
    requires Reaches(m, Step(m, c), d)
    ensures Reaches(m, c, d)
  {
    var n: nat :| Steps(m, Step(m, c), n) == d;
    assert Steps(m, c, n + 1) == d;
  }

  lemma ReachTrans(m: Machine, c: Config, d: Config, e: Config)
    requires Reaches(m, c, d) && Reaches(m, d, e)
    ensures Reaches(m, c, e)
  {
    var a: nat :| Steps(m, c, a) == d;
    var b: nat :| Steps(m, d, b) == e;
    StepsAdd(m, c, a, b);
  }

  /** A configuration that has halted stays so. */
  lemma {:induction false} DoneStays(m: Machine, d: Config, n: nat)
    requires d.Done?
    ensures Steps(m, d, n) == d
    decreases n
  {
    if n > 0 { DoneStays(m, d, n - 1); }
  }

  /** Before a configuration that is not final there is none that is. */
  lemma NotDoneBefore(m: Machine, c: Config, n: nat, k: nat)
    requires n <= k && !Steps(m, c, k).Done?
    ensures !Steps(m, c, n).Done?
  {
    StepsAdd(m, c, n, k - n);
    if Steps(m, c, n).Done? { DoneStays(m, Steps(m, c, n), k - n); }
  }

  /** A run halts in one configuration only. */
  lemma OneEnd(m: Machine, c: Config, k: nat, n: nat)
    requires Steps(m, c, k).Done? && Steps(m, c, n).Done?
    ensures Steps(m, c, k) == Steps(m, c, n)
  {
    if k <= n {
      StepsAdd(m, c, k, n - k);
      DoneStays(m, Steps(m, c, k), n - k);
    } else {
      StepsAdd(m, c, n, k - n);
      DoneStays(m, Steps(m, c, n), k - n);
    }
  }

  // ----- Runs do not depend on how far they are looked at -----

  ghost predicate SameProgram(m: Machine, w: Machine) {
    m.fetch == w.fetch && m.size == w.size && m.s == w.s
  }

  lemma {:induction false} SameAtom(m: Machine, w: Machine, pc: int, pos: int)
    requires SameProgram(m, w)
    ensures AtomRun(m, pc, pos) == AtomRun(w, pc, pos)
    decreases m.size - pc
  {
    if pc < m.size && m.fetch(pc).Some? {
      var i := m.fetch(pc).value;
      SameAtom(m, w, pc + Size(i), pos + 1);
      SameAtom(m, w, pc + Size(i), pos);
    }
  }

  lemma {:induction false} SameGreedyRun(run: int -> AtomResult, other: int -> AtomResult, len: nat, pos: int, q: nat, max: nat)
    requires forall p :: run(p) == other(p)
    ensures GreedyRun(run, len, pos, q, max) == GreedyRun(other, len, pos, q, max)
    decreases len - pos
  {
    match run(pos)
    case AtomEnd(end) => if pos < end <= len { SameGreedyRun(run, other, len, end, q + 1, max); }
    case _ =>
  }

  lemma SameStep(m: Machine, w: Machine, c: Config)
    requires SameProgram(m, w)
    ensures Step(m, c) == Step(w, c)
  {
    hide AtomRun, GreedyRun;
    if c.Run? && m.fetch(c.pc).Some? && m.fetch(c.pc).value.IGreedy? {
      var i := m.fetch(c.pc).value;
      var run, other := AtomRunner(m, c.pc + Size(i)), AtomRunner(w, c.pc + Size(i));
      forall p ensures run(p) == other(p) { SameAtom(m, w, c.pc + Size(i), p); }
      SameGreedyRun(run, other, |m.s|, c.pos, 0, i.max);
    }
  }

  lemma {:induction false} SameRun(m: Machine, w: Machine, c: Config, n: nat)
    requires SameProgram(m, w)
    ensures Steps(m, c, n) == Steps(w, c, n)
    decreases n
  {
    hide Step;
    if n > 0 {
      SameStep(m, w, c);
      SameRun(m, w, Step(m, c), n - 1);
    }
  }
}
