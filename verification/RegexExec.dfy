/** The matcher itself: arrays updated in place, a growing stack of saved states. */
module RegexExec {
  import opened Basics
  import opened RegexSyntax
  import opened RegexOutcomes
  import opened RegexClass
  import opened RegexCode
  import opened RegexGen
  import opened RegexVM
  import opened RegexGreedy
  import opened RegexSim
  import opened RegexSearch
  import opened RegexEncode
  import opened RegexStack
  import opened RegexInvariant
  import opened RegexFate
  import opened RegexHalts
  import opened RegexDiverge
  import opened RegexProgram
  import opened RegexDerivations

  datatype Mode = Running | Failing | Matching

  function SavedOf(states: seq<Frame>): Saved {
    if states == [] then Nil else Push(states[|states| - 1], SavedOf(states[..|states| - 1]))
  }

  /** A test of one character. */
  method TestChar(i: Instr, c: int) returns (ok: bool)
    requires IsTest(i)
    ensures ok == Accepts(i, c)
  {
    match i
    case IChar(v) => ok := v == c;
    case IChar32(v) => ok := v == c;
    case IDot => ok := !IsLineTerminator(c);
    case IAny => ok := true;
    case IRange(wide, pairs) =>
      if |pairs| == 0 {
        ok := false;
      } else {
        ok := SearchRange(pairs, wide, c);
      }
  }

  method TestPosition(i: Instr, s: seq<byte>, pos: int) returns (ok: bool)
    requires IsAssertion(i) && 0 <= pos <= |s|
    ensures ok == Holds(i, s, pos)
  {
    match i
    case ILineStart => ok := pos == 0;
    case ILineEnd => ok := pos == |s|;
    case IWord(negated) =>
      var v1, v2 := false, false;
      if pos > 0 {
        v1 := IsWordChar(s[pos - 1]);
      }
      if pos < |s| {
        v2 := IsWordChar(s[pos]);
      }
      ok := (v1 != v2) != negated;
  }

  /** The run without saved states that a greedy quantifier makes for each iteration. */
  method RunAtom(code: seq<byte>, s: seq<byte>, start: int, from: int) returns (res: Option<int>)
    requires 0 <= from <= |s| && AtomRun(MachineFor(code, s), start, from) != AtomStuck
    ensures AtomRun(MachineFor(code, s), start, from) == match res case None => AtomFail case Some(end) => AtomEnd(end)
  {
    hide Decode, Accepts, Holds;
    ghost var m := MachineFor(code, s);
    var pc, pos := start, from;
    while true
      invariant AtomRun(m, pc, pos) == AtomRun(m, start, from) && 0 <= pos <= |s|
      decreases |code| - pc
    {
      var i := Decode(code, pc).value;
      if i.IMatch? {
        return Some(pos);
      } else if IsTest(i) {
        if pos >= |s| {
          return None;
        }
        var ok := TestChar(i, s[pos]);
        if !ok {
          return None;
        }
        pos := pos + 1;
      } else {
        var ok := TestPosition(i, s, pos);
        if !ok {
          return None;
        }
      }
      pc := pc + Size(i);
    }
  }

  /** Iterates the atom at `pc` as often as it goes, up to `max` times. */
  method Iterate(code: seq<byte>, s: seq<byte>, pc: int, from: int, max: nat) returns (q: nat, end: int)
    requires 0 <= from <= |s| && GreedyRun(AtomRunner(MachineFor(code, s), pc), |s|, from, 0, max).Some?
    ensures GreedyRun(AtomRunner(MachineFor(code, s), pc), |s|, from, 0, max) == Some((q, end))
  {
    hide AtomRun;
    ghost var run := AtomRunner(MachineFor(code, s), pc);
    q, end := 0, from;
    while true
      invariant 0 <= end <= |s| && GreedyRun(run, |s|, end, q, max) == GreedyRun(run, |s|, from, 0, max)
      decreases |s| - end
    {
      assert run(end) == AtomRun(MachineFor(code, s), pc, end);
      var res := RunAtom(code, s, pc, end);
      if res == None {
        return;
      }
      end := res.value;
      q := q + 1;
      if q >= max && max != INFINITE {
        return;
      }
    }
  }

  class Executor {
    const code: seq<byte>
    const s: seq<byte>
    const stack: array<int>
    const capture: array<int>
    var pc: int
    var cptr: int
    var stackLen: nat
    var states: seq<Frame>
    var mode: Mode

    ghost predicate Valid()
      reads this
    {
      stack != capture && stackLen <= stack.Length && (mode.Running? ==> 0 <= cptr <= |s|)
    }

    /** The configuration of the abstract machine that the fields stand for. */
    ghost function Abs(): Config
      requires Valid()
      reads this, stack, capture
    {
      match mode
      case Running => Run(pc, cptr, stack[..stackLen], capture[..], SavedOf(states))
      case Failing => Backtrack(SavedOf(states))
      case Matching => Unwind(capture[..], SavedOf(states))
    }

    /** A configuration the arrays have room for. */
    ghost predicate Fits(c: Config)
    {
      match c
      case Run(_, pos, st, caps, _) => |st| <= stack.Length && |caps| == capture.Length && 0 <= pos <= |s|
      case Backtrack(_) => true
      case Unwind(caps, _) => |caps| == capture.Length
      case Done(_) => true
      case Stuck => false
    }

    constructor (captureCount: nat, stackSize: nat, code: seq<byte>, s: seq<byte>, from: nat)
      requires from <= |s|
      ensures fresh(stack) && fresh(capture) && this.code == code && this.s == s
      ensures stack.Length == stackSize && capture.Length == 2 * captureCount
      ensures Valid() && Abs() == Run(0, from, [], seq(2 * captureCount, _ => -1), Nil)
    {
      this.code, this.s := code, s;
      stack := new int[stackSize];
      capture := new int[2 * captureCount](_ => -1);
      pc, cptr, stackLen, states, mode := 0, from, 0, [], Running;
      new;
      assert capture[..] == seq(2 * captureCount, _ => -1);
    }

    method PushState(at: int, kind: Kind)
      requires Valid()
      modifies this`states
      ensures states == old(states) + [Frame(kind, at, cptr, stack[..stackLen], capture[..])]
      ensures SavedOf(states) == Push(Frame(kind, at, cptr, stack[..stackLen], capture[..]), SavedOf(old(states)))
    {
      states := states + [Frame(kind, at, cptr, stack[..stackLen], capture[..])];
      assert states[..|states| - 1] == old(states);
    }

    method ExecTest(i: Instr)
      requires Valid() && mode.Running? && (IsTest(i) || IsAssertion(i))
      requires Fits(Exec(MachineFor(code, s), i, pc, cptr, stack[..stackLen], capture[..], SavedOf(states)))
      modifies this, stack, capture
      ensures Valid() && Abs() == old(Exec(MachineFor(code, s), i, pc, cptr, stack[..stackLen], capture[..], SavedOf(states)))
    {
      hide Accepts, Holds, SavedOf;
      if IsTest(i) {
        if cptr >= |s| {
          mode := Failing;
          return;
        }
        var ok := TestChar(i, s[cptr]);
        if !ok {
          mode := Failing;
          return;
        }
        cptr := cptr + 1;
      } else {
        var ok := TestPosition(i, s, cptr);
        if !ok {
          mode := Failing;
          return;
        }
      }
      pc := pc + Size(i);
    }

    method ExecControl(i: Instr)
      requires Valid() && mode.Running? && (i.IGoto? || i.ISplit? || i.ILook? || i.IMatch?)
      requires Fits(Exec(MachineFor(code, s), i, pc, cptr, stack[..stackLen], capture[..], SavedOf(states)))
      modifies this, stack, capture
      ensures Valid() && Abs() == old(Exec(MachineFor(code, s), i, pc, cptr, stack[..stackLen], capture[..], SavedOf(states)))
    {
      hide SavedOf;
      pc := pc + Size(i);
      match i
      case IGoto(off) => pc := pc + off;
      case ISplit(nextFirst, off) =>
        if nextFirst {
          PushState(pc + off, SplitState);
        } else {
          PushState(pc, SplitState);
          pc := pc + off;
        }
      case ILook(negated, off) => PushState(pc + off, LookState(negated));
      case IMatch => mode := Matching;
    }

    method ExecCapture(i: Instr)
      requires Valid() && mode.Running? && (i.ISave? || i.ISaveReset?)
      requires Fits(Exec(MachineFor(code, s), i, pc, cptr, stack[..stackLen], capture[..], SavedOf(states)))
      modifies this, stack, capture
      ensures Valid() && Abs() == old(Exec(MachineFor(code, s), i, pc, cptr, stack[..stackLen], capture[..], SavedOf(states)))
    {
      hide SavedOf;
      pc := pc + Size(i);
      match i
      case ISave(end, slot) => capture[if end then 2 * slot + 1 else 2 * slot] := cptr;
      case ISaveReset(lo, hi) =>
        var g := lo;
        while g <= hi
          invariant lo <= g <= Max(lo, hi + 1)
          invariant forall k :: 0 <= k < capture.Length ==>
                      capture[k] == if 2 * lo <= k < 2 * g then -1 else old(capture[k])
          modifies capture
        {
          capture[2 * g] := -1;
          capture[2 * g + 1] := -1;
          g := g + 1;
        }
        assert capture[..] == ResetCaps(old(capture[..]), lo, hi);
    }

    method ExecStack(i: Instr)
      requires Valid() && mode.Running? && (i.IPush? || i.IDrop? || i.IPushPos?)
      requires Fits(Exec(MachineFor(code, s), i, pc, cptr, stack[..stackLen], capture[..], SavedOf(states)))
      modifies this, stack, capture
      ensures Valid() && Abs() == old(Exec(MachineFor(code, s), i, pc, cptr, stack[..stackLen], capture[..], SavedOf(states)))
    {
      hide SavedOf;
      pc := pc + Size(i);
      match i
      case IPush(v) =>
        stack[stackLen] := v;
        stackLen := stackLen + 1;
      case IDrop => stackLen := stackLen - 1;
      case IPushPos =>
        stack[stackLen] := cptr;
        stackLen := stackLen + 1;
    }

    method ExecLoop(i: Instr)
      requires Valid() && mode.Running? && (i.ILoop? || i.IBnePos?)
      requires Fits(Exec(MachineFor(code, s), i, pc, cptr, stack[..stackLen], capture[..], SavedOf(states)))
      modifies this, stack, capture
      ensures Valid() && Abs() == old(Exec(MachineFor(code, s), i, pc, cptr, stack[..stackLen], capture[..], SavedOf(states)))
    {
      hide SavedOf;
      pc := pc + Size(i);
      match i
      case ILoop(off) =>
        stack[stackLen - 1] := (stack[stackLen - 1] - 1) % TWO64;
        if stack[stackLen - 1] != 0 {
          pc := pc + off;
        }
      case IBnePos(off) =>
        stackLen := stackLen - 1;
        if stack[stackLen] != cptr {
          pc := pc + off;
        }
    }

    method ExecGreedy(i: Instr)
      requires Valid() && mode.Running? && i.IGreedy?
      requires Fits(Exec(MachineFor(code, s), i, pc, cptr, stack[..stackLen], capture[..], SavedOf(states)))
      modifies this, stack, capture
      ensures Valid() && Abs() == old(Exec(MachineFor(code, s), i, pc, cptr, stack[..stackLen], capture[..], SavedOf(states)))
    {
      hide SavedOf, GreedyRun, AtomRun;
      var next := pc + Size(i);
      var q, end := Iterate(code, s, next, cptr, i.max);
      cptr := end;
      if q < i.min {
        mode := Failing;
        return;
      }
      if q > i.min {
        PushState(pc + 1, GreedyState(q - i.min));
      }
      pc := next + i.off;
    }

    /** One instruction. */
    method ExecOne()
      requires Valid() && mode.Running? && Fits(Step(MachineFor(code, s), Abs()))
      modifies this, stack, capture
      ensures Valid() && Abs() == Step(MachineFor(code, s), old(Abs()))
    {
      hide Exec, Decode;
      var i := Decode(code, pc).value;
      if IsTest(i) || IsAssertion(i) {
        ExecTest(i);
      } else if i.IGoto? || i.ISplit? || i.ILook? || i.IMatch? {
        ExecControl(i);
      } else if i.ISave? || i.ISaveReset? {
        ExecCapture(i);
      } else if i.IGreedy? {
        ExecGreedy(i);
      } else if i.ILoop? || i.IBnePos? {
        ExecLoop(i);
      } else {
        ExecStack(i);
      }
    }

    /** Copies a saved state back; the captures only when `captures` says so. */
    method Restore(f: Frame, captures: bool)
      requires Valid() && |f.stack| <= stack.Length && (captures ==> |f.caps| == capture.Length) && 0 <= f.pos <= |s|
      modifies this`pc, this`cptr, this`stackLen, this`mode, stack, capture
      ensures Valid() && mode == Running && pc == f.pc && cptr == f.pos && stack[..stackLen] == f.stack
      ensures capture[..] == if captures then f.caps else old(capture[..])
    {
      assert !captures ==> capture[..] == old(capture[..]);
      if captures {
        forall k | 0 <= k < capture.Length {
          capture[k] := f.caps[k];
        }
        assert capture[..] == f.caps;
      }
      pc, cptr, stackLen, mode := f.pc, f.pos, |f.stack|, Running;
      forall k | 0 <= k < stackLen {
        stack[k] := f.stack[k];
      }
    }

    /** One round of the pop loop. */
    method PopOne()
      requires Valid() && !mode.Running? && states != [] && Fits(Step(MachineFor(code, s), Abs()))
      modifies this, stack, capture
      ensures Valid() && Abs() == Step(MachineFor(code, s), old(Abs()))
    {
      hide Decode;
      var f := states[|states| - 1];
      states := states[..|states| - 1];
      match f.kind
      case SplitState =>
        if mode.Failing? {
          Restore(f, true);
        }
      case GreedyState(count) =>
        if mode.Failing? {
          var i := Decode(code, f.pc - 1).value;
          var pos := f.pos - i.count;
          if count > 1 {
            states := states + [f.(kind := GreedyState(count - 1), pos := pos)];
            assert states[..|states| - 1] == old(states)[..|old(states)| - 1];
          }
          Restore(f.(pc := f.pc + 16 + i.off, pos := pos), true);
        }
      case LookState(negated) =>
        if mode.Matching? != negated {
          Restore(f, negated);
        } else {
          mode := Failing;
        }
    }
  }

  lemma {:induction false} StepsOne(m: Machine, c: Config, k: nat)
    ensures Steps(m, c, k + 1) == Step(m, Steps(m, c, k))
  {
    hide Step;
    StepsAdd(m, c, k, 1);
    assert Steps(m, Steps(m, c, k), 1) == Steps(m, Step(m, Steps(m, c, k)), 0);
  }

  lemma NotYet(m: Machine, c: Config, k: nat, n: nat)
    requires Steps(m, c, n).Done? && !Steps(m, c, k).Done?
    ensures k < n
  {
    if k >= n { NotDoneBefore(m, c, n, k); }
  }

  /** The arrays of an executor are large enough for every configuration of the run. */
  lemma RunFits(e: Executor, m: Machine, r: Re, from: nat, k: nat)
    requires CodeAt(m.fetch, 0, Program(r)) && Sized(m) && from <= |m.s| && m.s == e.s
    requires e.stack.Length == MaxDepth(Program(r)) && e.capture.Length == 2 * Groups(r) + 2
    ensures e.Fits(Steps(m, Start(r, from), k))
  {
    hide CodeAt, Sized, MaxDepth, Program, Boundary, SavedOk, Steps, Start, Groups, Body0;
    StackDiscipline(m, r, from, k);
    SoundFits(e, Body0(r), Steps(m, Start(r, from), k));
  }

  lemma SoundFits(e: Executor, x: Code, c: Config)
    requires Sound(x, e.capture.Length, |e.s|, c) && (c.Run? ==> |c.stack| <= e.stack.Length)
    ensures e.Fits(c)
  {
    hide Boundary, SavedOk;
  }

  lemma HeaderFields(r: Re)
    requires Accepted(r)
    ensures |Image(r)| >= 7 && Image(r)[1] == Groups(r) + 1 && Image(r)[2] == MaxDepth(Program(r))
    ensures Image(r)[7..] == Bytes(Program(r))
  {
    hide MaxDepth, Program, Bytes, U32Bytes;
  }

  /** The run of a pattern over a line ends. */
  ghost predicate Halts(r: Re, s: seq<byte>, from: nat) {
    exists n: nat :: Steps(MachineFor(Bytes(Program(r)), s), Start(r, from), n).Done?
  }

  /** It does if no lazy loop can match the empty string on the line. */
  lemma AdvancingHalts(r: Re, s: seq<byte>, from: nat)
    requires Compilable(r) && from <= |s| && LazyLoopsAdvance(r, s)
    ensures Halts(r, s, from)
  {
    hide Steps, Search, Program, CodeAt, Sized, LazyLoopsAdvance, Bytes;
    var m := MachineFor(Bytes(Program(r)), s);
    ProgramFetched(r, Bytes(Program(r)), s);
    RunSearches(m, r, from);
    var n: nat :| Steps(m, Start(r, from), n) == Done(Search(m.s, m.rounds, r, from));
  }

  /** It does exactly when running for ever is not the fate of the search, and then with the
      captures of its fate. */
  lemma HaltsExactly(r: Re, s: seq<byte>, from: nat)
    requires Compilable(r) && from <= |s|
    ensures Halts(r, s, from) <==> SearchFate(s, r, from) != Forever
    ensures forall n: nat :: var c := Steps(MachineFor(Bytes(Program(r)), s), Start(r, from), n);
              c.Done? ==> c.result == ResultOf(SearchFate(s, r, from))
  {
    hide Step, Program, CodeAt, Sized, Bytes, SearchFate;
    var m, c, f := MachineFor(Bytes(Program(r)), s), Start(r, from), SearchFate(s, r, from);
    ProgramFetched(r, Bytes(Program(r)), s);
    RunHalts(m, r, from);
    forall n: nat | Steps(m, c, n).Done? ensures Steps(m, c, n).result == ResultOf(f) {
      assert f != Forever;
      var k: nat :| Steps(m, c, k) == Done(ResultOf(f));
      OneEnd(m, c, k, n);
    }
  }

  /** Runs a compiled pattern over a line on which its fate is not to run for ever: a match
      from the leftmost start that has one, the first in order there, or none. */
  method Execute(image: seq<byte>, s: seq<byte>, from: nat, ghost r: Re) returns (result: Option<seq<int>>)
    requires Compilable(r) && Accepted(r) && image == Image(r) && from <= |s| && SearchFate(s, r, from) != Forever
    ensures Answer(r, s, from, result) && FirstFound(r, s, from, result) && Preferred(s, r, from, result)
    ensures result == ResultOf(SearchFate(s, r, from))
  {
    hide Preferred, Program, MaxDepth, Bytes, Image, Answer, FirstFound, Step, CodeAt, Sized, Steps, SearchFate;
    HeaderFields(r);
    HaltsExactly(r, s, from);
    SearchPreferred(s, r, from);
    var captureCount: int := image[1];
    var e := new Executor(captureCount, image[2], image[7..], s, from);
    ghost var m := MachineFor(e.code, s);
    ProgramFetched(r, e.code, s);
    assert NullCaps(Groups(r)) == seq(2 * captureCount, _ => -1);
    assert e.Abs() == Start(r, from);
    ghost var n: nat :| Steps(m, Start(r, from), n).Done?;
    ghost var k: nat := 0;
    ghost var start := Start(r, from);
    NoSteps0(m, start);
    while e.mode.Running? || e.states != []
      invariant e.Valid() && fresh(e) && fresh(e.stack) && fresh(e.capture) && e.Abs() == Steps(m, start, k)
      decreases n - k
    {
      StepsOne(m, start, k);
      RunFits(e, m, r, from, k + 1);
      NotYet(m, start, k, n);
      if e.mode.Running? {
        e.ExecOne();
      } else {
        e.PopOne();
      }
      k := k + 1;
    }
    StepsOne(m, start, k);
    result := if e.mode.Matching? then Some(e.capture[..]) else None;
    PopsToDone(m, e.Abs());
    HaltedRunAnswers(m, r, from, k + 1);
  }

  lemma NoSteps0(m: Machine, c: Config)
    ensures Steps(m, c, 0) == c
  {
  }

  lemma PopsToDone(m: Machine, c: Config)
    ensures c == Backtrack(Nil) ==> Step(m, c) == Done(None)
    ensures c.Unwind? && c.saved == Nil ==> Step(m, c) == Done(Some(c.caps))
  {
  }
}
