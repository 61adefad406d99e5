/** Run-length tables of code-point properties and the block index over them. */
module UnicodeTables {
  import opened Basics
  import opened Intervals
  import opened CharRanges

  const INDEX_BLOCK_LEN: int := 32
  const CODE_LIMIT: int := 0x20_0000

  /** Where a decoder stands: next byte, first code point not yet covered, and
      whether the next run is inside the set. */
  datatype State = State(pos: nat, code: nat, bit: bool)

  /** Bytes of the group that starts with `b`. */
  function GroupSize(b: byte): nat {
    if b < 64 || b >= 0x80 then 1 else if b < 0x60 then 2 else 3
  }

  /** All groups are complete. */
  predicate Complete(t: seq<byte>, pos: nat)
    decreases |t| - pos
  {
    pos < |t| ==> pos + GroupSize(t[pos]) <= |t| && Complete(t, pos + GroupSize(t[pos]))
  }

  /** Code points in the group: its only run, or the first of two. */
  function FirstRun(t: seq<byte>, pos: nat): (n: nat)
    requires pos < |t| && pos + GroupSize(t[pos]) <= |t|
    ensures n > 0
  {
    var b: int := t[pos];
    if b < 64 then b / 8 + 1
    else if b >= 0x80 then b - 0x80 + 1
    else if b < 0x60 then
      var b1: int := t[pos + 1];
      (b - 0x40) * 256 + b1 + 1
    else
      var b1: int, b2: int := t[pos + 1], t[pos + 2];
      (b - 0x60) * 65536 + b1 * 256 + b2 + 1
  }

  /** Code points in the second run of the group, 0 when it has one run. */
  function SecondRun(t: seq<byte>, pos: nat): nat
    requires pos < |t|
  {
    var b: int := t[pos];
    if b < 64 then b % 8 + 1 else 0
  }

  function Next(t: seq<byte>, st: State): State
    requires st.pos < |t| && st.pos + GroupSize(t[st.pos]) <= |t|
  {
    State(st.pos + GroupSize(t[st.pos]), st.code + FirstRun(t, st.pos) + SecondRun(t, st.pos),
          if t[st.pos] < 64 then st.bit else !st.bit)
  }

  /** The simple decoder: the bit of `c`, or nothing behind the last run. */
  function Scan(t: seq<byte>, st: State, c: nat): Option<bool>
    requires Complete(t, st.pos)
    decreases |t| - st.pos
  {
    if st.pos >= |t| then None
    else if c < st.code + FirstRun(t, st.pos) then Some(st.bit)
    else if c < Next(t, st).code then Some(!st.bit)
    else Scan(t, Next(t, st), c)
  }

  const START: State := State(0, 0, false)

  /** `c` is in the set that `t` describes. */
  predicate Member(t: seq<byte>, c: nat)
    requires Complete(t, 0)
  {
    Scan(t, START, c) == Some(true)
  }

  /** The first code point behind the last run. */
  function EndCode(t: seq<byte>, st: State): (e: nat)
    requires Complete(t, st.pos)
    ensures e >= st.code
    decreases |t| - st.pos
  {
    if st.pos >= |t| then st.code else EndCode(t, Next(t, st))
  }

  /** Decoding from `st` passes through `goal`. */
  predicate Passes(t: seq<byte>, st: State, goal: State)
    requires Complete(t, st.pos)
    decreases |t| - st.pos
  {
    st == goal || (st.pos < |t| && Passes(t, Next(t, st), goal))
  }

  // ----- The decoder may start at any state it passes -----

  lemma {:induction false} PassesForward(t: seq<byte>, st: State, goal: State)
    requires Complete(t, st.pos) && Passes(t, st, goal)
    ensures Complete(t, goal.pos) && st.code <= goal.code && EndCode(t, st) == EndCode(t, goal)
    decreases |t| - st.pos
  {
    if st != goal { PassesForward(t, Next(t, st), goal); }
  }

  lemma {:induction false} ScanFrom(t: seq<byte>, st: State, goal: State, c: nat)
    requires Complete(t, st.pos) && Passes(t, st, goal) && Complete(t, goal.pos) && c >= goal.code
    ensures Scan(t, st, c) == Scan(t, goal, c)
    decreases |t| - st.pos
  {
    if st != goal {
      PassesForward(t, Next(t, st), goal);
      ScanFrom(t, Next(t, st), goal, c);
    }
  }

  lemma {:induction false} ScanEnd(t: seq<byte>, st: State, c: nat)
    requires Complete(t, st.pos) && c >= st.code
    ensures Scan(t, st, c) == None <==> c >= EndCode(t, st)
    decreases |t| - st.pos
  {
    if st.pos < |t| && c >= Next(t, st).code { ScanEnd(t, Next(t, st), c); }
  }

  // ----- What a table says -----

  /** A group of a table: two short runs in a byte, or one run in one, two or three bytes. */
  datatype Group = Pair(a: nat, b: nat) | Single(n: nat) | Double(n: nat) | Triple(n: nat)

  predicate GroupOk(g: Group) {
    match g
    case Pair(a, b) => 1 <= a <= 8 && 1 <= b <= 8
    case Single(n) => 1 <= n <= 128
    case Double(n) => 1 <= n <= 8192
    case Triple(n) => 1 <= n <= 2097152
  }

  predicate GroupsOk(gs: seq<Group>) {
    forall i :: 0 <= i < |gs| ==> GroupOk(gs[i])
  }

  /** The bytes of a group. */
  function Coded(g: Group): (t: seq<byte>)
    requires GroupOk(g)
    ensures t != []
  {
    match g
    case Pair(a, b) => [(a - 1) * 8 + (b - 1)]
    case Single(n) => [128 + (n - 1)]
    case Double(n) => [64 + (n - 1) / 256, (n - 1) % 256]
    case Triple(n) => [96 + (n - 1) / 65536, (n - 1) / 256 % 256, (n - 1) % 256]
  }

  function Coding(gs: seq<Group>): seq<byte>
    requires GroupsOk(gs)
  {
    if gs == [] then [] else Coded(gs[0]) + Coding(gs[1..])
  }

  /** The lengths of the runs, outside and inside the set in turn. */
  function RunsOf(gs: seq<Group>): seq<nat> {
    if gs == [] then []
    else (if gs[0].Pair? then [gs[0].a, gs[0].b] else [gs[0].n]) + RunsOf(gs[1..])
  }

  function Total(runs: seq<nat>): nat {
    if runs == [] then 0 else runs[0] + Total(runs[1..])
  }

  ghost predicate InRun(runs: seq<nat>, k: nat, c: nat) {
    k < |runs| && Total(runs[..k]) <= c < Total(runs[..k + 1])
  }

  /** `c` is in a run of odd index, counted from 0, the runs laid one behind the other from 0. */
  ghost predicate InOddRun(runs: seq<nat>, c: nat) {
    exists k: nat :: k % 2 == 1 && InRun(runs, k, c)
  }

  function BitAt(runs: seq<nat>, bit: bool, code: nat, c: nat): Option<bool> {
    if runs == [] then None else if c < code + runs[0] then Some(bit) else BitAt(runs[1..], !bit, code + runs[0], c)
  }

  lemma InLaterRun(runs: seq<nat>, k: nat, c: nat)
    requires runs != [] && c >= runs[0]
    ensures InRun(runs, k + 1, c) <==> InRun(runs[1..], k, c - runs[0])
    ensures !InRun(runs, 0, c)
  {
    if k + 1 < |runs| {
      assert runs[..k + 1][1..] == runs[1..][..k] && runs[..k + 2][1..] == runs[1..][..k + 1];
    }
    assert runs[..1][1..] == [];
  }

  ghost predicate Covers(runs: seq<nat>, bit: bool, c: nat, k: nat) {
    (k % 2 == 1) != bit && InRun(runs, k, c)
  }

  lemma {:induction false} BitAtRuns(runs: seq<nat>, bit: bool, code: nat, d: nat)
    ensures BitAt(runs, bit, code, code + d) == Some(true) <==> exists k: nat :: Covers(runs, bit, d, k)
    decreases |runs|
  {
    hide InRun;
    if runs == [] {
      forall k: nat ensures !Covers(runs, bit, d, k) { NoRun(k, d); }
    } else if d < runs[0] {
      FirstOnly(runs, d);
      if bit { assert Covers(runs, bit, d, 0); }
    } else {
      var rest, other, e := runs[1..], !bit, d - runs[0];
      BitAtRuns(rest, other, code + runs[0], e);
      if k: nat :| Covers(runs, bit, d, k) {
        InLaterRun(runs, if k > 0 then k - 1 else 0, d);
        assert Covers(rest, other, e, k - 1);
      }
      if k: nat :| Covers(rest, other, e, k) {
        InLaterRun(runs, k, d);
        assert Covers(runs, bit, d, k + 1);
      }
    }
  }

  lemma NoRun(k: nat, c: nat)
    ensures !InRun([], k, c)
  {
  }

  lemma FirstOnly(runs: seq<nat>, c: nat)
    requires runs != [] && c < runs[0]
    ensures InRun(runs, 0, c) && forall k: nat :: k > 0 ==> !InRun(runs, k, c)
  {
    assert runs[..1][1..] == [] && runs[..0] == [];
    forall k: nat | 0 < k < |runs| ensures Total(runs[..k]) >= runs[0] {}
  }

  /** The first group of a table. */
  lemma GroupRead(t: seq<byte>, pos: nat, g: Group, rest: seq<byte>)
    requires pos <= |t| && GroupOk(g) && t[pos..] == Coded(g) + rest
    ensures pos < |t| && GroupSize(t[pos]) == |Coded(g)| && t[pos + |Coded(g)|..] == rest && (t[pos] < 64 <==> g.Pair?)
    ensures FirstRun(t, pos) == (if g.Pair? then g.a else g.n) && SecondRun(t, pos) == if g.Pair? then g.b else 0
  {
    var u, code := t[pos..], Coded(g);
    assert u[0] == code[0] == t[pos] && t[pos + |code|..] == u[|code|..];
    match g
    case Pair(a, b) =>
    case Single(n) =>
    case Double(n) => assert u[1] == code[1] == t[pos + 1];
    case Triple(n) =>
      assert u[1] == code[1] == t[pos + 1] && u[2] == code[2] == t[pos + 2];
      var m := n - 1;
      assert m / 65536 == m / 256 / 256;
  }

  /** The decoder reads the runs. */
  lemma {:induction false} ScanRuns(t: seq<byte>, st: State, gs: seq<Group>, c: nat)
    requires GroupsOk(gs) && st.pos <= |t| && t[st.pos..] == Coding(gs)
    ensures Complete(t, st.pos) && Scan(t, st, c) == BitAt(RunsOf(gs), st.bit, st.code, c)
    decreases |gs|
  {
    hide FirstRun, SecondRun, GroupSize, Coded;
    if gs != [] {
      GroupRead(t, st.pos, gs[0], Coding(gs[1..]));
      ScanRuns(t, Next(t, st), gs[1..], c);
      var runs := RunsOf(gs);
      if gs[0].Pair? {
        assert runs[1..] == [gs[0].b] + RunsOf(gs[1..]) && runs[1..][1..] == RunsOf(gs[1..]);
      } else {
        assert runs[1..] == RunsOf(gs[1..]);
      }
    }
  }

  /** A table contains exactly the code points in its runs of odd index. */
  lemma MemberRuns(gs: seq<Group>, c: nat)
    requires GroupsOk(gs)
    ensures Complete(Coding(gs), 0) && (Member(Coding(gs), c) <==> InOddRun(RunsOf(gs), c))
  {
    hide Coding, RunsOf, Scan, BitAt, InRun, Complete;
    assert Coding(gs)[0..] == Coding(gs);
    ScanRuns(Coding(gs), START, gs, c);
    BitAtRuns(RunsOf(gs), false, 0, c);
    if k: nat :| k % 2 == 1 && InRun(RunsOf(gs), k, c) { assert Covers(RunsOf(gs), false, c, k); }
  }

  /** Every complete table is written in groups. */
  lemma {:induction false} TableGroups(t: seq<byte>, pos: nat) returns (gs: seq<Group>)
    requires Complete(t, pos) && pos <= |t|
    ensures GroupsOk(gs) && Coding(gs) == t[pos..]
    decreases |t| - pos
  {
    if pos == |t| {
      gs := [];
    } else {
      var rest := TableGroups(t, pos + GroupSize(t[pos]));
      var g := ReadGroup(t, pos);
      gs := [g] + rest;
      assert gs[1..] == rest;
      assert t[pos..] == t[pos..pos + GroupSize(t[pos])] + t[pos + GroupSize(t[pos])..];
    }
  }

  lemma ReadGroup(t: seq<byte>, pos: nat) returns (g: Group)
    requires pos < |t| && pos + GroupSize(t[pos]) <= |t|
    ensures GroupOk(g) && Coded(g) == t[pos..pos + GroupSize(t[pos])]
  {
    var b: int := t[pos];
    if b < 64 {
      g := Pair(b / 8 + 1, b % 8 + 1);
    } else if b >= 128 {
      g := Single(b - 128 + 1);
    } else if b < 96 {
      var b1: int := t[pos + 1];
      g := Double((b - 64) * 256 + b1 + 1);
    } else {
      var b1: int, b2: int := t[pos + 1], t[pos + 2];
      g := Triple((b - 96) * 65536 + b1 * 256 + b2 + 1);
      TripleBytes(b - 96, b1, b2);
    }
  }

  lemma TripleBytes(a: nat, b: nat, c: nat)
    requires b < 256 && c < 256
    ensures var n := a * 65536 + b * 256 + c; n / 65536 == a && n / 256 % 256 == b && n % 256 == c
  {
    var n := a * 65536 + b * 256 + c;
    LastByte(a * 256 + b, c);
    LastByte(a, b);
    assert n == 256 * (a * 256 + b) + c && a * 256 + b == 256 * a + b;
    assert 65536 * a <= n < 65536 * a + 65536;
  }

  lemma LastByte(q: nat, b: nat)
    requires b < 256
    ensures (256 * q + b) / 256 == q && (256 * q + b) % 256 == b
  {
  }

  /** Run lengths in as few bytes each as they need. */
  function Groups(runs: seq<nat>): (gs: seq<Group>)
    requires forall i :: 0 <= i < |runs| ==> 1 <= runs[i] <= 2097152
    ensures GroupsOk(gs) && RunsOf(gs) == runs
  {
    if runs == [] then []
    else
      var n := runs[0];
      [if n <= 128 then Single(n) else if n <= 8192 then Double(n) else Triple(n)] + Groups(runs[1..])
  }

  /** Every list of run lengths has a table that contains exactly its odd runs. */
  lemma RunsEncoded(runs: seq<nat>, c: nat)
    requires forall i :: 0 <= i < |runs| ==> 1 <= runs[i] <= 2097152
    ensures var t := Coding(Groups(runs)); Complete(t, 0) && (Member(t, c) <==> InOddRun(runs, c))
  {
    MemberRuns(Groups(runs), c);
  }

  /** The first bytes of the case-ignorable table: the apostrophe, and the full stop after a
      pair of runs. */
  lemma CaseIgnorableStart(c: nat)
    ensures var t: seq<byte> := [0xa6, 0x05, 0x80, 0x8a]; Complete(t, 0) && (Member(t, c) <==> c == 0x27 || c == 0x2e)
  {
    var gs := [Single(39), Pair(1, 6), Single(1), Single(11)];
    assert gs[1..] == [Pair(1, 6), Single(1), Single(11)] && gs[1..][1..] == [Single(1), Single(11)] && gs[2..][1..] == [Single(11)];
    assert Coding(gs) == [0xa6, 0x05, 0x80, 0x8a];
    assert RunsOf(gs) == [39, 1, 6, 1, 11];
    assert Coding(gs)[0..] == Coding(gs);
    ScanRuns(Coding(gs), START, gs, c);
    CaseRuns(c);
  }

  lemma CaseRuns(c: nat)
    ensures BitAt([39, 1, 6, 1, 11], false, 0, c) == Some(true) <==> c == 0x27 || c == 0x2e
  {
    BitAtFirst(39, [1, 6, 1, 11], false, 0, c);
    BitAtFirst(1, [6, 1, 11], true, 39, c);
    BitAtFirst(6, [1, 11], false, 40, c);
    BitAtFirst(1, [11], true, 46, c);
    BitAtFirst(11, [], false, 47, c);
  }

  lemma BitAtFirst(n: nat, runs: seq<nat>, bit: bool, code: nat, c: nat)
    ensures BitAt([n] + runs, bit, code, c) == if c < code + n then Some(bit) else BitAt(runs, !bit, code + n, c)
  {
    assert ([n] + runs)[1..] == runs;
  }

  // ----- The index -----

  function Entry(index: seq<byte>, k: nat): (v: nat)
    requires 3 * k + 3 <= |index|
    ensures v < 0x100_0000
  {
    ReadLittleEndian(index, 3 * k, 3)
  }

  /** The state that entry `k` names: the low 21 bits are the code, the others the
      offset from the end of block `k`. */
  function Named(index: seq<byte>, k: nat): State
    requires 3 * k + 3 <= |index|
  {
    State((k + 1) * INDEX_BLOCK_LEN + Entry(index, k) / CODE_LIMIT, Entry(index, k) % CODE_LIMIT, false)
  }

  /** An entry for the state at `pos` is its code with the offset from the end of the block in
      the high three bits, in three bytes, the lowest first. */
  lemma EntryNames(index: seq<byte>, k: nat, pos: nat, code: nat)
    requires 3 * k + 3 <= |index| && 32 * (k + 1) <= pos < 32 * (k + 1) + 8 && code < 0x20_0000
    requires var v: nat := (pos - 32 * (k + 1)) * 0x20_0000 + code;
             index[3 * k] == v % 256 && index[3 * k + 1] == v / 256 % 256 && index[3 * k + 2] == v / 65536
    ensures Named(index, k) == State(pos, code, false)
  {
    var v: nat, p := (pos - 32 * (k + 1)) * 0x20_0000 + code, 3 * k;
    var b0: int, b1: int, b2: int := index[p], index[p + 1], index[p + 2];
    assert ReadLittleEndian(index, p + 2, 1) == b2 + 256 * ReadLittleEndian(index, p + 3, 0);
    assert ReadLittleEndian(index, p + 1, 2) == b1 + 256 * ReadLittleEndian(index, p + 2, 1);
    assert v / 65536 == v / 256 / 256;
  }

  /** Entries name states the decoder passes; the last one is the end of the table. */
  predicate Indexes(t: seq<byte>, index: seq<byte>)
    requires Complete(t, 0)
  {
    && |index| > 0 && |index| % 3 == 0
    && (forall k :: 0 <= k < |index| / 3 - 1 ==> Passes(t, START, Named(index, k)))
    && Entry(index, |index| / 3 - 1) == EndCode(t, START) < CODE_LIMIT
  }

  /** The state to scan from, or nothing when `c` is outside the table. */
  method IndexPos(c: nat, index: seq<byte>, ghost t: seq<byte>) returns (st: Option<State>)
    requires Complete(t, 0) && Indexes(t, index)
    ensures st == None <==> c >= EndCode(t, START)
    ensures st.Some? ==> Passes(t, START, st.value) && st.value.code <= c && st.value.bit == false
  {
    hide Passes;
    var n := |index| / 3;
    var v := Entry(index, 0);
    if c < v % CODE_LIMIT {
      LastIsLargest(t, index, 0);
      PassesStart(t);
      return Some(State(0, 0, false));
    }
    var low, high := 0, n - 1;
    var code := Entry(index, high);
    if c >= code {
      return None;
    }
    while high - low > 1
      invariant 0 <= low < high < n && Entry(index, low) % CODE_LIMIT <= c < Entry(index, high) % CODE_LIMIT
    {
      var idx := (high + low) / 2;
      v := Entry(index, idx);
      if c < v % CODE_LIMIT {
        high := idx;
      } else {
        low := idx;
      }
    }
    v := Entry(index, low);
    assert Passes(t, START, Named(index, low));
    return Some(State((low + 1) * INDEX_BLOCK_LEN + v / CODE_LIMIT, v % CODE_LIMIT, false));
  }

  lemma PassesStart(t: seq<byte>)
    requires Complete(t, 0)
    ensures Passes(t, START, START)
  {
  }

  lemma LastIsLargest(t: seq<byte>, index: seq<byte>, k: nat)
    requires Complete(t, 0) && Indexes(t, index) && k < |index| / 3
    ensures Entry(index, k) % CODE_LIMIT <= EndCode(t, START)
  {
    if k < |index| / 3 - 1 {
      PassesForward(t, START, Named(index, k));
    }
  }

  /** Membership through the index. */
  method IsInTable(c: nat, t: seq<byte>, index: seq<byte>) returns (found: bool)
    requires Complete(t, 0) && Indexes(t, index)
    ensures found == Member(t, c)
    ensures forall gs: seq<Group> :: GroupsOk(gs) && t == Coding(gs) ==> (found <==> InOddRun(RunsOf(gs), c))
  {
    hide Indexes, Passes, FirstRun, EndCode, Coding, RunsOf, InOddRun, GroupsOk;
    forall gs: seq<Group> | GroupsOk(gs) && t == Coding(gs) ensures Member(t, c) <==> InOddRun(RunsOf(gs), c) { MemberRuns(gs, c); }
    var st := IndexPos(c, index, t);
    ScanEnd(t, START, c);
    if st == None {
      return false;
    }
    PassesForward(t, START, st.value);
    ScanFrom(t, START, st.value, c);
    var p: nat, code: nat, bit := st.value.pos, st.value.code, false;
    while true
      invariant Complete(t, p) && Scan(t, State(p, code, bit), c) == Scan(t, START, c) != None
      decreases |t| - p
    {
      GroupRuns(t, p);
      var b: int := t[p];
      if b < 64 {
        code := code + b / 8 + 1;
        if c < code {
          return bit;
        }
        bit := !bit;
        code := code + b % 8 + 1;
        p := p + 1;
      } else if b >= 0x80 {
        code := code + b - 0x80 + 1;
        p := p + 1;
      } else if b < 0x60 {
        var b1: int := t[p + 1];
        code := code + (b - 0x40) * 256 + b1 + 1;
        p := p + 2;
      } else {
        var b1: int, b2: int := t[p + 1], t[p + 2];
        code := code + (b - 0x60) * 65536 + b1 * 256 + b2 + 1;
        p := p + 3;
      }
      if c < code {
        return bit;
      }
      bit := !bit;
    }
  }

  // ----- Expansion -----

  /** What expansion has produced for the code points below `end`. */
  ghost predicate Expanded(t: seq<byte>, end: nat, points: seq<int>) {
    && Complete(t, 0) && Sorted(points) && Within(points, end)
    && (forall c :: InIntervals(points, c) ==> 0 <= c < end)
    && (forall c: nat :: c < end ==> (InIntervals(points, c) <==> Member(t, c)))
  }

  predicate Within(points: seq<int>, end: int) {
    forall i :: 0 <= i < |points| ==> 0 <= points[i] <= end
  }

  /** One run appended when it is inside the set. */
  function Append(points: seq<int>, bit: bool, from: int, to: int): seq<int> {
    if bit then points + [from, to] else points
  }

  lemma AppendIn(points: seq<int>, bit: bool, from: int, to: int, c: int)
    requires |points| % 2 == 0
    ensures InIntervals(Append(points, bit, from, to), c) <==> InIntervals(points, c) || (bit && from <= c < to)
  {
    if bit {
      InSplit(points + [from, to], |points|, c);
      assert (points + [from, to])[..|points|] == points && (points + [from, to])[|points|..] == [from, to];
      InPair(from, to, c);
    }
  }

  /** Every code point below the end lies in the group where a scan from the start stops. */
  lemma MemberInGroup(t: seq<byte>, st: State, c: nat)
    requires Complete(t, 0) && Passes(t, START, st) && st.pos < |t|
    ensures Complete(t, st.pos)
    ensures st.code <= c < st.code + FirstRun(t, st.pos) ==> Member(t, c) == st.bit
    ensures st.code + FirstRun(t, st.pos) <= c < Next(t, st).code ==> Member(t, c) == !st.bit
  {
    PassesForward(t, START, st);
    if c >= st.code { ScanFrom(t, START, st, c); }
  }

  lemma {:induction false} PassesNext(t: seq<byte>, from: State, st: State)
    requires Complete(t, from.pos) && Passes(t, from, st) && st.pos < |t|
    ensures Complete(t, st.pos) && Passes(t, from, Next(t, st))
    decreases |t| - from.pos
  {
    if from != st { PassesNext(t, Next(t, from), st); }
  }

  lemma ExpandRun(t: seq<byte>, from: nat, to: nat, bit: bool, points: seq<int>)
    requires Expanded(t, from, points) && from <= to
    requires forall c: nat :: from <= c < to ==> Member(t, c) == bit
    ensures Expanded(t, to, Append(points, bit, from, to))
  {
    hide Member, InIntervals;
    var q := Append(points, bit, from, to);
    forall c ensures InIntervals(q, c) <==> InIntervals(points, c) || (bit && from <= c < to) {
      AppendIn(points, bit, from, to, c);
    }
    AppendSorted(points, bit, from, to);
  }

  lemma AppendSorted(points: seq<int>, bit: bool, from: nat, to: nat)
    requires Sorted(points) && Within(points, from) && from <= to
    ensures Sorted(Append(points, bit, from, to)) && Within(Append(points, bit, from, to), to)
  {
  }

  lemma ExpandGroup(t: seq<byte>, st: State, points: seq<int>)
    requires Complete(t, 0) && Passes(t, START, st) && st.pos < |t| && Expanded(t, st.code, points)
    ensures Complete(t, st.pos)
    ensures var mid, next := st.code + FirstRun(t, st.pos), Next(t, st);
            Expanded(t, next.code, Append(Append(points, st.bit, st.code, mid), !st.bit && t[st.pos] < 64, mid, next.code))
  {
    hide Expanded, Member, Passes;
    PassesForward(t, START, st);
    var mid, next := st.code + FirstRun(t, st.pos), Next(t, st);
    forall c: nat ensures st.code <= c < mid ==> Member(t, c) == st.bit { MemberInGroup(t, st, c); }
    forall c: nat ensures mid <= c < next.code ==> Member(t, c) == !st.bit { MemberInGroup(t, st, c); }
    ExpandRun(t, st.code, mid, st.bit, points);
    var p := Append(points, st.bit, st.code, mid);
    if t[st.pos] < 64 {
      ExpandRun(t, mid, next.code, !st.bit, p);
    }
  }

  /** Expands a table into interval end points. */
  method Expand(t: seq<byte>) returns (points: seq<int>)
    requires Complete(t, 0) && EndCode(t, START) <= UINT32_MAX
    ensures Sorted(points) && Words(points) && forall c: nat :: InIntervals(points, c) <==> Member(t, c)
    ensures forall gs: seq<Group>, c: nat :: GroupsOk(gs) && t == Coding(gs) ==> (InIntervals(points, c) <==> InOddRun(RunsOf(gs), c))
  {
    hide Passes, Expanded, FirstRun, Coding, RunsOf, InOddRun, GroupsOk;
    forall gs: seq<Group>, c: nat | GroupsOk(gs) && t == Coding(gs) ensures Member(t, c) <==> InOddRun(RunsOf(gs), c) {
      MemberRuns(gs, c);
    }
    points := [];
    var p: nat, c: nat, bit := 0, 0, false;
    PassesStart(t);
    ExpandNothing(t);
    while p < |t|
      invariant Complete(t, p) && Passes(t, START, State(p, c, bit)) && Expanded(t, c, points)
      decreases |t| - p
    {
      ghost var st := State(p, c, bit);
      ExpandGroup(t, st, points);
      PassesNext(t, START, st);
      GroupRuns(t, p);
      var c0 := c;
      var b: int := t[p];
      if b < 64 {
        c := c + b / 8 + 1;
        if bit {
          points := points + [c0, c];
        }
        bit := !bit;
        c0 := c;
        c := c + b % 8 + 1;
        p := p + 1;
      } else if b >= 0x80 {
        c := c + b - 0x80 + 1;
        p := p + 1;
      } else if b < 0x60 {
        var b1: int := t[p + 1];
        c := c + (b - 0x40) * 256 + b1 + 1;
        p := p + 2;
      } else {
        var b1: int, b2: int := t[p + 1], t[p + 2];
        c := c + (b - 0x60) * 65536 + b1 * 256 + b2 + 1;
        p := p + 3;
      }
      if bit {
        points := points + [c0, c];
      }
      bit := !bit;
      assert State(p, c, bit) == Next(t, st);
      assert t[st.pos] >= 64 ==> c0 == st.code;
    }
    ExpandAll(t, State(p, c, bit), points);
  }

  lemma GroupRuns(t: seq<byte>, pos: nat)
    requires pos < |t| && pos + GroupSize(t[pos]) <= |t|
    ensures var b: int := t[pos];
            && (b < 64 ==> FirstRun(t, pos) == b / 8 + 1)
            && (b >= 0x80 ==> FirstRun(t, pos) == b - 0x80 + 1)
            && (0x40 <= b < 0x60 ==> FirstRun(t, pos) == (b - 0x40) * 256 + (t[pos + 1] as int) + 1)
            && (0x60 <= b < 0x80 ==> FirstRun(t, pos) == (b - 0x60) * 65536 + (t[pos + 1] as int) * 256 + (t[pos + 2] as int) + 1)
  {
  }

  lemma ExpandNothing(t: seq<byte>)
    requires Complete(t, 0)
    ensures Expanded(t, 0, [])
  {
  }

  lemma ExpandAll(t: seq<byte>, st: State, points: seq<int>)
    requires Complete(t, 0) && Passes(t, START, st) && st.pos >= |t| && Expanded(t, st.code, points)
    requires EndCode(t, START) <= UINT32_MAX
    ensures Sorted(points) && Words(points) && forall c: nat :: InIntervals(points, c) <==> Member(t, c)
  {
    PassesForward(t, START, st);
    forall c: nat ensures InIntervals(points, c) <==> Member(t, c) {
      ScanEnd(t, START, c);
    }
  }
}
