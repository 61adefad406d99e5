/** The ring of lines entered before. */
module Histories {
  import opened Basics

  const MAXHIST: nat := 32

  type Line = seq<byte>

  /** The lines that can be brought back, newest first, and how many of them the user has
      gone back. */
  datatype Past = Past(lines: seq<Line>, pos: nat)

  function Older(p: Past): Past {
    if p.pos < |p.lines| then p.(pos := p.pos + 1) else p
  }

  function Newer(p: Past): Past {
    if p.pos > 0 then p.(pos := p.pos - 1) else p
  }

  /** The line shown, the empty one in front of the newest. */
  function LineAt(p: Past): Line
    requires p.pos <= |p.lines|
  {
    if p.pos == 0 then [] else p.lines[p.pos - 1]
  }

  /** The empty line and a repetition of the newest line are not stored; the oldest line is
      dropped when there are 32. */
  function Remember(p: Past, line: Line): Past {
    if line == [] then p
    else if p.lines != [] && p.lines[0] == line then p.(pos := 0)
    else
      var lines := [line] + p.lines;
      Past(if |lines| < MAXHIST then lines else lines[..MAXHIST - 1], 0)
  }

  function RememberAll(p: Past, lines: seq<Line>): Past {
    if lines == [] then p else Remember(RememberAll(p, lines[..|lines| - 1]), lines[|lines| - 1])
  }

  /** Of lines entered one behind the other the last 31 can be brought back, newest first. */
  lemma {:induction false} RecentLines(lines: seq<Line>)
    requires forall i :: 0 <= i < |lines| ==> lines[i] != [] && (i > 0 ==> lines[i] != lines[i - 1])
    ensures var p := RememberAll(Past([], 0), lines);
            p.pos == 0 && |p.lines| == Min(|lines|, 31) && forall k :: 0 <= k < |p.lines| ==> p.lines[k] == lines[|lines| - 1 - k]
    decreases |lines|
  {
    if lines != [] { RecentLines(lines[..|lines| - 1]); }
  }

  /** Slot `k` places behind `index` in the ring. */
  function Slot(index: int, k: int): (s: int)
    requires 0 <= index < MAXHIST && 0 <= k < MAXHIST
    ensures 0 <= s < MAXHIST
  {
    if index >= k then index - k else index - k + MAXHIST
  }

  class History {
    const buf: array<Option<Line>>
    var cp: int
    var index: int
    ghost var lines: seq<Line>

    constructor ()
      ensures Valid() && fresh(buf) && View() == Past([], 0)
    {
      buf := new Option<Line>[MAXHIST](_ => None);
      cp, index, lines := 0, 0, [];
    }

    ghost predicate InRange()
      reads this
    {
      buf.Length == MAXHIST && 0 <= cp < MAXHIST && 0 <= index < MAXHIST
    }

    /** The ring holds the lines behind `index`; what its slot at `index` holds is not shown. */
    ghost predicate Valid()
      reads this, buf
    {
      && InRange() && |lines| < MAXHIST && Position() <= |lines|
      && (forall k :: 1 <= k < MAXHIST ==> buf[Slot(index, k)] == if k <= |lines| then Some(lines[k - 1]) else None)
    }

    /** How many lines back the user has gone. */
    ghost function Position(): (p: int)
      requires InRange()
      reads this
      ensures 0 <= p < MAXHIST && cp == Slot(index, p)
    {
      if index >= cp then index - cp else index - cp + MAXHIST
    }

    ghost function View(): Past
      requires Valid()
      reads this, buf
    {
      Past(lines, Position())
    }

    /** One line further back, if there is one. */
    method Previous() returns (r: Option<Line>)
      requires Valid()
      modifies this`cp
      ensures Valid() && View() == Older(old(View()))
      ensures r == if View() != old(View()) then Some(LineAt(View())) else None
    {
      var try := cp;
      if try == 0 {
        try := MAXHIST - 1;
      } else {
        try := try - 1;
      }
      if try == index {
        return None;
      }
      assert try == Slot(index, Position() + 1);
      if buf[try] == None {
        return None;
      }
      cp := try;
      return buf[try];
    }

    /** One line forward; in front of the newest line is the empty one. */
    method Next() returns (r: Option<Line>)
      requires Valid()
      modifies this`cp
      ensures Valid() && View() == Newer(old(View()))
      ensures r == if View() != old(View()) then Some(LineAt(View())) else None
    {
      if cp == index {
        return None;
      }
      var try := cp;
      if try == MAXHIST - 1 {
        try := 0;
      } else {
        try := try + 1;
      }
      if try == index {
        cp := index;
        return Some([]);
      }
      assert try == Slot(index, Position() - 1);
      if buf[try] == None {
        return None;
      }
      cp := try;
      return buf[try];
    }

    /** Remembers a line, unless it is empty or repeats the newest one. */
    method Add(line: Line)
      requires Valid()
      modifies this, buf
      ensures Valid() && View() == Remember(old(View()), line)
    {
      if |line| == 0 {
        return;
      }
      var newest := if index > 0 then index - 1 else MAXHIST - 1;
      assert newest == Slot(index, 1);
      if buf[newest] == Some(line) {
        cp := index;
        return;
      }
      ghost var at := index;
      buf[index] := Some(line);
      index := index + 1;
      if index == MAXHIST {
        index := 0;
      }
      cp := index;
      lines := Remember(old(View()), line).lines;
      forall k | 1 <= k < MAXHIST ensures buf[Slot(index, k)] == if k <= |lines| then Some(lines[k - 1]) else None {
        if k > 1 { assert Slot(index, k) == Slot(at, k - 1) != at; }
      }
    }
  }
}
