/** One row of a terminal of unbounded width, and what echoed bytes do to it. */
module Screens {
  import opened Basics

  const BS: byte := 8
  const LF: byte := 10
  const CR: byte := 13
  const SPACE: byte := 32

  /** The row the cursor is on. */
  datatype Screen = Screen(row: seq<byte>, col: nat)

  const BLANK: Screen := Screen([], 0)

  /** What is displayed at column `i`; there are blanks behind the last character. */
  function Char(row: seq<byte>, i: int): byte {
    if 0 <= i < |row| then row[i] else SPACE
  }

  function Repeat(b: byte, n: nat): (r: seq<byte>)
    ensures |r| == n && forall i :: 0 <= i < n ==> r[i] == b
  {
    seq(n, _ => b)
  }

  function Stamp(row: seq<byte>, c: nat, b: byte): seq<byte> {
    if c < |row| then row[c := b] else row + Repeat(SPACE, c - |row|) + [b]
  }

  /** One byte.  A line feed also returns the carriage: output processing is left on. */
  function Put(sc: Screen, b: byte): Screen {
    if b == BS then (if sc.col > 0 then sc.(col := sc.col - 1) else sc)
    else if b == CR then sc.(col := 0)
    else if b == LF then BLANK
    else Screen(Stamp(sc.row, sc.col, b), sc.col + 1)
  }

  function Feed(sc: Screen, bytes: seq<byte>): Screen
    decreases |bytes|
  {
    if bytes == [] then sc else Feed(Put(sc, bytes[0]), bytes[1..])
  }

  /** The row displays `line`, blanks behind it, and the cursor is at `col`. */
  ghost predicate Shows(sc: Screen, line: seq<byte>, col: int) {
    sc.col == col && forall i :: Char(sc.row, i) == Char(line, i)
  }

  lemma {:induction false} FeedConcat(sc: Screen, a: seq<byte>, b: seq<byte>)
    ensures Feed(sc, a + b) == Feed(Feed(sc, a), b)
    decreases |a|
  {
    hide Put;
    if a == [] {
      assert a + b == b;
    } else {
      assert (a + b)[1..] == a[1..] + b;
      FeedConcat(Put(sc, a[0]), a[1..], b);
    }
  }

  lemma StampChar(row: seq<byte>, c: nat, b: byte, i: int)
    ensures Char(Stamp(row, c, b), i) == if i == c then b else Char(row, i)
  {
  }

  lemma {:induction false} FeedText(sc: Screen, t: seq<byte>, i: int)
    requires Printable(t)
    ensures Feed(sc, t).col == sc.col + |t|
    ensures Char(Feed(sc, t).row, i) == if sc.col <= i < sc.col + |t| then t[i - sc.col] else Char(sc.row, i)
    decreases |t|
  {
    if t != [] {
      hide Stamp;
      StampChar(sc.row, sc.col, t[0], i);
      FeedText(Put(sc, t[0]), t[1..], i);
    }
  }

  lemma {:induction false} FeedBacks(sc: Screen, n: nat)
    requires n <= sc.col
    ensures Feed(sc, Repeat(BS, n)) == sc.(col := sc.col - n)
    decreases n
  {
    if n > 0 {
      assert Repeat(BS, n)[1..] == Repeat(BS, n - 1);
      FeedBacks(Put(sc, BS), n - 1);
    }
  }

  /** A line feed leaves a blank row, whatever was there. */
  lemma FeedLine(sc: Screen, bytes: seq<byte>)
    requires bytes != [] && bytes[|bytes| - 1] == LF
    ensures Feed(sc, bytes) == BLANK
  {
    var n := |bytes| - 1;
    assert bytes == bytes[..n] + [LF];
    FeedConcat(sc, bytes[..n], [LF]);
    assert [LF][1..] == [];
  }

  /** `text` is what is displayed after typing `t` over `was` at column `from`. */
  ghost predicate TypedOver(was: seq<byte>, text: seq<byte>, from: nat, t: seq<byte>) {
    forall i :: 0 <= i ==> Char(text, i) == if from <= i < from + |t| then t[i - from] else Char(was, i)
  }

  lemma TypeShows(out: seq<byte>, prompt: seq<byte>, was: seq<byte>, text: seq<byte>, from: nat, t: seq<byte>)
    requires Printable(t) && Shows(Feed(BLANK, out), prompt + was, |prompt| + from) && TypedOver(was, text, from, t)
    ensures Shows(Feed(BLANK, out + t), prompt + text, |prompt| + from + |t|)
  {
    hide Feed, Stamp, Put;
    var sc := Feed(BLANK, out);
    FeedConcat(BLANK, out, t);
    FeedText(sc, t, 0);
    forall i ensures Char(Feed(sc, t).row, i) == Char(prompt + text, i) {
      FeedText(sc, t, i);
      assert Char(sc.row, i) == Char(prompt + was, i);
      if i >= |prompt| {
        assert Char(prompt + was, i) == Char(was, i - |prompt|) && Char(prompt + text, i) == Char(text, i - |prompt|);
      }
    }
  }

  lemma BackShows(out: seq<byte>, line: seq<byte>, col: int, n: nat)
    requires Shows(Feed(BLANK, out), line, col) && n <= col
    ensures Shows(Feed(BLANK, out + Repeat(BS, n)), line, col - n)
  {
    FeedConcat(BLANK, out, Repeat(BS, n));
    FeedBacks(Feed(BLANK, out), n);
  }

  /** The cursor is in column 0 and there are blanks from column `width` on. */
  ghost predicate Cleared(sc: Screen, width: nat) {
    sc.col == 0 && forall i :: i >= width ==> Char(sc.row, i) == SPACE
  }

  /** A printed line is all that is displayed exactly when the row was cleared for it. */
  lemma PrintShows(out: seq<byte>, line: seq<byte>)
    requires Printable(line)
    ensures Shows(Feed(BLANK, out + line), line, |line|) <==> Cleared(Feed(BLANK, out), |line|)
  {
    hide Feed, Stamp, Put;
    var sc := Feed(BLANK, out);
    var after := Feed(sc, line);
    FeedConcat(BLANK, out, line);
    FeedText(sc, line, 0);
    forall i ensures Char(after.row, i) == if sc.col <= i < sc.col + |line| then line[i - sc.col] else Char(sc.row, i) {
      FeedText(sc, line, i);
    }
    if Shows(after, line, |line|) {
      forall i | i >= |line| ensures Char(sc.row, i) == SPACE {
        assert Char(after.row, i) == Char(line, i);
      }
    }
    if Cleared(sc, |line|) {
      forall i ensures Char(after.row, i) == Char(line, i) {
        if i >= |line| { assert Char(sc.row, i) == SPACE; }
      }
    }
  }
}
