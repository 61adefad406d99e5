/** The texts that completion, help and execution print, and where they are displayed. */
module Listings {
  import opened Basics
  import opened Screens
  import opened CommandTrees
  import opened CommandSearches
  import opened Completions
  import opened Descriptions

  const CRLF: seq<byte> := [CR, LF]

  function Ascii(s: string): (r: seq<byte>)
    ensures |r| == |s|
  {
    seq(|s|, i requires 0 <= i < |s| => s[i] as int % 256)
  }

  /** A key with blanks up to a width. */
  function Padded(key: Text, width: nat): (r: seq<byte>)
    ensures |r| == Max(|key|, width) && key <= r
  {
    key + Repeat(SPACE, if |key| < width then width - |key| else 0)
  }

  lemma PaddedPrintable(key: Text, width: nat)
    requires Printable(key)
    ensures Printable(Padded(key, width))
  {
  }

  // ----- Keys in columns -----

  const CELL: nat := 16

  /** Keys in cells of 16, five to a row. */
  function Columns(keys: seq<Text>): seq<byte> {
    if keys == [] then []
    else
      var n := |keys| - 1;
      Columns(keys[..n]) + (if n > 0 && n % 5 == 0 then CRLF else []) + Padded(keys[n], CELL)
  }

  /** The column at which a key starts: behind the cells before it on its row. */
  function ColumnOf(keys: seq<Text>, i: nat): nat
    requires i <= |keys|
  {
    if i % 5 == 0 then 0 else ColumnOf(keys, i - 1) + Max(|keys[i - 1]|, CELL)
  }

  lemma {:induction false} ShortColumns(keys: seq<Text>, i: nat)
    requires i <= |keys| && forall k :: 0 <= k < |keys| ==> |keys[k]| <= CELL
    ensures ColumnOf(keys, i) == CELL * (i % 5)
  {
    if i % 5 != 0 { ShortColumns(keys, i - 1); }
  }

  /** The row displays `t` from column `col` on. */
  ghost predicate Displays(sc: Screen, col: int, t: seq<byte>) {
    forall k :: 0 <= k < |t| ==> Char(sc.row, col + k) == t[k]
  }

  /** Text is displayed where it is printed, and what is before it stays. */
  lemma TextDisplays(sc: Screen, t: seq<byte>)
    requires Printable(t)
    ensures Feed(sc, t).col == sc.col + |t| && Displays(Feed(sc, t), sc.col, t)
    ensures forall col, u :: 0 <= col && col + |u| <= sc.col && Displays(sc, col, u) ==> Displays(Feed(sc, t), col, u)
  {
    hide Feed;
    FeedText(sc, t, 0);
    forall i ensures Char(Feed(sc, t).row, i) == if sc.col <= i < sc.col + |t| then t[i - sc.col] else Char(sc.row, i) {
      FeedText(sc, t, i);
    }
  }

  /** After key `j` its row displays it and the keys before it on the row, each at its
      own column. */
  lemma {:induction false} ColumnsShow(keys: seq<Text>, i: nat, j: nat)
    requires i <= j < |keys| && i / 5 == j / 5 && forall k :: 0 <= k < |keys| ==> Printable(keys[k])
    ensures var sc := Feed(BLANK, Columns(keys[..j + 1]));
            Displays(sc, ColumnOf(keys, i), keys[i]) && sc.col == ColumnOf(keys, j) + Max(|keys[j]|, CELL)
    decreases j
  {
    hide Feed, Padded, Displays, Columns;
    var cell, before := Padded(keys[j], CELL), Columns(keys[..j]);
    ColumnsNext(keys, j);
    PaddedPrintable(keys[j], CELL);
    if j % 5 == 0 {
      RowStart(keys, j);
      FeedConcat(BLANK, before + (if j > 0 then CRLF else []), cell);
      TextDisplays(BLANK, cell);
      PrefixDisplays(Feed(BLANK, cell), 0, keys[j], cell);
    } else {
      ColumnsShow(keys, if i < j then i else j - 1, j - 1);
      var sc := Feed(BLANK, before);
      assert before + [] == before;
      FeedConcat(BLANK, before, cell);
      TextDisplays(sc, cell);
      PrefixDisplays(Feed(sc, cell), sc.col, keys[j], cell);
      if i < j { ColumnBefore(keys, i, j); }
    }
  }

  lemma ColumnsNext(keys: seq<Text>, j: nat)
    requires j < |keys|
    ensures Columns(keys[..j + 1]) == Columns(keys[..j]) + (if j > 0 && j % 5 == 0 then CRLF else []) + Padded(keys[j], CELL)
  {
    assert keys[..j + 1][..j] == keys[..j];
  }

  /** A new row starts blank. */
  lemma RowStart(keys: seq<Text>, j: nat)
    requires j < |keys| && j % 5 == 0
    ensures Feed(BLANK, Columns(keys[..j]) + (if j > 0 then CRLF else [])) == BLANK
  {
    if j > 0 { FeedLine(BLANK, Columns(keys[..j]) + CRLF); }
  }

  lemma PrefixDisplays(sc: Screen, col: int, t: seq<byte>, u: seq<byte>)
    requires t <= u && Displays(sc, col, u)
    ensures Displays(sc, col, t)
  {
  }

  lemma {:induction false} ColumnBefore(keys: seq<Text>, i: nat, j: nat)
    requires i < j <= |keys| && i / 5 == j / 5
    ensures ColumnOf(keys, i) + |keys[i]| <= ColumnOf(keys, j)
    decreases j
  {
    if i < j - 1 { ColumnBefore(keys, i, j - 1); }
  }

  // ----- Help -----

  function Widest(keys: seq<Text>): (w: nat)
    ensures forall i :: 0 <= i < |keys| ==> |keys[i]| <= w
    ensures keys != [] ==> exists i :: 0 <= i < |keys| && |keys[i]| == w
  {
    if keys == [] then 0
    else
      var n := |keys| - 1;
      var w := Widest(keys[..n]);
      assert w > |keys[n]| && n > 0 ==> exists i :: 0 <= i < |keys| && |keys[i]| == w by {
        if n > 0 {
          var i :| 0 <= i < |keys[..n]| && |keys[..n][i]| == w;
          assert |keys[i]| == w;
        }
      }
      if w < |keys[n]| then |keys[n]| else if n == 0 then |keys[0]| else w
  }

  const GAP: seq<byte> := [SPACE, SPACE]

  /** A key and its description on one row. */
  function HelpRow(key: Text, desc: Text, width: nat): seq<byte> {
    GAP + Padded(key, width) + GAP + desc
  }

  function HelpRows(keys: seq<Text>, descs: seq<Text>, width: nat): (r: seq<byte>)
    requires |keys| == |descs|
    ensures r == [] || r[|r| - 1] == LF
  {
    if keys == [] then []
    else
      var n := |keys| - 1;
      HelpRows(keys[..n], descs[..n], width) + HelpRow(keys[n], descs[n], width) + CRLF
  }

  const UNKNOWN: seq<byte> := Ascii("% No matched command.") + [LF]
  const COMPLETE: seq<byte> := GAP + Ascii("<cr>") + CRLF

  /** What is printed as help. */
  function HelpText(h: Help): (r: seq<byte>)
    ensures r == [] || r[|r| - 1] == LF
  {
    match h
    case NoHelp => []
    case Unknown => UNKNOWN
    case Choices(topics, cr) =>
      HelpRows(KeysOf(topics), DescsOf(topics), Widest(KeysOf(topics))) + (if cr then COMPLETE else [])
  }

  /** Help leaves the row blank. */
  lemma HelpClears(h: Help)
    ensures Feed(BLANK, HelpText(h)) == BLANK
  {
    if HelpText(h) != [] { FeedLine(BLANK, HelpText(h)); }
  }

  /** Every key is displayed behind two blanks on a row of its own, and all descriptions
      start at the same column, two blanks behind the widest key. */
  lemma HelpRowShows(keys: seq<Text>, descs: seq<Text>, i: nat)
    requires |keys| == |descs| && i < |keys| && Printable(keys[i]) && Printable(descs[i])
    ensures var w := Widest(keys);
            var sc := Feed(BLANK, HelpRows(keys[..i], descs[..i], w) + HelpRow(keys[i], descs[i], w));
            Displays(sc, 2, keys[i]) && Displays(sc, w + 4, descs[i]) && sc.col == w + 4 + |descs[i]|
  {
    hide Feed, Displays, HelpRows, Widest;
    var w := Widest(keys);
    var before, row := HelpRows(keys[..i], descs[..i], w), HelpRow(keys[i], descs[i], w);
    if before != [] { FeedLine(BLANK, before); } else { FeedNothing(BLANK); }
    FeedConcat(BLANK, before, row);
    PaddedPrintable(keys[i], w);
    TextDisplays(BLANK, row);
    RowParts(Feed(BLANK, row), keys[i], descs[i], w);
  }

  lemma FeedNothing(sc: Screen)
    ensures Feed(sc, []) == sc
  {
  }

  lemma RowParts(sc: Screen, key: Text, desc: Text, w: nat)
    requires |key| <= w && Displays(sc, 0, HelpRow(key, desc, w))
    ensures Displays(sc, 2, key) && Displays(sc, w + 4, desc)
  {
    var row := HelpRow(key, desc, w);
    forall k | 0 <= k < |key| ensures Char(sc.row, 2 + k) == key[k] { assert row[2 + k] == key[k]; }
    forall k | 0 <= k < |desc| ensures Char(sc.row, w + 4 + k) == desc[k] { assert row[w + 4 + k] == desc[k]; }
  }

  // ----- Errors -----

  /** What is printed when no handler is called. */
  function ErrorText(o: Option<Outcome>, line: Text): (r: seq<byte>)
    ensures r == [] || r[|r| - 1] == LF
  {
    match o
    case None => []
    case Some(Reached(_, _, _)) => []
    case Some(Incomplete) => Ascii("% Command incomplete.") + CRLF
    case Some(NoMatch) => Ascii("% Unknown command - ") + line + Ascii(".") + CRLF
    case Some(Invalid) => Ascii("% Invalid command - ") + line + Ascii(".") + CRLF
  }

  lemma ErrorClears(o: Option<Outcome>, line: Text)
    ensures Feed(BLANK, ErrorText(o, line)) == BLANK
  {
    if ErrorText(o, line) != [] { FeedLine(BLANK, ErrorText(o, line)); }
  }

  /** A handler that ends its output within a row leaves the prompt behind it. */
  lemma OpenRow()
    ensures Feed(BLANK, [65]) == Screen([65], 1) && forall width :: !Cleared(Feed(BLANK, [65]), width)
  {
    assert [65][1..] == [];
    assert Stamp([], 0, 65) == [65];
  }
}
