/** What each key does to the text before and behind the cursor. */
module Keystrokes {
  import opened Basics
  import opened CommandTrees
  import opened Screens
  import opened CommandSearches
  import opened Completions
  import opened Histories
  import opened Terminals

  const ESC: byte := 27
  const BRACKET: byte := 0x5b

  predicate Spaces(t: Text) {
    forall i :: 0 <= i < |t| ==> t[i] == SPACE
  }

  predicate NoSpaces(t: Text) {
    forall i :: 0 <= i < |t| ==> t[i] != SPACE
  }

  // ----- Words -----

  lemma {:induction false} ForthIs(text: Text, p: int, q: int, spaces: bool)
    requires 0 <= p <= q <= |text| && (forall i :: p <= i < q ==> (text[i] == SPACE) == spaces)
    requires q < |text| ==> (text[q] == SPACE) != spaces
    ensures Forth(text, p, spaces) == q
    decreases q - p
  {
    if p < q { ForthIs(text, p + 1, q, spaces); }
  }

  lemma {:induction false} BackIs(text: Text, p: int, q: int, spaces: bool)
    requires 0 <= q <= p <= |text| && (forall i :: q <= i < p ==> (text[i] == SPACE) == spaces)
    requires q > 0 ==> (text[q - 1] == SPACE) != spaces
    ensures Back(text, p, spaces) == q
    decreases p - q
  {
    if q < p { BackIs(text, p - 1, q, spaces); }
  }

  /** Behind the cursor: spaces, then a word, then a space or the end. */
  predicate NextWord(gap: Text, word: Text, rest: Text) {
    Spaces(gap) && NoSpaces(word) && (rest != [] ==> word != [] && rest[0] == SPACE)
  }

  /** In front of the cursor: the start or a space, then a word, then spaces. */
  predicate LastWord(before: Text, word: Text, gap: Text) {
    NoSpaces(word) && Spaces(gap) && (before != [] ==> word != [] && before[|before| - 1] == SPACE)
  }

  /** The end of the next word. */
  lemma WordRightIs(before: Text, gap: Text, word: Text, rest: Text)
    requires NextWord(gap, word, rest)
    ensures WordRight(before + gap + word + rest, |before|) == |before + gap + word|
  {
    var text := before + gap + word + rest;
    var m, q := |before + gap|, |before + gap + word|;
    assert forall i :: |before| <= i < m ==> text[i] == gap[i - |before|];
    assert forall i :: m <= i < q ==> text[i] == word[i - m];
    assert q < |text| ==> text[q] == rest[0];
    ForthIs(text, |before|, m, true);
    ForthIs(text, m, q, false);
  }

  /** The start of the last word. */
  lemma WordLeftIs(before: Text, word: Text, gap: Text, rest: Text)
    requires LastWord(before, word, gap)
    ensures WordLeft(before + word + gap + rest, |before + word + gap|) == |before|
  {
    var text := before + word + gap + rest;
    var m, p := |before + word|, |before + word + gap|;
    assert forall i :: m <= i < p ==> text[i] == gap[i - m];
    assert forall i :: |before| <= i < m ==> text[i] == word[i - |before|];
    assert before != [] ==> text[|before| - 1] == before[|before| - 1];
    BackIs(text, p, m, true);
    BackIs(text, m, |before|, false);
  }

  /** Every place in a line has a next word, and a last one. */
  lemma SplitRight(text: Text, p: nat) returns (gap: Text, word: Text, rest: Text)
    requires p <= |text|
    ensures text == text[..p] + gap + word + rest && NextWord(gap, word, rest)
  {
    var m := ForthTo(text, p, true);
    var q := ForthTo(text, m, false);
    gap, word, rest := text[p..m], text[m..q], text[q..];
  }

  lemma {:induction false} ForthTo(text: Text, p: int, spaces: bool) returns (q: int)
    requires 0 <= p <= |text|
    ensures p <= q <= |text| && (forall i :: p <= i < q ==> (text[i] == SPACE) == spaces)
    ensures q < |text| ==> (text[q] == SPACE) != spaces
    decreases |text| - p
  {
    q := p;
    if p < |text| && (text[p] == SPACE) == spaces { q := ForthTo(text, p + 1, spaces); }
  }

  lemma SplitLeft(text: Text, p: nat) returns (before: Text, word: Text, gap: Text)
    requires p <= |text|
    ensures text == before + word + gap + text[p..] && LastWord(before, word, gap)
  {
    var m := BackTo(text, p, true);
    var q := BackTo(text, m, false);
    before, word, gap := text[..q], text[q..m], text[m..p];
  }

  lemma {:induction false} BackTo(text: Text, p: int, spaces: bool) returns (q: int)
    requires 0 <= p <= |text|
    ensures 0 <= q <= p && (forall i :: q <= i < p ==> (text[i] == SPACE) == spaces)
    ensures q > 0 ==> (text[q - 1] == SPACE) != spaces
    decreases p
  {
    q := p;
    if p > 0 && (text[p - 1] == SPACE) == spaces { q := BackTo(text, p - 1, spaces); }
  }

  // ----- Keys -----

  lemma PressTwo(tree: Node, e: Editor, a: byte, b: byte)
    requires EditorOk(e) && PrintableTree(tree)
    ensures EditorOk(Press(tree, e, a)) && PressAll(tree, e, [a, b]) == Press(tree, Press(tree, e, a), b)
  {
    hide Press, EditorOk, PrintableTree;
    PressMore(tree, e, [a], [b]);
    PressOne(tree, e, a);
    PressOk(tree, e, a);
    PressOne(tree, Press(tree, e, a), b);
    assert [a] + [b] == [a, b];
  }

  lemma PressThree(tree: Node, e: Editor, a: byte, b: byte, c: byte)
    requires EditorOk(e) && PrintableTree(tree)
    ensures EditorOk(Press(tree, e, a)) && EditorOk(Press(tree, Press(tree, e, a), b))
    ensures PressAll(tree, e, [a, b, c]) == Press(tree, Press(tree, Press(tree, e, a), b), c)
  {
    hide Press, EditorOk, PrintableTree;
    PressTwo(tree, e, a, b);
    PressOk(tree, e, a);
    PressOk(tree, Press(tree, e, a), b);
    PressMore(tree, e, [a, b], [c]);
    PressOne(tree, Press(tree, Press(tree, e, a), b), c);
    assert [a, b] + [c] == [a, b, c];
  }

  /** M-f goes behind the next word, and M-d and Ctrl-W take it with the spaces in front of it. */
  lemma ForwardKeys(tree: Node, e: Editor, before: Text, gap: Text, word: Text, rest: Text)
    requires EditorOk(e) && PrintableTree(tree) && e.escape == Normal
    requires e.line == Edit(before + gap + word + rest, |before|) && NextWord(gap, word, rest)
    ensures PressAll(tree, e, [ESC, 0x66]) == e.(line := Edit(e.line.text, |before + gap + word|))
    ensures PressAll(tree, e, [ESC, 0x64]) == e.(line := Edit(before + rest, |before|))
    ensures PressAll(tree, e, [23]) == e.(line := Edit(before + rest, |before|))
  {
    hide EditOk, PrintableTree, WordRight, WordLeft, TabLine;
    PressTwo(tree, e, ESC, 0x66);
    PressTwo(tree, e, ESC, 0x64);
    PressOne(tree, e, 23);
    WordRightIs(before, gap, word, rest);
    var text := before + gap + word + rest;
    assert text[..|before|] == before && text[|before + gap + word|..] == rest;
  }

  /** M-b goes to the start of the last word, and M-DEL takes it with the spaces behind it. */
  lemma BackwardKeys(tree: Node, e: Editor, before: Text, word: Text, gap: Text, rest: Text, del: byte)
    requires EditorOk(e) && PrintableTree(tree) && e.escape == Normal && (del == 8 || del == 127)
    requires e.line == Edit(before + word + gap + rest, |before + word + gap|) && LastWord(before, word, gap)
    ensures PressAll(tree, e, [ESC, 0x62]) == e.(line := Edit(e.line.text, |before|))
    ensures PressAll(tree, e, [ESC, del]) == e.(line := Edit(before + rest, |before|))
  {
    hide EditOk, PrintableTree, WordRight, WordLeft, TabLine;
    PressTwo(tree, e, ESC, 0x62);
    PressTwo(tree, e, ESC, del);
    WordLeftIs(before, word, gap, rest);
    var text := before + word + gap + rest;
    assert text[..|before|] == before && text[|before + word + gap|..] == rest;
  }

  /** The keys that move the cursor, by what is before and behind it. */
  lemma CursorKeys(tree: Node, e: Editor, a: Text, b: Text)
    requires EditorOk(e) && PrintableTree(tree) && e.escape == Normal && e.line == Edit(a + b, |a|)
    ensures PressAll(tree, e, [1]) == e.(line := Edit(a + b, 0))
    ensures PressAll(tree, e, [5]) == e.(line := Edit(a + b, |a + b|))
    ensures PressAll(tree, e, [2]) == PressAll(tree, e, [ESC, BRACKET, 0x44]) == e.(line := Edit(a + b, if a == [] then 0 else |a| - 1))
    ensures PressAll(tree, e, [6]) == PressAll(tree, e, [ESC, BRACKET, 0x43]) == e.(line := Edit(a + b, if b == [] then |a| else |a| + 1))
  {
    hide EditOk, PrintableTree, WordRight, WordLeft, TabLine;
    PressOne(tree, e, 1);
    PressOne(tree, e, 5);
    PressOne(tree, e, 2);
    PressOne(tree, e, 6);
    PressThree(tree, e, ESC, BRACKET, 0x44);
    PressThree(tree, e, ESC, BRACKET, 0x43);
  }

  /** Keys that take the rest, all, or one character. */
  lemma KillKeys(tree: Node, e: Editor, a: Text, b: Text, del: byte)
    requires EditorOk(e) && PrintableTree(tree) && e.escape == Normal && e.line == Edit(a + b, |a|) && (del == 8 || del == 127)
    ensures PressAll(tree, e, [11]) == e.(line := Edit(a, |a|))
    ensures PressAll(tree, e, [21]) == e.(line := Edit([], 0))
    ensures PressAll(tree, e, [del]) == if a == [] then e else e.(line := Edit(a[..|a| - 1] + b, |a| - 1))
    ensures PressAll(tree, e, [4]) == if b == [] then e else e.(line := Edit(a + b[1..], |a|))
  {
    hide EditOk, PrintableTree, WordRight, WordLeft, TabLine, InsertChar;
    PressOne(tree, e, 11);
    PressOne(tree, e, 21);
    PressOne(tree, e, del);
    PressOne(tree, e, 4);
    var text := a + b;
    assert text[..|a|] == a;
    if a != [] { assert Cut(text, |a| - 1, |a|) == a[..|a| - 1] + b; }
    if b != [] { assert Cut(text, |a|, |a| + 1) == a + b[1..]; }
  }

  /** A printable character, but for the question mark, goes in at the cursor while there is room. */
  lemma TypeKey(tree: Node, e: Editor, a: Text, b: Text, c: byte)
    requires EditorOk(e) && PrintableTree(tree) && e.escape == Normal && e.line == Edit(a + b, |a|) && 31 < c < 127 && c != 0x3f
    ensures PressAll(tree, e, [c]) == if |a + b| + 1 >= 8192 then e else e.(line := Edit(a + [c] + b, |a| + 1))
  {
    hide EditOk, PrintableTree, WordRight, WordLeft, TabLine;
    PressOne(tree, e, c);
    assert (a + b)[..|a|] == a && (a + b)[|a|..] == b;
  }

  /** The arrows up and down are the keys for older and newer lines. */
  lemma HistoryKeys(tree: Node, e: Editor)
    requires EditorOk(e) && PrintableTree(tree) && e.escape == Normal
    ensures PressAll(tree, e, [ESC, BRACKET, 0x41]) == PressAll(tree, e, [16])
    ensures PressAll(tree, e, [ESC, BRACKET, 0x42]) == PressAll(tree, e, [14])
  {
    hide EditOk, PrintableTree, WordRight, WordLeft, TabLine, Edited;
    PressOne(tree, e, 16);
    PressOne(tree, e, 14);
    PressThree(tree, e, ESC, BRACKET, 0x41);
    PressThree(tree, e, ESC, BRACKET, 0x42);
  }

  // ----- Completion -----

  /** As much of a text as the line has room for. */
  function Fitting(text: Text): Text {
    text[..Min(|text|, 8191)]
  }

  /** The only key with a space behind it, or what all keys have in common. */
  ghost predicate Completed(keys: seq<Text>, front: Text, word: Text, text: Text) {
    if keys == [] then text == front + word
    else if |keys| == 1 then text == Fitting(front + keys[0] + [SPACE])
    else exists n: nat :: LongestCommon(keys, n) && n <= |keys[0]| && text == Fitting(front + keys[0][..n])
  }

  /** Tab completes what stands behind the last space from the tokens behind the words
      before it. */
  lemma TabKey(tree: Node, e: Editor, front: Text, word: Text)
    requires EditorOk(e) && PrintableTree(tree) && e.escape == Normal && e.line.text == front + word
    requires (front != [] ==> front[|front| - 1] == SPACE) && PIPE !in front && (word == [] || IsWord(word))
    requires Words(front) != [] || word != []
    ensures var text := PressAll(tree, e, [9]).line.text;
            && PressAll(tree, e, [9]) == e.(line := Edit(text, |text|))
            && match Base(tree, Words(front))
               case None => text == front + word
               case Some(n) => Completed(Offered(n, word), front, word, text)
  {
    hide PrintableTree, WordRight, WordLeft, Edited, Words, Base, Completed, TabAnswer, AfterTab, EditOk;
    PressOne(tree, e, 9);
    LineFits(e);
    TabTo(tree, front, word);
  }

  lemma LineFits(e: Editor)
    requires EditorOk(e)
    ensures |e.line.text| < 8192
  {
  }

  lemma TabTo(tree: Node, front: Text, word: Text)
    requires (front != [] ==> front[|front| - 1] == SPACE) && PIPE !in front && (word == [] || IsWord(word))
    requires (Words(front) != [] || word != []) && |front + word| < 8192
    ensures var text := AfterTab(front + word, TabAnswer(tree, front + word));
            match Base(tree, Words(front))
            case None => text == front + word
            case Some(n) => Completed(Offered(n, word), front, word, text)
  {
    hide Words, Base, Offered, AnswerFor, Completed, PureStart, LastWord, Finished, HasPipe;
    LastSplit(front, word);
    var base := Base(tree, Words(front));
    if base.Some? { TabText(base.value, front, word); }
  }

  lemma TabText(n: Node, front: Text, word: Text)
    requires |front + word| < 8192 && PureStart(front + word) == |front|
    ensures Completed(Offered(n, word), front, word, AfterTab(front + word, AnswerFor(Offered(n, word), word)))
  {
    hide Offered, AnswerFor, LongestCommon, PureStart;
    AnswerRight(n, word);
    var keys := Offered(n, word);
    AllStartWith(n, word, keys);
    var text := front + word;
    assert text[..|front|] == front;
    match AnswerFor(keys, word)
    case Full(key) => FullText(front, key);
    case Partial(key) =>
      assert key == keys[0][..|key|];
      PartialText(front, key);
    case Listing(_) =>
      assert keys[0][..|word|] == word;
      assert Fitting(text) == text;
    case _ =>
  }

  lemma PartialText(front: Text, key: Text)
    requires |front| < 8192
    ensures front + key[..Min(|key|, 8191 - |front|)] == Fitting(front + key)
  {
  }

  lemma FullText(front: Text, key: Text)
    requires |front| < 8192
    ensures var line := front + key[..Min(|key|, 8191 - |front|)];
            Fitting(front + key + [SPACE]) == if |line| + 1 >= 8192 then line else line + [SPACE]
  {
    var line, all := front + key[..Min(|key|, 8191 - |front|)], front + key + [SPACE];
    if |line| + 1 >= 8192 { assert all[..8191] == line; } else { assert line + [SPACE] == all; }
  }

  // ----- Old lines -----

  /** Two lines entered one behind the other: Ctrl-P goes back to the older one and Ctrl-N
      forward again, to the empty line at last. */
  lemma RecallTwo(tree: Node, e: Editor, a: Text, b: Text, enter: byte)
    requires EditorOk(e) && PrintableTree(tree) && e.escape == Normal && e.line == Edit([], 0)
    requires Printable(a + b) && QUESTION !in a + b && 0 < |a| < 8192 && 0 < |b| < 8192 && a != b && (enter == 13 || enter == 10)
    ensures var e2 := PressAll(tree, e, a + [enter] + b + [enter]);
            && PressAll(tree, e2, [16]).line == WholeLine(b) && PressAll(tree, e2, [16, 16]).line == WholeLine(a)
            && PressAll(tree, e2, [16, 16, 14]).line == WholeLine(b) && PressAll(tree, e2, [16, 14]).line == Edit([], 0)
  {
    hide PressAll, PrintableTree, Printable, EditorOk, Press, Remember;
    assert Printable(a) && Printable(b) by { PrintableParts(a, b); }
    EnterText(tree, e, a, enter);
    var e1 := PressAll(tree, e, a + [enter]);
    EnterText(tree, e1, b, enter);
    PressMore(tree, e, a + [enter], b + [enter]);
    assert a + [enter] + b + [enter] == (a + [enter]) + (b + [enter]);
    var e2 := PressAll(tree, e1, b + [enter]);
    BothRemembered(e.past, a, b);
    StepBack(tree, e2);
  }

  lemma PrintableParts(a: Text, b: Text)
    requires Printable(a + b)
    ensures Printable(a) && Printable(b)
  {
    assert forall i :: 0 <= i < |a| ==> (a + b)[i] == a[i];
    assert forall i :: 0 <= i < |b| ==> (a + b)[|a| + i] == b[i];
  }

  lemma EnterText(tree: Node, e: Editor, text: Text, enter: byte)
    requires EditorOk(e) && PrintableTree(tree) && e.escape == Normal && e.line == Edit([], 0)
    requires Printable(text) && QUESTION !in text && |text| < MAX && (enter == 13 || enter == 10)
    ensures PressAll(tree, e, text + [enter]) == e.(past := Remember(e.past, text)) && EditorOk(PressAll(tree, e, text + [enter]))
  {
    hide PressAll, PrintableTree, Printable, Edited, TabLine, EditorOk, Remember;
    TypeText(tree, e, text);
    assert [] + text == text;
    PressMore(tree, e, text, [enter]);
    PressOne(tree, PressAll(tree, e, text), enter);
  }

  lemma BothRemembered(p: Past, a: Text, b: Text)
    requires a != [] && b != [] && a != b
    ensures var q := Remember(Remember(p, a), b); |q.lines| >= 2 && q.lines[0] == b && q.lines[1] == a && q.pos == 0
  {
  }

  lemma StepBack(tree: Node, e: Editor)
    requires EditorOk(e) && PrintableTree(tree) && e.escape == Normal && |e.past.lines| >= 2 && e.past.pos == 0
    ensures PressAll(tree, e, [16]).line == WholeLine(e.past.lines[0]) && PressAll(tree, e, [16, 16]).line == WholeLine(e.past.lines[1])
    ensures PressAll(tree, e, [16, 16, 14]).line == WholeLine(e.past.lines[0]) && PressAll(tree, e, [16, 14]).line == Edit([], 0)
  {
    hide PrintableTree, Edited, TabLine, EditOk;
    PressOne(tree, e, 16);
    PressTwo(tree, e, 16, 16);
    PressTwo(tree, e, 16, 14);
    PressThree(tree, e, 16, 16, 14);
  }
}
