/** The line editor: every key changes the buffer and echoes what makes the row agree. */
module Terminals {
  import opened Basics
  import opened Screens
  import opened Histories
  import opened CommandTrees
  import opened CommandSearches
  import opened Completions
  import opened Descriptions
  import opened Listings

  const MAX: nat := 8192

  // ----- Editing as functions on a line and a cursor -----

  datatype Edit = Edit(text: Text, cp: int)

  predicate EditOk(l: Edit) {
    0 <= l.cp <= |l.text| < MAX && Printable(l.text)
  }

  function Left(l: Edit): Edit {
    if l.cp > 0 then l.(cp := l.cp - 1) else l
  }

  function Right(l: Edit): Edit {
    if l.cp < |l.text| then l.(cp := l.cp + 1) else l
  }

  /** The line without the characters from `from` to `to`. */
  function Cut(text: Text, from: int, to: int): Text
    requires 0 <= from <= to <= |text|
  {
    text[..from] + text[to..]
  }

  function DeleteLeft(l: Edit): Edit
    requires EditOk(l)
  {
    if l.cp > 0 then Edit(Cut(l.text, l.cp - 1, l.cp), l.cp - 1) else l
  }

  function DeleteRight(l: Edit): Edit
    requires EditOk(l)
  {
    if l.cp < |l.text| then Edit(Cut(l.text, l.cp, l.cp + 1), l.cp) else l
  }

  /** A full line takes no more characters. */
  function InsertChar(l: Edit, c: byte): Edit
    requires EditOk(l)
  {
    if |l.text| + 1 >= MAX then l else Edit(l.text[..l.cp] + [c] + l.text[l.cp..], l.cp + 1)
  }

  function WholeLine(text: Text): Edit {
    Edit(text, |text|)
  }

  /** A word written from `p` on, as much of it as fits. */
  function WriteWord(text: Text, p: nat, word: Text): Text
    requires p <= |text| && p < MAX
  {
    text[..p] + word[..Min(|word|, MAX - p - 1)]
  }

  /** The line after completion: the completed word in place of the last one, a space
      behind it when it is the only key. */
  function AfterTab(text: Text, c: Completion): Text
    requires |text| < MAX
  {
    match c
    case Full(key) =>
      var line := WriteWord(text, PureStart(text), key);
      if |line| + 1 >= MAX then line else line + [SPACE]
    case Partial(key) => WriteWord(text, PureStart(text), key)
    case _ => text
  }

  /** Back over spaces or over anything else. */
  function Back(text: Text, p: int, spaces: bool): (q: int)
    requires 0 <= p <= |text|
    ensures 0 <= q <= p
    decreases p
  {
    if p > 0 && (text[p - 1] == SPACE) == spaces then Back(text, p - 1, spaces) else p
  }

  function Forth(text: Text, p: int, spaces: bool): (q: int)
    requires 0 <= p <= |text|
    ensures p <= q <= |text|
    decreases |text| - p
  {
    if p < |text| && (text[p] == SPACE) == spaces then Forth(text, p + 1, spaces) else p
  }

  function WordLeft(text: Text, p: int): (q: int)
    requires 0 <= p <= |text|
    ensures 0 <= q <= p
  {
    Back(text, Back(text, p, true), false)
  }

  function WordRight(text: Text, p: int): (q: int)
    requires 0 <= p <= |text|
    ensures p <= q <= |text|
  {
    Forth(text, Forth(text, p, true), false)
  }

  // ----- The terminal -----

  const DEFAULT_NAME: Text := [67, 104, 97, 99, 111, 110, 110, 101]
  const ARROW: Text := [32, 62, 32]

  datatype Escape = Normal | PreEscape | AnsiEscape

  class Terminal {
    const prompt: Text
    const tree: Node
    const buf: array<byte>
    const hist: History
    var cp: int
    var len: int
    var escape: Escape
    /** Everything echoed so far. */
    var out: seq<byte>

    constructor (name: Text, tree: Node)
      requires Printable(name) && PrintableTree(tree)
      ensures Valid() && View() == Editor(Edit([], 0), Normal, Past([], 0)) && this.tree == tree
      ensures fresh(buf) && fresh(hist) && fresh(hist.buf)
    {
      prompt := (if name == [] then DEFAULT_NAME else name) + ARROW;
      this.tree := tree;
      buf := new byte[MAX](_ => 0);
      hist := new History();
      cp, len, escape := 0, 0, Normal;
      out := [];
      new;
      hide PrintableTree, Ascii, Feed, Shows;
      PromptPrintable(name);
      assert buf[..0] == [];
      NothingPrintable();
      PutStr(CRLF + Ascii("? - help, TAB - completion, list - all commands") + CRLF);
      PromptAgain();
    }

    ghost function Line(): Edit
      requires 0 <= len <= buf.Length
      reads this, buf
    {
      Edit(buf[..len], cp)
    }

    /** What the keys so far have made of the terminal, but for what it displays. */
    ghost function View(): Editor
      requires 0 <= len <= buf.Length && hist.Valid()
      reads this, buf, hist, hist.buf
    {
      Editor(Line(), escape, hist.View())
    }

    /** The buffer is terminated and printable. */
    ghost predicate BufferOk()
      reads this, buf
    {
      && buf.Length == MAX && 0 <= cp <= len < MAX && buf[len] == 0 && Printable(buf[..len]) && Printable(prompt)
    }

    /** The row displays prompt and line with the cursor where the next key acts. */
    ghost predicate Shown()
      requires BufferOk()
      reads this, buf
    {
      Shows(Feed(BLANK, out), prompt + buf[..len], |prompt| + cp)
    }

    ghost predicate Valid()
      reads this, buf, hist, hist.buf
    {
      BufferOk() && Shown() && Around()
    }

    /** What the commands do not touch. */
    ghost predicate Around()
      reads this, hist, hist.buf
    {
      && buf as object != hist.buf as object && hist.Valid() && PrintableTree(tree)
      && forall i :: 0 <= i < |hist.lines| ==> LineOk(hist.lines[i])
    }

    // ----- Echo -----

    method PutC(c: byte)
      modifies this`out
      ensures out == old(out) + [c]
    {
      out := out + [c];
    }

    method PutStr(s: seq<byte>)
      modifies this`out
      ensures out == old(out) + s
    {
      out := out + s;
    }

    method PutMany(c: byte, n: nat)
      modifies this`out
      ensures out == old(out) + Repeat(c, n)
    {
      var i := 0;
      while i < n
        invariant 0 <= i <= n && out == old(out) + Repeat(c, i)
      {
        PutC(c);
        i := i + 1;
      }
    }

    /** Ends the row, prints the prompt and the line, and leaves the cursor at its end. */
    method PromptAgain()
      requires BufferOk() && Around()
      modifies this`cp, this`out
      ensures Valid() && Line() == Edit(old(buf[..len]), len)
    {
      PromptAfter([]);
    }

    /** Ends the row, prints other output and then the prompt and the line.  They are all
        the row displays exactly when the output has cleared the row. */
    method PromptAfter(other: seq<byte>)
      requires BufferOk() && Around()
      modifies this`cp, this`out
      ensures BufferOk() && Around() && Line() == Edit(old(buf[..len]), len)
      ensures Shown() <==> Cleared(Feed(BLANK, other), |prompt| + len)
    {
      hide Shows, Feed, Cleared;
      PutStr(CRLF);
      NewRow(old(out), CRLF, other);
      PutStr(other);
      PrintShows(out, prompt + buf[..len]);
      PutStr(prompt);
      PutStr(buf[..len]);
      assert out == (old(out) + CRLF + other) + (prompt + buf[..len]);
      cp := len;
    }

    // ----- Moving -----

    method BackwardChar()
      requires Valid()
      modifies this`cp, this`out
      ensures Valid() && Line() == Left(old(Line()))
    {
      hide Shows, Feed;
      if cp > 0 {
        BackShows(out, prompt + buf[..len], |prompt| + cp, 1);
        cp := cp - 1;
        PutC(BS);
        assert [BS] == Repeat(BS, 1);
      }
    }

    method ForwardChar()
      requires Valid()
      modifies this`cp, this`out
      ensures Valid() && Line() == Right(old(Line()))
    {
      hide Shows, Feed;
      if cp < len {
        TypeShows(out, prompt, buf[..len], buf[..len], cp, [buf[cp]]);
        PutC(buf[cp]);
        cp := cp + 1;
      }
    }

    method BeginningOfLine()
      requires Valid()
      modifies this`cp, this`out
      ensures Valid() && Line() == Edit(old(Line().text), 0)
    {
      while cp > 0
        invariant Valid()
        decreases cp
      {
        BackwardChar();
      }
    }

    method EndOfLine()
      requires Valid()
      modifies this`cp, this`out
      ensures Valid() && Line() == Edit(old(Line().text), |old(Line().text)|)
    {
      while cp < len
        invariant Valid()
        decreases len - cp
      {
        ForwardChar();
      }
    }

    /** Steps back while the character before the cursor is a space, or is not one. */
    method BackwardOver(spaces: bool)
      requires Valid()
      modifies this`cp, this`out
      ensures Valid() && cp == old(Back(buf[..len], cp, spaces))
    {
      while cp > 0 && (buf[cp - 1] == SPACE) == spaces
        invariant Valid() && Back(buf[..len], cp, spaces) == old(Back(buf[..len], cp, spaces))
        decreases cp
      {
        BackwardChar();
      }
    }

    method ForwardOver(spaces: bool)
      requires Valid()
      modifies this`cp, this`out
      ensures Valid() && cp == old(Forth(buf[..len], cp, spaces))
    {
      while cp < len && (buf[cp] == SPACE) == spaces
        invariant Valid() && Forth(buf[..len], cp, spaces) == old(Forth(buf[..len], cp, spaces))
        decreases len - cp
      {
        ForwardChar();
      }
    }

    // ----- Editing -----

    /** Moves the characters from `from` on one place to the left. */
    method ShiftLeft(from: int)
      requires BufferOk() && 0 < from <= len
      modifies this`len, buf
      ensures len == old(len) - 1 && buf[len] == 0 && buf[..len] == old(Cut(buf[..len], from - 1, from))
    {
      var i := from;
      while i < len
        invariant from <= i <= len
        invariant forall k :: 0 <= k < buf.Length ==> buf[k] == if from - 1 <= k < i - 1 then old(buf[k + 1]) else old(buf[k])
        modifies buf
      {
        buf[i - 1] := buf[i];
        i := i + 1;
      }
      len := len - 1;
      buf[len] := 0;
    }

    /** Prints the line from the cursor on, a blank over the character that is gone, and
        comes back. */
    method RedrawTail(ghost was: Text)
      requires BufferOk() && Around() && TypedOver(was, buf[..len], cp, buf[cp..len] + [SPACE])
      requires Shows(Feed(BLANK, out), prompt + was, |prompt| + cp)
      modifies this`out
      ensures Valid()
    {
      hide Shows, Feed, TypedOver;
      var mv := len - cp;
      ghost var tail := buf[cp..len] + [SPACE];
      assert Printable(tail) by { assert forall k :: 0 <= k < mv ==> tail[k] == buf[..len][cp + k]; }
      TypeShows(out, prompt, was, buf[..len], cp, tail);
      ghost var start := out;
      PutStr(buf[cp..cp + mv]);
      PutC(SPACE);
      assert out == start + tail;
      BackShows(out, prompt + buf[..len], |prompt| + cp + mv + 1, mv + 1);
      PutMany(BS, mv + 1);
    }

    method DeleteBackwardChar()
      requires Valid()
      modifies this`cp, this`len, this`out, buf
      ensures Valid() && Line() == DeleteLeft(old(Line()))
    {
      hide Shows, Feed, TypedOver;
      if cp > 0 {
        ghost var was := buf[..len];
        BackShows(out, prompt + was, |prompt| + cp, 1);
        CutOver(was, cp - 1);
        ShiftLeft(cp);
        cp := cp - 1;
        PutC(BS);
        assert [BS] == Repeat(BS, 1);
        assert buf[cp..len] == buf[..len][cp..];
        RedrawTail(was);
      }
    }

    method DeleteChar()
      requires Valid()
      modifies this`len, this`out, buf
      ensures Valid() && Line() == DeleteRight(old(Line()))
    {
      hide Shows, Feed, TypedOver;
      if cp < len {
        ghost var was := buf[..len];
        CutOver(was, cp);
        ShiftLeft(cp + 1);
        assert buf[cp..len] == buf[..len][cp..];
        RedrawTail(was);
      }
    }

    method SelfInsert(c: byte)
      requires Valid() && 31 < c < 127
      modifies this`cp, this`len, this`out, buf
      ensures Valid() && Line() == InsertChar(old(Line()), c)
    {
      hide Shows, Feed, TypedOver, Printable;
      if len + 1 >= MAX {
        return;
      }
      ghost var was := buf[..len];
      InsertOver(was, cp, c);
      StoreChar(c);
      var mv := len - cp;
      ghost var tail := buf[..len][cp - 1..];
      PrintableDrop(buf[..len], cp - 1);
      TypeShows(out, prompt, was, buf[..len], cp - 1, tail);
      PutC(c);
      if mv > 0 {
        PutStr(buf[cp..cp + mv]);
        assert out == old(out) + tail;
        BackShows(out, prompt + buf[..len], |prompt| + cp + mv, mv);
        PutMany(BS, mv);
      } else {
        assert tail == [c];
      }
    }

    /** Stores a character at the cursor and steps over it. */
    method StoreChar(c: byte)
      requires BufferOk() && len + 1 < MAX && 31 < c < 127
      modifies this`cp, this`len, buf
      ensures BufferOk() && len == old(len) + 1 && cp == old(cp) + 1
      ensures buf[..len] == old(buf[..len][..cp] + [c] + buf[..len][cp..])
    {
      hide Printable;
      ghost var was := buf[..len];
      ghost var after := was[..cp] + [c] + was[cp..];
      PrintableInsert(was, cp, c);
      OpenGap();
      buf[cp] := c;
      assert forall k :: 0 <= k < |after| ==> buf[k] == after[k];
      cp := cp + 1;
      len := len + 1;
      buf[len] := 0;
      assert buf[..len] == after;
    }

    /** Moves the characters from the cursor on, and the terminator, one place to the right. */
    method OpenGap()
      requires BufferOk() && len + 1 < MAX
      modifies buf
      ensures forall k :: 0 <= k < cp ==> buf[k] == old(buf[k])
      ensures forall k :: cp < k <= len ==> buf[k] == old(buf[k - 1])
    {
      if cp < len {
        var i := len + 1;
        while i > cp
          invariant cp <= i <= len + 1
          invariant forall k :: 0 <= k <= len + 1 ==> buf[k] == if i < k then old(buf[k - 1]) else old(buf[k])
        {
          buf[i] := buf[i - 1];
          i := i - 1;
        }
      }
    }

    /** Blanks the line from the cursor on. */
    method KillLine()
      requires Valid()
      modifies this`len, this`out, buf
      ensures Valid() && Line() == old(Edit(buf[..cp], cp))
    {
      hide Shows, Feed, TypedOver;
      var n := len - cp;
      if n == 0 {
        return;
      }
      ghost var was := buf[..len];
      KillOver(was, cp);
      TypeShows(out, prompt, was, was[..cp], cp, Repeat(SPACE, n));
      PutMany(SPACE, n);
      BackShows(out, prompt + was[..cp], |prompt| + len, n);
      PutMany(BS, n);
      forall i | cp <= i < len {
        buf[i] := 0;
      }
      len := cp;
      assert buf[..len] == was[..cp];
    }

    method KillLineFromBeginning()
      requires Valid()
      modifies this`cp, this`len, this`out, buf
      ensures Valid() && Line() == Edit([], 0)
    {
      BeginningOfLine();
      KillLine();
    }

    /** Deletes backwards while the character before the cursor is a space, or is not one. */
    method DeleteBackwardOver(spaces: bool)
      requires Valid()
      modifies this`cp, this`len, this`out, buf
      ensures Valid() && Line() == old(var p := Back(buf[..len], cp, spaces); Edit(Cut(buf[..len], p, cp), p))
    {
      hide Shown, Printable, Around, Cut, Back;
      ghost var text, start := buf[..len], cp;
      CutNothing(text, cp);
      while cp > 0 && (buf[cp - 1] == SPACE) == spaces
        invariant Valid() && cp <= start && Line().text == Cut(text, cp, start)
        invariant Back(text, cp, spaces) == Back(text, start, spaces)
        decreases cp
      {
        KillBack(text, cp, start, spaces);
        DeleteBackwardChar();
      }
      KillBack(text, cp, start, spaces);
    }

    method DeleteForwardOver(spaces: bool)
      requires Valid()
      modifies this`len, this`out, buf
      ensures Valid() && Line() == old(Edit(Cut(buf[..len], cp, Forth(buf[..len], cp, spaces)), cp))
    {
      hide Shown, Printable, Around, Cut, Forth;
      ghost var text, q := buf[..len], cp;
      CutNothing(text, cp);
      while cp < len && (buf[cp] == SPACE) == spaces
        invariant Valid() && cp <= q <= |text| && Line().text == Cut(text, cp, q)
        invariant Forth(text, q, spaces) == Forth(text, cp, spaces)
        decreases |text| - q
      {
        KillForth(text, cp, q, spaces);
        DeleteChar();
        q := q + 1;
      }
      KillForth(text, cp, q, spaces);
    }

    method BackwardKillWord()
      requires Valid()
      modifies this`cp, this`len, this`out, buf
      ensures Valid() && Line() == old(var p := WordLeft(buf[..len], cp); Edit(Cut(buf[..len], p, cp), p))
    {
      hide Shows, Feed, Shown, Printable;
      ghost var text, start := buf[..len], cp;
      DeleteBackwardOver(true);
      ghost var mid := cp;
      BackBefore(text, Cut(text, mid, start), mid, false);
      DeleteBackwardOver(false);
      assert Cut(Cut(text, mid, start), cp, mid) == Cut(text, cp, start);
    }

    method ForwardKillWord()
      requires Valid()
      modifies this`len, this`out, buf
      ensures Valid() && Line() == old(Edit(Cut(buf[..len], cp, WordRight(buf[..len], cp)), cp))
    {
      hide Shows, Feed, Shown, Printable;
      ghost var text := buf[..len];
      ghost var q := Forth(text, cp, true);
      DeleteForwardOver(true);
      ForthBehind(text, cp, q, cp, false);
      CutTwice(text, cp, q, Forth(text, q, false));
      DeleteForwardOver(false);
    }

    /** Replaces the whole line by one from the history. */
    method HistoryPrint(line: Text)
      requires Valid() && LineOk(line)
      modifies this`cp, this`len, this`out, buf
      ensures Valid() && Line() == Edit(line, |line|)
    {
      hide Shows, Feed, TypedOver;
      KillLineFromBeginning();
      forall i | 0 <= i < |line| {
        buf[i] := line[i];
      }
      len := |line|;
      cp := len;
      buf[len] := 0;
      assert buf[..len] == line;
      EmptyOver(line);
      TypeShows(out, prompt, [], line, 0, line);
      PutStr(buf[..len]);
      cp := len;
    }

    method PreviousLine()
      requires Valid()
      modifies this`cp, this`len, this`out, buf, hist`cp
      ensures Valid() && View() == ShowOlder(old(View()))
    {
      hide Shows, Feed;
      var line := hist.Previous();
      if line.Some? {
        HistoryPrint(line.value);
      }
    }

    method NextLine()
      requires Valid()
      modifies this`cp, this`len, this`out, buf, hist`cp
      ensures Valid() && View() == ShowNewer(old(View()))
    {
      hide Shows, Feed;
      var line := hist.Next();
      if line.Some? {
        HistoryPrint(line.value);
      }
    }

    method BackwardWord()
      requires Valid()
      modifies this`cp, this`out
      ensures Valid() && cp == old(WordLeft(buf[..len], cp))
    {
      BackwardOver(true);
      BackwardOver(false);
    }

    method ForwardWord()
      requires Valid()
      modifies this`cp, this`out
      ensures Valid() && cp == old(WordRight(buf[..len], cp))
    {
      ForwardOver(true);
      ForwardOver(false);
    }

    // ----- Completion, help and execution -----

    /** Writes a word over the rest of the line, as much of it as fits. */
    method InsertWordOverwrite(word: Text)
      requires Valid() && Printable(word) && len - cp <= |word|
      modifies this`cp, this`len, this`out, buf
      ensures Valid()
      ensures Line() == old(var text := buf[..cp] + word[..Min(|word|, MAX - cp - 1)]; Edit(text, |text|))
    {
      hide Shows, Feed, TypedOver, Printable;
      var n := |word|;
      if n > MAX - cp - 1 {
        n := MAX - cp - 1;
      }
      ghost var was := buf[..len];
      WordOver(was, cp, word[..n]);
      PrintableWord(was, cp, word, n);
      TypeShows(out, prompt, was, was[..cp] + word[..n], cp, word[..n]);
      StoreWord(word[..n]);
      PutStr(word[..n]);
    }

    /** Stores a word from the cursor on and ends the line behind it. */
    method StoreWord(word: Text)
      requires buf.Length == MAX && 0 <= cp <= len < MAX && cp + |word| < MAX
      modifies this`cp, this`len, buf
      ensures len == cp == old(cp) + |word| && buf[len] == 0 && buf[..len] == old(buf[..len])[..old(cp)] + word
    {
      forall k | cp <= k < cp + |word| {
        buf[k] := word[k - cp];
      }
      cp := cp + |word|;
      len := cp;
      buf[len] := 0;
    }

    /** Puts the completed word in place of the last one, which it extends. */
    method TakeWord(word: Text)
      requires Valid() && cp == len && Printable(word) && Line().text[PureStart(Line().text)..] <= word
      modifies this`cp, this`len, this`out, buf
      ensures Valid() && old(Line().text) <= Line().text
      ensures Line() == old(WholeLine(WriteWord(Line().text, PureStart(Line().text), word)))
    {
      hide Shown, Printable, Around, PureStart;
      ghost var text := buf[..len];
      PureStartIsBack(text);
      OverwriteExtends(text, word, MAX - 1);
      BackwardOver(false);
      assert buf[..cp] == text[..cp];
      InsertWordOverwrite(word);
    }

    method PrintKeys(keys: seq<Text>)
      modifies this`out
      ensures out == old(out) + Columns(keys)
    {
      hide Padded;
      var i := 0;
      while i < |keys|
        invariant 0 <= i <= |keys| && out == old(out) + Columns(keys[..i])
      {
        ColumnsNext(keys, i);
        if i > 0 && i % 5 == 0 {
          PutStr(CRLF);
        }
        PutStr(Padded(keys[i], CELL));
        i := i + 1;
      }
      assert keys[..i] == keys;
    }

    /** Completes the last word.  The old line is a prefix of the new one. */
    method CompleteCommand() returns (c: Completion)
      requires Valid()
      modifies this`cp, this`len, this`out, buf
      ensures Completes(tree, old(Line().text), c)
      ensures Valid() && Line() == TabLine(tree, old(Line().text)) && old(Line().text) <= Line().text
    {
      hide Shown, PrintableTree, Printable, Completes, PureStart, WriteWord, TabAnswer;
      ghost var was := buf[..len];
      c := Complete(tree, buf[..len]);
      match c
      case Unmatched =>
        PutStr(CRLF);
        PutStr(Ascii("% No matched command."));
        PromptAgain();
      case Full(key) =>
        PromptAgain();
        CompletedWord(tree, was, c);
        TakeWord(key);
        AppendSpace(Line());
        SelfInsert(SPACE);
      case Partial(key) =>
        PromptAgain();
        CompletedWord(tree, was, c);
        TakeWord(key);
      case Listing(keys) =>
        PutStr(CRLF);
        PrintKeys(keys);
        PromptAgain();
      case Nothing =>
        PromptAgain();
    }

    /** Prints help on the line so far; the row is in step behind it. */
    method DescribeCommand()
      requires Valid()
      modifies this`cp, this`out
      ensures Valid() && Line() == WholeLine(old(Line().text))
      ensures out == old(out) + CRLF + HelpText(HelpFor(tree, Line().text)) + (prompt + Line().text)
    {
      hide Shows, Feed, HelpFor, HelpText, Printable, PrintableTree;
      ghost var help := HelpFor(tree, buf[..len]);
      var found, keys, descs, cr := Describe(tree, buf[..len]);
      HelpClears(help);
      ghost var row := out + CRLF;
      NewRow(out, CRLF, HelpText(help));
      PutStr(CRLF);
      PrintHelp(found, keys, descs, cr, help);
      PrintableJoin(prompt, buf[..len]);
      PrintShows(out, prompt + buf[..len]);
      PutStr(prompt);
      PutStr(buf[..len]);
      assert out == (row + HelpText(help)) + (prompt + buf[..len]);
      cp := len;
    }

    /** The tokens that can follow, with their descriptions in one column. */
    method PrintHelp(found: bool, keys: seq<Text>, descs: seq<Text>, cr: bool, ghost help: Help)
      requires match help
               case NoHelp => found && keys == descs == [] && !cr
               case Unknown => !found
               case Choices(topics, complete) => found && keys == KeysOf(topics) && descs == DescsOf(topics) && cr == complete
      modifies this`out
      ensures out == old(out) + HelpText(help)
    {
      hide HelpRows, Widest, UNKNOWN, COMPLETE, KeysOf, DescsOf;
      if !found {
        PutStr(UNKNOWN);
        return;
      }
      var width := WidestKey(keys);
      NoRows(width);
      PrintRows(keys, descs, width);
      if cr {
        PutStr(COMPLETE);
      }
    }

    method WidestKey(keys: seq<Text>) returns (width: nat)
      ensures width == Widest(keys)
    {
      width := 0;
      var i := 0;
      while i < |keys|
        invariant 0 <= i <= |keys| && width == Widest(keys[..i])
      {
        assert keys[..i + 1][..i] == keys[..i];
        if width < |keys[i]| {
          width := |keys[i]|;
        }
        i := i + 1;
      }
      assert keys[..i] == keys;
    }

    method PrintRows(keys: seq<Text>, descs: seq<Text>, width: nat)
      requires |keys| == |descs|
      modifies this`out
      ensures out == old(out) + HelpRows(keys, descs, width)
    {
      hide HelpRow;
      var i := 0;
      while i < |keys|
        invariant 0 <= i <= |keys| && out == old(out) + HelpRows(keys[..i], descs[..i], width)
      {
        assert keys[..i + 1][..i] == keys[..i] && descs[..i + 1][..i] == descs[..i];
        PutStr(HelpRow(keys[i], descs[i], width));
        PutStr(CRLF);
        i := i + 1;
      }
      assert keys[..i] == keys && descs[..i] == descs;
    }

    /** Executes the line and starts a new one; `reply` is what a handler prints.  The row is
        in step unless a handler was called whose output has not cleared it. */
    method ExecuteCommand(reply: seq<byte>) returns (outcome: Option<Outcome>)
      requires Valid()
      modifies this`cp, this`len, this`out, buf, hist, hist.buf
      ensures outcome == LineOutcome(tree, old(Line().text))
      ensures BufferOk() && Around() && Line() == Edit([], 0)
      ensures Shown() <==> (Called(outcome) ==> Cleared(Feed(BLANK, reply), |prompt|))
      ensures hist.View() == Remember(old(hist.View()), old(Line().text))
    {
      hide Shows, Feed, Printable, LineOutcome, ErrorText;
      outcome := ExecuteLine(tree, buf[..len]);
      ErrorClears(outcome, buf[..len]);
      var text := if Called(outcome) then reply else ErrorText(outcome, buf[..len]);
      hist.Add(buf[..len]);
      cp := 0;
      len := 0;
      buf[0] := 0;
      NothingPrintable();
      assert buf[..0] == [];
      PromptAfter(text);
    }

    // ----- Keys -----

    /** One key; `reply` is what the handler prints, if the key calls one.  The line, the
        escape state and the history are those of `Press`, and the row is in step unless a
        handler has not cleared it. */
    method Read(c: byte, reply: seq<byte>)
      requires Valid()
      modifies this, buf, hist, hist.buf
      ensures BufferOk() && Around() && View() == Press(tree, old(View()), c)
      ensures Valid() <==> (Calls(tree, old(View()), c) ==> Cleared(Feed(BLANK, reply), |prompt|))
    {
      hide Shows, Feed, PrintableTree, Cleared, Printable, TabLine, LineOutcome, Edited, Remember, Older, Newer, Words, HelpText, HelpFor, Completes;
      if escape == AnsiEscape {
        ReadAnsi(c);
        escape := Normal;
      } else if escape == PreEscape {
        escape := Normal;
        if c == 0x5b {
          escape := AnsiEscape;
        } else {
          ReadMeta(c);
        }
      } else if c == 27 {
        escape := PreEscape;
      } else if c == QUESTION {
        DescribeCommand();
      } else if c == TAB {
        var _ := CompleteCommand();
      } else if c == LF || c == CR {
        var _ := ExecuteCommand(reply);
      } else {
        ReadNormal(c);
      }
    }

    method ReadAnsi(c: byte)
      requires Valid()
      modifies this`cp, this`len, this`out, buf, hist`cp
      ensures Valid() && View() == PressAnsi(old(View()), c)
    {
      hide Shown, Around, Printable;
      if c == 0x41 {
        PreviousLine();
      } else if c == 0x42 {
        NextLine();
      } else if c == 0x43 {
        ForwardChar();
      } else if c == 0x44 {
        BackwardChar();
      }
    }

    method ReadMeta(c: byte)
      requires Valid()
      modifies this`cp, this`len, this`out, buf
      ensures Valid() && Line() == Edited(PreEscape, old(Line()), c)
    {
      hide Shown, Around, Printable, WordLeft, WordRight, Cut;
      if c == 0x62 {
        BackwardWord();
      } else if c == 0x66 {
        ForwardWord();
      } else if c == 0x64 {
        ForwardKillWord();
      } else if c == BS || c == DEL {
        BackwardKillWord();
      }
    }

    method ReadNormal(c: byte)
      requires Valid() && c !in {27, QUESTION, TAB, LF, CR}
      modifies this`cp, this`len, this`out, buf, hist`cp
      ensures Valid() && View() == PressNormal(old(View()), c)
    {
      hide Shown, Around, Printable, WordRight, Cut;
      if c == Ctrl(0x42) {
        BackwardChar();
      } else if c == Ctrl(0x46) {
        ForwardChar();
      } else if c == BS || c == DEL {
        DeleteBackwardChar();
      } else if c == Ctrl(0x44) {
        DeleteChar();
      } else if c == Ctrl(0x41) {
        BeginningOfLine();
      } else if c == Ctrl(0x45) {
        EndOfLine();
      } else if c == Ctrl(0x4e) {
        NextLine();
      } else if c == Ctrl(0x50) {
        PreviousLine();
      } else if c == Ctrl(0x55) {
        KillLineFromBeginning();
      } else if c == Ctrl(0x4b) {
        KillLine();
      } else if c == Ctrl(0x57) {
        ForwardKillWord();
      } else if 31 < c < 127 {
        SelfInsert(c);
      }
    }

    /** Any sequence of keys, each with what its handler prints if it calls one. */
    method Session(keys: seq<byte>, replies: seq<seq<byte>>)
      requires Valid() && |replies| == |keys|
      requires forall i :: 0 <= i < |keys| && Calls(tree, PressAll(tree, View(), keys[..i]), keys[i]) ==>
                 Cleared(Feed(BLANK, replies[i]), |prompt|)
      modifies this, buf, hist, hist.buf
      ensures Valid() && View() == PressAll(tree, old(View()), keys)
    {
      hide Shows, Feed, Cleared, Press, Calls, PrintableTree, Printable, PressAll;
      var i := 0;
      PressNone(tree, View(), keys);
      while i < |keys|
        invariant 0 <= i <= |keys| && Valid() && View() == PressAll(tree, old(View()), keys[..i])
      {
        PressNext(tree, old(View()), keys, i);
        Read(keys[i], replies[i]);
        i := i + 1;
      }
      assert keys[..i] == keys;
    }
  }

  // ----- What the keys mean -----

  const TAB: byte := 9
  const DEL: byte := 0x7f
  const QUESTION: byte := 0x3f

  function Ctrl(c: byte): byte
    requires 64 <= c
  {
    c - 64
  }

  /** What a terminal is to its user: the line, the escape state and the history. */
  datatype Editor = Editor(line: Edit, escape: Escape, past: Past)

  ghost predicate EditorOk(e: Editor) {
    EditOk(e.line) && e.past.pos <= |e.past.lines| && forall i :: 0 <= i < |e.past.lines| ==> LineOk(e.past.lines[i])
  }

  /** Another line of the history replaces the line, if there is one. */
  function ShowPast(e: Editor, p: Past): Editor
    requires p.pos <= |p.lines|
  {
    if p == e.past then e else e.(past := p, line := WholeLine(LineAt(p)))
  }

  function ShowOlder(e: Editor): Editor
    requires e.past.pos <= |e.past.lines|
  {
    ShowPast(e, Older(e.past))
  }

  function ShowNewer(e: Editor): Editor
    requires e.past.pos <= |e.past.lines|
  {
    ShowPast(e, Newer(e.past))
  }

  ghost function TabLine(tree: Node, text: Text): Edit
    requires |text| < MAX
  {
    WholeLine(AfterTab(text, TabAnswer(tree, text)))
  }

  function PressAnsi(e: Editor, c: byte): Editor
    requires EditorOk(e)
  {
    if c == 0x41 then ShowOlder(e) else if c == 0x42 then ShowNewer(e) else e.(line := Edited(AnsiEscape, e.line, c))
  }

  function PressNormal(e: Editor, c: byte): Editor
    requires EditorOk(e)
  {
    if c == Ctrl(0x50) then ShowOlder(e) else if c == Ctrl(0x4e) then ShowNewer(e) else e.(line := Edited(Normal, e.line, c))
  }

  /** What a key means. */
  ghost function Press(tree: Node, e: Editor, c: byte): Editor
    requires EditorOk(e)
  {
    match e.escape
    case AnsiEscape => PressAnsi(e, c).(escape := Normal)
    case PreEscape => if c == 0x5b then e.(escape := AnsiEscape) else e.(escape := Normal, line := Edited(PreEscape, e.line, c))
    case Normal =>
      if c == 27 then e.(escape := PreEscape)
      else if c == QUESTION then e.(line := WholeLine(e.line.text))
      else if c == TAB then e.(line := TabLine(tree, e.line.text))
      else if c == LF || c == CR then e.(line := Edit([], 0), past := Remember(e.past, e.line.text))
      else PressNormal(e, c)
  }

  predicate Called(o: Option<Outcome>) {
    o.Some? && o.value.Reached?
  }

  /** The key calls a handler. */
  ghost predicate Calls(tree: Node, e: Editor, c: byte) {
    e.escape == Normal && (c == LF || c == CR) && Called(LineOutcome(tree, e.line.text))
  }

  ghost function PressAll(tree: Node, e: Editor, cs: seq<byte>): (r: Editor)
    requires EditorOk(e) && PrintableTree(tree)
    ensures EditorOk(r)
    decreases |cs|
  {
    if cs == [] then e
    else
      var before := PressAll(tree, e, cs[..|cs| - 1]);
      PressOk(tree, before, cs[|cs| - 1]);
      Press(tree, before, cs[|cs| - 1])
  }

  lemma PressNone(tree: Node, e: Editor, cs: seq<byte>)
    requires EditorOk(e) && PrintableTree(tree)
    ensures PressAll(tree, e, cs[..0]) == e
  {
  }

  lemma PressNext(tree: Node, e: Editor, cs: seq<byte>, i: nat)
    requires EditorOk(e) && PrintableTree(tree) && i < |cs|
    ensures PressAll(tree, e, cs[..i + 1]) == Press(tree, PressAll(tree, e, cs[..i]), cs[i])
  {
    assert cs[..i + 1][..i] == cs[..i];
  }

  lemma {:induction false} PressMore(tree: Node, e: Editor, a: seq<byte>, b: seq<byte>)
    requires EditorOk(e) && PrintableTree(tree)
    ensures PressAll(tree, e, a + b) == PressAll(tree, PressAll(tree, e, a), b)
    decreases |b|
  {
    hide Press, EditorOk, PrintableTree;
    if b == [] {
      assert a + b == a;
    } else {
      var n := |b| - 1;
      assert (a + b)[..|a + b| - 1] == a + b[..n];
      PressMore(tree, e, a, b[..n]);
    }
  }

  lemma PressOne(tree: Node, e: Editor, c: byte)
    requires EditorOk(e) && PrintableTree(tree)
    ensures PressAll(tree, e, [c]) == Press(tree, e, c)
  {
    assert [c][..0] == [];
  }

  /** Printable text without a question mark, typed at the end of the line, is appended. */
  lemma {:induction false} TypeText(tree: Node, e: Editor, text: Text)
    requires EditorOk(e) && PrintableTree(tree) && e.escape == Normal && e.line.cp == |e.line.text|
    requires Printable(text) && QUESTION !in text && |e.line.text| + |text| < MAX
    ensures PressAll(tree, e, text) == e.(line := WholeLine(e.line.text + text))
    decreases |text|
  {
    hide Press, EditOk, PrintableTree;
    if text == [] {
      assert e.line.text + text == e.line.text;
    } else {
      var n := |text| - 1;
      TypeText(tree, e, text[..n]);
      assert (e.line.text + text[..n]) + [text[n]] == e.line.text + text;
      TypeOne(tree, e.(line := WholeLine(e.line.text + text[..n])), text[n]);
    }
  }

  lemma TypeOne(tree: Node, e: Editor, c: byte)
    requires EditorOk(e) && e.escape == Normal && e.line.cp == |e.line.text| && |e.line.text| + 1 < MAX
    requires 31 < c < 127 && c != QUESTION
    ensures Press(tree, e, c) == e.(line := WholeLine(e.line.text + [c]))
  {
    hide WordLeft, WordRight, Printable;
    assert e.line.text[..e.line.cp] + [c] + e.line.text[e.line.cp..] == e.line.text + [c];
  }

  /** Typing a line, entering it and going back brings the line back. */
  lemma RecallLine(tree: Node, e: Editor, text: Text, enter: byte)
    requires EditorOk(e) && PrintableTree(tree) && e.escape == Normal && e.line == Edit([], 0)
    requires Printable(text) && QUESTION !in text && 0 < |text| < MAX && (enter == CR || enter == LF)
    ensures PressAll(tree, e, text + [enter] + [Ctrl(0x50)]).line == WholeLine(text)
  {
    hide PressAll, PrintableTree, Printable, Edited, TabLine;
    TypeText(tree, e, text);
    assert [] + text == text;
    var typed := PressAll(tree, e, text);
    PressMore(tree, e, text, [enter]);
    PressOne(tree, typed, enter);
    var entered := PressAll(tree, e, text + [enter]);
    assert entered.past.lines != [] && entered.past.lines[0] == text && entered.past.pos == 0;
    PressMore(tree, e, text + [enter], [Ctrl(0x50)]);
    PressOne(tree, entered, Ctrl(0x50));
  }

  /** Going back `k` lines shows the line entered `k` lines ago. */
  lemma {:induction false} GoBack(tree: Node, e: Editor, k: nat)
    requires EditorOk(e) && PrintableTree(tree) && e.escape == Normal && e.past.pos == 0 && 1 <= k <= |e.past.lines|
    ensures PressAll(tree, e, Repeat(Ctrl(0x50), k)) == Editor(WholeLine(e.past.lines[k - 1]), Normal, Past(e.past.lines, k))
    decreases k
  {
    hide Edited, EditOk, TabLine, PrintableTree, LineOk;
    assert Repeat(Ctrl(0x50), k)[..k - 1] == Repeat(Ctrl(0x50), k - 1);
    if k == 1 {
      assert Repeat(Ctrl(0x50), 0) == [];
    } else {
      GoBack(tree, e, k - 1);
    }
  }

  /** Going forward as far as one has gone back shows the empty line. */
  lemma {:induction false} GoForth(tree: Node, e: Editor, k: nat)
    requires EditorOk(e) && PrintableTree(tree) && e.escape == Normal && 1 <= k <= e.past.pos
    ensures PressAll(tree, e, Repeat(Ctrl(0x4e), k)) ==
            Editor(WholeLine(LineAt(Past(e.past.lines, e.past.pos - k))), Normal, Past(e.past.lines, e.past.pos - k))
    decreases k
  {
    hide Edited, EditOk, TabLine, PrintableTree, LineOk;
    assert Repeat(Ctrl(0x4e), k)[..k - 1] == Repeat(Ctrl(0x4e), k - 1);
    if k == 1 {
      assert Repeat(Ctrl(0x4e), 0) == [];
    } else {
      GoForth(tree, e, k - 1);
    }
  }

  /** Every key keeps the cursor in the line and the line in the buffer and printable. */
  lemma PressOk(tree: Node, e: Editor, c: byte)
    requires EditorOk(e) && PrintableTree(tree)
    ensures EditorOk(Press(tree, e, c))
  {
    hide Edited, EditOk, TabLine;
    EditedOk(e.escape, e.line, c);
    TabOk(tree, e.line);
    PastOk(e, Older(e.past));
    PastOk(e, Newer(e.past));
    LineIsOk(e.line);
  }

  lemma LineIsOk(l: Edit)
    requires EditOk(l)
    ensures LineOk(l.text) && EditOk(WholeLine(l.text)) && EditOk(Edit([], 0))
  {
  }

  lemma PastOk(e: Editor, p: Past)
    requires EditorOk(e) && p.pos <= |p.lines| && p.lines == e.past.lines
    ensures EditorOk(ShowPast(e, p))
  {
    LineIsOk(e.line);
  }

  lemma EditedOk(e: Escape, l: Edit, c: byte)
    requires EditOk(l)
    ensures EditOk(Edited(e, l, c))
  {
    hide WordLeft, WordRight, Printable, Cut;
    CutOk(l, if l.cp > 0 then l.cp - 1 else l.cp, l.cp);
    CutOk(l, l.cp, if l.cp < |l.text| then l.cp + 1 else l.cp);
    CutOk(l, l.cp, WordRight(l.text, l.cp));
    CutOk(l, WordLeft(l.text, l.cp), l.cp);
    CutOk(l, l.cp, |l.text|);
    CutOk(l, 0, |l.text|);
    if 31 < c < 127 { PrintableInsert(l.text, l.cp, c); }
  }

  lemma CutOk(l: Edit, from: int, to: int)
    requires EditOk(l) && 0 <= from <= to <= |l.text|
    ensures |Cut(l.text, from, to)| == |l.text| - (to - from) && Printable(Cut(l.text, from, to))
    ensures Cut(l.text, from, |l.text|) == l.text[..from] && Cut(l.text, 0, |l.text|) == []
  {
  }

  lemma TabOk(tree: Node, l: Edit)
    requires EditOk(l) && PrintableTree(tree)
    ensures EditOk(TabLine(tree, l.text))
  {
    hide Completes, PrintableTree, TabAnswer;
    var c, text := TabAnswer(tree, l.text), l.text;
    TabCompletes(tree, text);
    if c.Full? || c.Partial? {
      CompletedWord(tree, text, c);
      var p := PureStart(text);
      PrintableWord(text, p, c.key, Min(|c.key|, MAX - p - 1));
    }
  }

  lemma AppendSpace(l: Edit)
    requires EditOk(l) && l.cp == |l.text|
    ensures InsertChar(l, SPACE) == if |l.text| + 1 >= MAX then l else WholeLine(l.text + [SPACE])
  {
  }

  /** What a key does to the line that does not ask for history, a command or help. */
  function Edited(e: Escape, l: Edit, c: byte): Edit
    requires EditOk(l)
  {
    match e
    case Normal =>
      if c == Ctrl(0x42) then Left(l)
      else if c == Ctrl(0x46) then Right(l)
      else if c == BS || c == DEL then DeleteLeft(l)
      else if c == Ctrl(0x44) then DeleteRight(l)
      else if c == Ctrl(0x41) then l.(cp := 0)
      else if c == Ctrl(0x45) then l.(cp := |l.text|)
      else if c == Ctrl(0x55) then Edit([], 0)
      else if c == Ctrl(0x4b) then Edit(l.text[..l.cp], l.cp)
      else if c == Ctrl(0x57) then Edit(Cut(l.text, l.cp, WordRight(l.text, l.cp)), l.cp)
      else if 31 < c < 127 then InsertChar(l, c)
      else l
    case PreEscape =>
      if c == 0x62 then l.(cp := WordLeft(l.text, l.cp))
      else if c == 0x66 then l.(cp := WordRight(l.text, l.cp))
      else if c == 0x64 then Edit(Cut(l.text, l.cp, WordRight(l.text, l.cp)), l.cp)
      else if c == BS || c == DEL then
        var p := WordLeft(l.text, l.cp);
        Edit(Cut(l.text, p, l.cp), p)
      else l
    case AnsiEscape => if c == 0x43 then Right(l) else if c == 0x44 then Left(l) else l
  }

  lemma NoRows(width: nat)
    ensures HelpRows([], [], width) == []
  {
  }

  lemma PrintableJoin(a: Text, b: Text)
    requires Printable(a) && Printable(b)
    ensures Printable(a + b)
  {
  }

  lemma PrintableDrop(t: Text, n: nat)
    requires n <= |t| && Printable(t)
    ensures Printable(t[n..])
  {
  }

  lemma PromptPrintable(name: Text)
    requires Printable(name)
    ensures Printable((if name == [] then DEFAULT_NAME else name) + ARROW)
  {
  }

  lemma NothingPrintable()
    ensures Printable([])
  {
  }

  lemma {:induction false} PureStartIsBack(text: Text)
    ensures Back(text, |text|, false) == PureStart(text)
    decreases |text|
  {
    if text != [] && text[|text| - 1] != SPACE {
      PureStartIsBack(text[..|text| - 1]);
      BackBefore(text, text[..|text| - 1], |text| - 1, false);
    }
  }

  lemma OfferedPrintable(n: Node, word: Text, t: Token)
    requires PrintableTree(n) && t in Topics(n, word)
    ensures Printable(t.key)
  {
    OfferedExact(n, word, t);
  }

  /** A completed word is printable and starts with the last word of the line. */
  lemma CompletedWord(tree: Node, line: Text, c: Completion)
    requires Completes(tree, line, c) && (c.Full? || c.Partial?) && PrintableTree(tree) && Printable(line)
    ensures line[PureStart(line)..] <= c.key && Printable(c.key)
  {
    hide PureStart, PrintableTree, Words, Topics, Base, Below;
    var words := Words(line);
    WordsPure(line);
    BaseBelow(tree, Finished(line, words));
    var base, word := Base(tree, Finished(line, words)).value, LastWord(line, words);
    BelowPrintable(base, tree);
    CompletedKey(base, word, c);
    OfferedPrintable(base, word, Topics(base, word)[0]);
  }

  lemma WordsPure(line: Text)
    requires Printable(line) && !HasPipe(Words(line)) && Words(line) != []
    ensures LastWord(line, Words(line)) == line[PureStart(line)..]
  {
    LastWordIsPure(line, 0);
  }

  /** After a line feed only what follows it matters. */
  lemma NewRow(before: seq<byte>, bytes: seq<byte>, more: seq<byte>)
    requires bytes != [] && bytes[|bytes| - 1] == LF
    ensures Feed(BLANK, before + bytes + more) == Feed(BLANK, more)
  {
    FeedConcat(BLANK, before + bytes, more);
    FeedLine(BLANK, before + bytes);
  }

  lemma CutOver(text: Text, from: nat)
    requires from < |text|
    ensures var after := Cut(text, from, from + 1); TypedOver(text, after, from, after[from..] + [SPACE])
  {
  }

  lemma InsertOver(text: Text, cp: nat, c: byte)
    requires cp <= |text|
    ensures var after := text[..cp] + [c] + text[cp..]; TypedOver(text, after, cp, after[cp..])
  {
  }

  lemma KillOver(text: Text, cp: nat)
    requires cp <= |text|
    ensures TypedOver(text, text[..cp], cp, Repeat(SPACE, |text| - cp))
  {
  }

  lemma PrintableInsert(text: Text, cp: nat, c: byte)
    requires Printable(text) && cp <= |text| && 31 < c < 127
    ensures Printable(text[..cp] + [c] + text[cp..])
  {
  }

  lemma PrintableWord(text: Text, cp: nat, word: Text, n: nat)
    requires Printable(text) && cp <= |text| && Printable(word) && n <= |word|
    ensures Printable(word[..n]) && Printable(text[..cp] + word[..n])
  {
  }

  lemma WordOver(text: Text, cp: nat, word: Text)
    requires cp <= |text| <= cp + |word|
    ensures TypedOver(text, text[..cp] + word, cp, word)
  {
  }

  lemma EmptyOver(line: Text)
    ensures TypedOver([], line, 0, line)
  {
  }

  lemma CutNothing(text: Text, cp: int)
    requires 0 <= cp <= |text|
    ensures Cut(text, cp, cp) == text
  {
  }

  lemma KillBack(text: Text, p: int, start: int, spaces: bool)
    requires 0 <= p <= start <= |text|
    ensures var rest := Cut(text, p, start);
            && p <= |rest|
            && (p > 0 ==> rest[p - 1] == text[p - 1] && Cut(rest, p - 1, p) == Cut(text, p - 1, start))
            && Back(text, p, spaces) == if p > 0 && (text[p - 1] == SPACE) == spaces then Back(text, p - 1, spaces) else p
  {
    if p > 0 { CutMore(text, p, start); }
  }

  lemma KillForth(text: Text, cp: int, q: int, spaces: bool)
    requires 0 <= cp <= q <= |text|
    ensures var rest := Cut(text, cp, q);
            && |rest| == |text| - (q - cp) && (cp == |rest| <==> q == |text|)
            && (q < |text| ==> rest[cp] == text[q] && Cut(rest, cp, cp + 1) == Cut(text, cp, q + 1))
            && Forth(text, q, spaces) == if q < |text| && (text[q] == SPACE) == spaces then Forth(text, q + 1, spaces) else q
  {
    if q < |text| { CutNext(text, cp, q); }
  }

  lemma CutMore(text: Text, p: int, start: int)
    requires 0 < p <= start <= |text|
    ensures Cut(Cut(text, p, start), p - 1, p) == Cut(text, p - 1, start)
  {
  }

  lemma CutNext(text: Text, cp: int, q: int)
    requires 0 <= cp <= q < |text|
    ensures Cut(Cut(text, cp, q), cp, cp + 1) == Cut(text, cp, q + 1)
  {
  }

  /** Going back only looks at what is before the cursor. */
  lemma {:induction false} BackBefore(a: Text, b: Text, p: int, spaces: bool)
    requires 0 <= p <= |a| && p <= |b| && a[..p] == b[..p]
    ensures Back(a, p, spaces) == Back(b, p, spaces)
    decreases p
  {
    if p > 0 {
      assert a[p - 1] == a[..p][p - 1] == b[p - 1];
      assert a[..p - 1] == a[..p][..p - 1] == b[..p - 1];
      BackBefore(a, b, p - 1, spaces);
    }
  }

  lemma CutTwice(text: Text, cp: int, q: int, r: int)
    requires 0 <= cp <= q <= r <= |text|
    ensures Cut(Cut(text, cp, q), cp, r - (q - cp)) == Cut(text, cp, r)
  {
  }

  /** Going forward only looks at what is behind the cursor. */
  lemma {:induction false} ForthBehind(text: Text, cp: int, q: int, p: int, spaces: bool)
    requires 0 <= cp <= q <= |text| && cp <= p <= |Cut(text, cp, q)|
    ensures Forth(Cut(text, cp, q), p, spaces) + (q - cp) == Forth(text, p + (q - cp), spaces)
    decreases |text| - p
  {
    if p < |Cut(text, cp, q)| {
      assert Cut(text, cp, q)[p] == text[p + (q - cp)];
      ForthBehind(text, cp, q, p + 1, spaces);
    }
  }

  /** A line that fits the buffer. */
  predicate LineOk(l: Text) {
    |l| < MAX && Printable(l)
  }
}
