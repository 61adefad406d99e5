/** Parsing a command line with its help into the tree. */
module CommandParsers {
  import opened Basics
  import opened CommandTrees
  import opened CommandPlaces
  import opened CommandStates
  import opened CommandParts
  import opened CommandHelps

  // ----- The help text -----

  const NEWLINE: byte := 10

  function LineEnd(desc: Text, p: nat): (q: nat)
    requires p <= |desc|
    ensures p <= q <= |desc| && (p < |desc| && desc[p] != NEWLINE ==> p < q)
    decreases |desc| - p
  {
    if p == |desc| || desc[p] == NEWLINE then p else LineEnd(desc, p + 1)
  }

  /** The lines of help from offset `p` on. */
  function Helps(desc: Text, p: nat): seq<Text>
    requires p <= |desc|
    decreases |desc| - p
  {
    var start := SkipSpaces(desc, p);
    if start == |desc| then [] else [desc[start..LineEnd(desc, start)]] + Helps(desc, LineEnd(desc, start))
  }

  /** A line of help as it is written: it starts with no space and has no line end in it. */
  predicate IsHelp(line: Text) {
    line != [] && !IsSpace(line[0]) && NEWLINE !in line
  }

  function Joined(lines: seq<Text>): Text {
    if lines == [] then [] else lines[0] + [NEWLINE] + Joined(lines[1..])
  }

  lemma {:induction false} LineEndIs(desc: Text, p: nat, q: nat)
    requires p <= q < |desc| && desc[q] == NEWLINE && forall k :: p <= k < q ==> desc[k] != NEWLINE
    ensures LineEnd(desc, p) == q
    decreases q - p
  {
    if p < q { LineEndIs(desc, p + 1, q); }
  }

  /** What is written line by line is read line by line. */
  lemma {:induction false} HelpsOfLines(before: Text, lines: seq<Text>)
    requires forall k :: 0 <= k < |lines| ==> IsHelp(lines[k])
    ensures Helps(before + Joined(lines), |before|) == lines
    decreases |lines|
  {
    hide Helps;
    var desc := before + Joined(lines);
    HelpsUnfold(desc, |before|);
    if lines == [] {
      assert Joined(lines) == [];
    } else {
      var line, rest := lines[0], Joined(lines[1..]);
      assert desc == before + line + [NEWLINE] + rest;
      var end := |before| + |line|;
      assert desc[|before|..end] == line && desc[|before|] == line[0] && desc[end] == NEWLINE;
      assert forall k :: |before| <= k < end ==> desc[k] == line[k - |before|];
      LineEndIs(desc, |before|, end);
      assert before + line + [NEWLINE] + rest == (before + line + [NEWLINE]) + rest;
      HelpsOfLines(before + line + [NEWLINE], lines[1..]);
      HelpsSkip(desc, end);
      assert lines == [line] + lines[1..];
    }
  }

  lemma HelpsUnfold(desc: Text, p: nat)
    requires p <= |desc|
    ensures Helps(desc, p) ==
            var start := SkipSpaces(desc, p);
            if start == |desc| then [] else [desc[start..LineEnd(desc, start)]] + Helps(desc, LineEnd(desc, start))
  {
  }

  /** The line end behind a line is skipped with the spaces. */
  lemma HelpsSkip(desc: Text, p: nat)
    requires p < |desc| && IsSpace(desc[p])
    ensures Helps(desc, p) == Helps(desc, p + 1)
  {
    assert SkipSpaces(desc, p) == SkipSpaces(desc, p + 1);
  }

  /** The next line of help and the offset behind it. */
  method NextHelp(desc: Text, p: nat) returns (help: Option<Text>, next: nat)
    requires p <= |desc|
    ensures p <= next <= |desc|
    ensures Helps(desc, p) == match help case None => [] case Some(h) => [h] + Helps(desc, next)
  {
    next := p;
    while next < |desc| && IsSpace(desc[next])
      invariant p <= next <= |desc| && SkipSpaces(desc, next) == SkipSpaces(desc, p)
    {
      next := next + 1;
    }
    if next == |desc| {
      return None, next;
    }
    var start := next;
    while next < |desc| && desc[next] != NEWLINE
      invariant start <= next <= |desc| && LineEnd(desc, next) == LineEnd(desc, start)
    {
      next := next + 1;
    }
    return Some(desc[start..next]), next;
  }

  // ----- Plain commands -----

  /** What is still to be done for the words of a plain command. */
  function Finish(tree: Node, p: Path, words: seq<Text>, descs: seq<Text>, f: int): Node
    requires OnPath(tree, p) && (p != [] || words != [])
  {
    if words == [] then Ended(tree, p, f) else Put(tree, p, Add(Get(tree, p), words, descs, f))
  }

  /** Entering one word of a plain command leaves the other words to be added. */
  lemma PlainStep(st: State, word: Text, desc: Text, words: seq<Text>, descs: seq<Text>, f: int)
    requires Sound(st) && st.block == 0
    ensures var r := Entered(st, Token(word, KindOf(word), desc));
            && Sound(r) && r.block == 0 && r.parent != [] && r.tokens == st.tokens
            && Finish(st.tree, st.parent, [word] + words, [desc] + descs, f) == Finish(r.tree, r.parent, words, descs, f)
  {
    hide Put, Get, OnPath, FindChild, Add, Ended;
    var n := Get(st.tree, st.parent);
    var i := FindChild(n.children, word);
    var r := Entered(st, Token(word, KindOf(word), desc));
    AddOne(n, word, desc, words, descs, f);
    if i < |n.children| {
      ChildOnPath(st.tree, st.parent, i);
      EndedAt(st.tree, st.parent, i, f);
    } else {
      var leaf := NewNode(word, desc);
      var grown := WithNode(n, leaf, false);
      Inserted(st.tree, st.parent, leaf, false);
      GrownPath(st.tree, r.tree, st.save);
      ChildOnPath(r.tree, st.parent, i);
      EndedAt(r.tree, st.parent, i, f);
      forall m ensures Put(r.tree, st.parent, m) == Put(st.tree, st.parent, m) { PutPut(st.tree, st.parent, grown, m); }
      forall m ensures grown.children[i := m] == n.children + [m] {}
    }
  }

  lemma AddOne(n: Node, word: Text, desc: Text, words: seq<Text>, descs: seq<Text>, f: int)
    ensures var i := FindChild(n.children, word);
            var child := if i < |n.children| then n.children[i] else NewNode(word, desc);
            var sub := if words == [] then child.(func := Some(f)) else Add(child, words, descs, f);
            var m := n.(children := if i < |n.children| then n.children[i := sub] else n.children + [sub]);
            Add(n, [word] + words, [desc] + descs, f) == if words == [] && StartsVararg(child) then m.(func := Some(f)) else m
  {
    assert ([word] + words)[1..] == words && ([desc] + descs)[1..] == descs;
  }

  lemma EndedAt(tree: Node, p: Path, i: nat, f: int)
    requires OnPath(tree, p) && i < |Get(tree, p).children|
    ensures OnPath(tree, p + [Child(i)])
    ensures var n := Get(tree, p);
            var m := n.(children := n.children[i := n.children[i].(func := Some(f))]);
            Ended(tree, p + [Child(i)], f) == Put(tree, p, if StartsVararg(n.children[i]) then m.(func := Some(f)) else m)
  {
    hide Put, Get, OnPath;
    var n := Get(tree, p);
    var m := n.(children := n.children[i := n.children[i].(func := Some(f))]);
    ChildOnPath(tree, p, i);
    assert (p + [Child(i)])[..|p + [Child(i)]| - 1] == p;
    PutGet(tree, p, m);
    PutPut(tree, p, m, m.(func := Some(f)));
    AboveOnPath(tree, p + [Child(i)], n.children[i].(func := Some(f)));
  }

  // ----- The parser -----

  /** A command line, its help and its handler. */
  datatype Elem = Elem(line: Text, desc: Text, func: int)

  /** A command that ends at the root is told apart, where the code reads a token the root
      does not have. */
  datatype Status = Added | Rejected | AtRoot

  class Parser {
    const elem: Elem
    var cp: nat
    var dp: nat
    var multiple: bool
    var block: int
    var tokens: seq<Token>
    var tree: Node
    var parent: Path
    var save: Path

    constructor (tree: Node, elem: Elem)
      ensures Valid() && this.elem == elem && Now() == Start(tree, elem)
    {
      this.elem, this.tree := elem, tree;
      cp, dp, multiple, block, tokens, parent, save := 0, 0, false, 0, [], [], [];
    }

    ghost function View(): State
      reads this
    {
      State(tree, parent, block, save, tokens)
    }

    ghost function Now(): Stage
      requires dp <= |elem.desc|
      reads this
    {
      Stage(View(), multiple, cp, Helps(elem.desc, dp))
    }

    ghost predicate Valid()
      reads this
    {
      dp <= |elem.desc| && Fine(elem.line, Now())
    }

    /** Reads a word and its line of help; fails, changing nothing in the tree, exactly when
        there is none left. */
    method ReadWord() returns (ok: bool)
      requires Valid()
      modifies this`cp, this`dp, this`block, this`tokens, this`tree, this`parent
      ensures dp <= |elem.desc| && cp == WordStop(elem.line, old(cp)) && (ok <==> old(Now().helps) != [])
      ensures !ok ==> View() == old(View())
      ensures ok ==>
        var t := TokenAt(elem.line, old(Now()));
        && View() == (if multiple then old(View()).(tokens := old(tokens) + [t]) else Entered(old(View()), t))
        && Now().helps == old(Now().helps)[1..]
    {
      hide Helps, Get, Put, OnPath, FindChild, FromLine;
      var start := cp;
      while cp < |elem.line| && WordChar(elem.line[cp])
        invariant start <= cp <= |elem.line| && WordStop(elem.line, cp) == WordStop(elem.line, start)
        modifies this`cp
      {
        cp := cp + 1;
      }
      var help, next := NextHelp(elem.desc, dp);
      if help == None {
        return false;
      }
      dp := next;
      var word := elem.line[start..cp];
      var t := Token(word, KindOf(word), help.value);
      if multiple {
        tokens := tokens + [t];
      } else {
        var n := Get(tree, parent);
        var i, _ := FindNode(n.children, [t]);
        GroupOfOne(n.children, t);
        if i < |n.children| {
          parent := parent + [Child(i)];
        } else {
          tree := Put(tree, parent, WithNode(n, Node([t], [], [], None), block == 1));
          parent := parent + [LastLink(n, block == 1)];
          if block == 1 {
            block := 2;
          }
        }
      }
      return true;
    }

    method BeginMultiple() returns (ok: bool)
      requires Valid()
      modifies this`cp, this`multiple
      ensures ok <==> block != 1 && !old(multiple)
      ensures if ok then cp == old(cp) + 1 && multiple else cp == old(cp) && multiple == old(multiple)
    {
      if block == 1 || multiple {
        return false;
      }
      cp := cp + 1;
      multiple := true;
      return true;
    }

    /** The group that was read becomes a node. */
    method EndMultiple() returns (ok: bool)
      requires Valid()
      modifies this`cp, this`multiple, this`tokens, this`tree, this`parent
      ensures ok <==> old(multiple && tokens != [] && Grouped(View()).Some?)
      ensures if ok then cp == old(cp) + 1 && !multiple && Some(View()) == old(Grouped(View())) else View() == old(View())
    {
      hide Get, Put, OnPath, FindGroup, FromLine;
      if !multiple || |tokens| == 0 {
        return false;
      }
      cp := cp + 1;
      multiple := false;
      var n := Get(tree, parent);
      var i, found := FindNode(n.children, tokens);
      if i < |n.children| {
        if found != |tokens| {
          return false;
        }
        parent := parent + [Child(i)];
      } else {
        tree := Put(tree, parent, WithNode(n, Node(tokens, [], [], None), false));
        parent := parent + [LastLink(n, false)];
      }
      tokens := [];
      return true;
    }

    method BeginKeyword() returns (ok: bool)
      requires Valid()
      modifies this`cp, this`block, this`save
      ensures ok <==> old(block) == 0 && !multiple
      ensures if ok then cp == old(cp) + 1 && View() == old(View()).(block := 1, save := parent) else View() == old(View())
    {
      if block != 0 || multiple {
        return false;
      }
      cp := cp + 1;
      block := 1;
      save := parent;
      return true;
    }

    method EndKeyword() returns (ok: bool)
      requires Valid()
      modifies this`cp, this`block, this`parent
      ensures ok <==> old(block) == 2 && !multiple
      ensures if ok then cp == old(cp) + 1 && View() == old(View()).(block := 0, parent := save) else View() == old(View())
    {
      if multiple || block == 0 {
        return false;
      }
      if block == 1 {
        return false;
      }
      cp := cp + 1;
      block := 0;
      parent := save;
      return true;
    }

    /** A bar goes on to the next token of a group or the next keyword of a block. */
    method HandlePipe() returns (ok: bool)
      requires Valid()
      modifies this`cp, this`block, this`parent
      ensures ok <==> multiple || old(block) != 0
      ensures if ok && !multiple then View() == old(View()).(block := 1, parent := save) else View() == old(View())
      ensures ok ==> cp == old(cp) + 1
    {
      if multiple {
        cp := cp + 1;
      } else if block != 0 {
        cp := cp + 1;
        block := 1;
        parent := save;
      } else {
        return false;
      }
      return true;
    }

    method SkipBlanks()
      requires Valid()
      modifies this`cp
      ensures Valid() && old(cp) <= cp && (cp < |elem.line| ==> elem.line[cp] != 32)
      ensures forall k :: old(cp) <= k < cp ==> elem.line[k] == 32
    {
      while cp < |elem.line| && elem.line[cp] == 32
        invariant old(cp) <= cp <= |elem.line| && forall k :: old(cp) <= k < cp ==> elem.line[k] == 32
        modifies this`cp
      {
        cp := cp + 1;
      }
    }

    /** One token of the command line. */
    method Advance() returns (ok: bool)
      requires Valid() && cp < |elem.line|
      modifies this`cp, this`dp, this`multiple, this`block, this`tokens, this`tree, this`parent, this`save
      ensures ok <==> Next(elem.line, old(Now())).Some?
      ensures if ok then Valid() && Some(Now()) == Next(elem.line, old(Now())) else tree == old(tree)
    {
      hide Helps, Get, Put, OnPath, Entered, Grouped, FromLine, TokenAt;
      ghost var g := Now();
      var c := elem.line[cp];
      if c == 0x7b {
        ok := BeginKeyword();
      } else if c == 0x28 {
        ok := BeginMultiple();
      } else if c == 0x7d {
        ok := EndKeyword();
      } else if c == 0x29 {
        ok := EndMultiple();
      } else if c == PIPE {
        ok := HandlePipe();
      } else {
        ok := ReadWord();
      }
      if ok { NextExtends(elem.line, g); }
    }

    /** Stores the handler where the command ends. */
    method End() returns (status: Status)
      requires Valid()
      modifies this`tree
      ensures status == Rejected <==> multiple || block != 0
      ensures status == AtRoot <==> !multiple && block == 0 && parent == []
      ensures tree == if status == Added then Ended(old(tree), parent, elem.func) else old(tree)
    {
      hide Get, Put, OnPath;
      if multiple || block != 0 {
        return Rejected;
      }
      if parent == [] {
        return AtRoot;
      }
      var n, above := Get(tree, parent), parent[..|parent| - 1];
      AboveOnPath(tree, parent, n.(func := Some(elem.func)));
      tree := Put(tree, parent, n.(func := Some(elem.func)));
      if StartsVararg(n) {
        tree := Put(tree, above, Get(tree, above).(func := Some(elem.func)));
      }
      return Added;
    }
  }

  function Start(tree: Node, e: Elem): Stage {
    Stage(State(tree, [], 0, [], []), false, 0, Helps(e.desc, 0))
  }

  // ----- A whole command -----

  /** The command line is words and spaces only. */
  predicate PlainLine(line: Text) {
    forall i :: 0 <= i < |line| ==> line[i] == 32 || WordChar(line[i])
  }

  lemma PlainWord(line: Text, p: nat)
    requires PlainLine(line) && p < |line| && WordChar(line[p])
    ensures p < WordStop(line, p) && WordsFrom(line, p) == [line[p..WordStop(line, p)]] + WordsFrom(line, WordStop(line, p))
  {
    StopIsEnd(line, p);
  }

  lemma {:induction false} StopIsEnd(line: Text, p: nat)
    requires PlainLine(line) && p <= |line|
    ensures WordStop(line, p) == WordEnd(line, p)
    decreases |line| - p
  {
    if p < |line| && WordChar(line[p]) { StopIsEnd(line, p + 1); }
  }

  lemma {:induction false} BlankWords(line: Text, p: nat, q: nat)
    requires p <= q <= |line| && forall k :: p <= k < q ==> line[k] == 32
    ensures WordsFrom(line, p) == WordsFrom(line, q)
  {
    BlankSpaces(line, p, q);
  }

  lemma {:induction false} BlankSpaces(line: Text, p: nat, q: nat)
    requires p <= q <= |line| && forall k :: p <= k < q ==> line[k] == 32
    ensures SkipSpaces(line, p) == SkipSpaces(line, q)
    decreases q - p
  {
    if p < q { BlankSpaces(line, p + 1, q); }
  }

  /** The parts of a plain line are its words. */
  lemma {:induction false} PlainParts(line: Text, p: nat)
    requires PlainLine(line) && p <= |line|
    ensures var words, parts := WordsFrom(line, p), Parts(line, p, None, None);
            |parts| == |words| && forall i :: 0 <= i < |words| ==> parts[i] == Step([words[i]])
    decreases |line| - p
  {
    if p == |line| {
    } else if WordChar(line[p]) {
      PlainWord(line, p);
      PlainParts(line, WordStop(line, p));
    } else {
      BlankWords(line, p, p + 1);
      PlainParts(line, p + 1);
    }
  }

  /** Storing a handler changes no tokens. */
  lemma EndedEvery(tree: Node, p: Path, f: int, q: seq<Token> -> bool)
    requires OnPath(tree, p) && p != [] && EveryBelow(tree, q)
    ensures EveryBelow(Ended(tree, p, f), q)
  {
    hide Get, Put, OnPath;
    var n, above := Get(tree, p), p[..|p| - 1];
    AboveOnPath(tree, p, n.(func := Some(f)));
    EveryGet(tree, p, q);
    FuncEvery(n, f, q);
    EveryPut(tree, p, n.(func := Some(f)), q);
    var t := Put(tree, p, n.(func := Some(f)));
    EveryGet(t, above, q);
    FuncEvery(Get(t, above), f, q);
    EveryPut(t, above, Get(t, above).(func := Some(f)), q);
  }

  lemma FuncEvery(n: Node, f: int, q: seq<Token> -> bool)
    requires EveryBelow(n, q)
    ensures EveryBelow(n.(func := Some(f)), q)
  {
  }

  /** The tree has grown, and then the handler was stored at the end of some path. */
  ghost predicate AddedTo(before: Node, after: Node, f: int) {
    exists mid: Node, p: Path :: Grown(before, mid) && OnPath(mid, p) && p != [] && after == Ended(mid, p, f)
  }

  ghost predicate PlainElem(e: Elem) {
    PlainLine(e.line) && Words(e.line) != []
  }

  /** The tree of a whole plain command. */
  ghost function PlainTree(tree: Node, e: Elem): Node {
    Add(tree, Words(e.line), Helps(e.desc, 0), e.func)
  }

  /** Where a plain command stands: its tree is that of the whole command once the words
      that are left are added, and each word read has used a line of help. */
  ghost predicate OnPlain(tree: Node, e: Elem, g: Stage) {
    && PlainElem(e) && g.cp <= |e.line| && Sound(g.st) && !g.multiple && g.st.block == 0
    && var rest := WordsFrom(e.line, g.cp);
       && |Words(e.line)| - |rest| == |Helps(e.desc, 0)| - |g.helps| && (g.st.parent != [] || rest != [])
       && Finish(g.st.tree, g.st.parent, rest, g.helps, e.func) == PlainTree(tree, e)
  }

  lemma PlainStart(tree: Node, e: Elem)
    requires PlainElem(e)
    ensures OnPlain(tree, e, Start(tree, e))
  {
  }

  lemma PlainBlanks(tree: Node, e: Elem, g: Stage, to: nat)
    requires OnPlain(tree, e, g) && g.cp <= to <= |e.line| && forall k :: g.cp <= k < to ==> e.line[k] == 32
    ensures OnPlain(tree, e, g.(cp := to))
  {
    hide Finish, WordsFrom, Helps;
    BlankWords(e.line, g.cp, to);
  }

  lemma PlainEnd(tree: Node, e: Elem, g: Stage)
    requires OnPlain(tree, e, g) && g.cp == |e.line|
    ensures !g.multiple && g.st.block == 0 && g.st.parent != [] && OnPath(g.st.tree, g.st.parent)
    ensures Ended(g.st.tree, g.st.parent, e.func) == PlainTree(tree, e)
    ensures |Words(e.line)| <= |Helps(e.desc, 0)|
  {
    hide Ended, PlainTree, Helps, Put, Get, OnPath;
    assert WordsFrom(e.line, |e.line|) == [];
  }

  lemma PlainNext(tree: Node, e: Elem, g: Stage)
    requires OnPlain(tree, e, g) && g.cp < |e.line| && e.line[g.cp] != 32
    ensures match Next(e.line, g)
            case None => g.st.tree == PlainTree(tree, e) && |Words(e.line)| > |Helps(e.desc, 0)|
            case Some(h) => OnPlain(tree, e, h)
  {
    hide Ended, PlainTree, Helps, Put, Get, OnPath, Entered, Words, WordsFrom, Grouped;
    assert WordChar(e.line[g.cp]);
    PlainWord(e.line, g.cp);
    var to, more := WordStop(e.line, g.cp), g.helps;
    if more == [] {
      PutSame(g.st.tree, g.st.parent);
    } else {
      PlainStep(g.st, e.line[g.cp..to], more[0], WordsFrom(e.line, to), more[1..], e.func);
      assert more == [more[0]] + more[1..];
    }
  }

  /** The tree before and after a command that was added, or in part. */
  ghost predicate Outcome(tree: Node, e: Elem, after: Node, status: Status) {
    && (if status == Added then AddedTo(tree, after, e.func) else Grown(tree, after))
    && (forall q: seq<Token> -> bool :: Admits(e.line, q) && EveryBelow(tree, q) ==> EveryBelow(after, q))
  }

  lemma ExtendedOutcome(tree: Node, e: Elem, mid: Node, p: Path, status: Status)
    requires Extends(e.line, tree, mid) && OnPath(mid, p) && (status == Added ==> p != [])
    ensures Outcome(tree, e, if status == Added then Ended(mid, p, e.func) else mid, status)
  {
    hide Grown, EveryBelow, Admits, Ended, OnPath;
    if status == Added {
      forall q: seq<Token> -> bool | EveryBelow(mid, q) ensures EveryBelow(Ended(mid, p, e.func), q) {
        EndedEvery(mid, p, e.func, q);
      }
    }
  }

  /** What the tokens of a line keep: kinds, tokens at every node, and keys that can be shown. */
  lemma OutcomeKeeps(tree: Node, e: Elem, after: Node, status: Status)
    requires Outcome(tree, e, after, status)
    ensures (HasTokens(tree) ==> HasTokens(after)) && (Typed(tree) ==> Typed(after))
    ensures Printable(e.line) && PrintableTree(tree) ==> PrintableTree(after)
  {
    hide Grown, EveryBelow, Ended, AddedTo, Printable;
    assert Admits(e.line, SomeTokens) && Admits(e.line, TypedTokens);
    if Printable(e.line) { assert Admits(e.line, PrintableTokens); }
  }

  /** Adds a command of any form.  Commands that are in the tree keep their nodes, tokens and
      handlers, but for the handler where the new one ends, and that is where the parts of
      the line lead. */
  method AddElem(tree: Node, e: Elem) returns (after: Node, status: Status)
    ensures if status == Added then AddedTo(tree, after, e.func) else Grown(tree, after)
    ensures status == Added ==> Handles(after, PartsOf(e.line), e.func)
    ensures (HasTokens(tree) ==> HasTokens(after)) && (Typed(tree) ==> Typed(after))
    ensures Printable(e.line) && PrintableTree(tree) ==> PrintableTree(after)
    ensures PlainElem(e) ==> after == PlainTree(tree, e) && (status == Added <==> |Words(e.line)| <= |Helps(e.desc, 0)|)
    ensures Explains(e.line, Helps(e.desc, 0), tree, after)
  {
    hide Explains, InStep, Helps, Words, Printable, Ended, PlainElem, PlainTree, OnPath, OnPlain, OnParts, Next, Extends, HasTokens, Typed,
      PrintableTree, Fine, AddedTo, Handles, Grown, PartsOf, Stuck;
    var p := new Parser(tree, e);
    ExtendsSelf(e.line, tree);
    ghost var pr := StartParts(tree, e);
    ghost var helps := Helps(e.desc, 0);
    StartHelps(tree, e);
    if PlainElem(e) { PlainStart(tree, e); }
    while true
      invariant p.Valid() && p.elem == e && Extends(e.line, tree, p.tree)
      invariant Stuck(e.line, p.cp) || OnParts(e.line, p.Now(), pr)
      invariant PlainElem(e) ==> OnPlain(tree, e, p.Now())
      invariant InStep(e.line, helps, p.Now()) && Explains(e.line, helps, tree, p.tree)
      decreases |e.line| - p.cp + |p.Now().helps|
    {
      ghost var before := p.Now();
      FineSound(e.line, before);
      p.SkipBlanks();
      ghost var g := p.Now();
      FineSound(e.line, g);
      PartsBlanks(e.line, before, p.cp, pr);
      BlanksInStep(e.line, helps, before, p.cp);
      if PlainElem(e) { PlainBlanks(tree, e, before, p.cp); }
      if p.cp == |e.line| {
        if PlainElem(e) { PlainEnd(tree, e, g); }
        status := p.End();
        ExtendedOutcome(tree, e, g.st.tree, g.st.parent, status);
        OutcomeKeeps(tree, e, p.tree, status);
        if status == Added {
          PartsEnd(e, g, pr);
          EndedExplains(e.line, helps, g.st.tree, g.st.parent, e.func);
          ExplainsTrans(e.line, helps, tree, g.st.tree, p.tree);
        }
        return p.tree, status;
      }
      if PlainElem(e) { PlainNext(tree, e, g); }
      var ok := p.Advance();
      if !ok {
        ExtendedOutcome(tree, e, g.st.tree, g.st.parent, Rejected);
        OutcomeKeeps(tree, e, p.tree, Rejected);
        return p.tree, Rejected;
      }
      NextExtends(e.line, g);
      ExtendsTrans(e.line, tree, g.st.tree, p.tree);
      pr := NextParts(e.line, g, pr);
      NextInStep(e.line, helps, g);
      ExplainsTrans(e.line, helps, tree, g.st.tree, p.tree);
    }
  }

  lemma FineSound(line: Text, g: Stage)
    requires Fine(line, g)
    ensures Sound(g.st) && g.cp <= |line|
  {
  }

  lemma StartHelps(tree: Node, e: Elem)
    ensures InStep(e.line, Helps(e.desc, 0), Start(tree, e)) && Explains(e.line, Helps(e.desc, 0), tree, tree)
  {
    SameExplains(e.line, Helps(e.desc, 0), tree);
  }

  lemma EndedExplains(line: Text, helps: seq<Text>, tree: Node, p: Path, f: int)
    requires OnPath(tree, p) && p != []
    ensures Explains(line, helps, tree, Ended(tree, p, f))
  {
    hide Ended, EveryBelow, OnPath;
    forall q: seq<Token> -> bool | EveryBelow(tree, q) ensures EveryBelow(Ended(tree, p, f), q) { EndedEvery(tree, p, f, q); }
  }

  lemma StartParts(tree: Node, e: Elem) returns (pr: Progress)
    ensures OnParts(e.line, Start(tree, e), pr)
  {
    pr := Progress([], [], |tree.keyword|);
    assert pr.done + PartsOf(e.line) == PartsOf(e.line);
  }

  lemma PartsBlanks(line: Text, g: Stage, to: nat, pr: Progress)
    requires g.cp <= to <= |line| && (forall k :: g.cp <= k < to ==> line[k] == 32) && (to < |line| ==> line[to] != 32)
    requires Stuck(line, g.cp) || OnParts(line, g, pr)
    ensures Stuck(line, to) || OnParts(line, g.(cp := to), pr)
  {
    hide Entering, Parts;
    BlankParts(line, g.cp, to, if g.st.block == 0 then None else Some(pr.words), if g.multiple then Some(Keys(g.st.tokens)) else None);
  }

  lemma PartsEnd(e: Elem, g: Stage, pr: Progress)
    requires Sound(g.st) && g.cp == |e.line| && !g.multiple && g.st.block == 0 && g.st.parent != []
    requires Stuck(e.line, g.cp) || OnParts(e.line, g, pr)
    ensures Handles(Ended(g.st.tree, g.st.parent, e.func), PartsOf(e.line), e.func)
  {
    hide Laid, Ended, HandlesAt, OnPath, Get;
    assert Parts(e.line, |e.line|, None, None) == [] && pr.done + [] == pr.done;
    EndedHandles(g.st.tree, g.st.parent, pr.done, e.func);
  }
}
