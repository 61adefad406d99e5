/** What a command line says, read off its text, and that the tree comes to say it. */
module CommandParts {
  import opened Basics
  import opened CommandTrees
  import opened CommandPlaces
  import opened CommandStates

  // ----- The text -----

  /** A step has the words it can be, and an alternative of a block those of its keyword and
      of what is behind it. */
  datatype Part = Step(keys: seq<Text>) | Choice(words: seq<seq<Text>>)

  function Closed(words: seq<seq<Text>>): seq<Part> {
    if words == [] then [] else [Choice(words)]
  }

  /** The parts of a line from `p` on, inside a block with the words of its present
      alternative, and inside a group with its words. */
  function Parts(line: Text, p: nat, block: Option<seq<seq<Text>>>, group: Option<seq<Text>>): seq<Part>
    requires p <= |line|
    decreases |line| - p, 0
  {
    if p == |line| then []
    else if line[p] == 0x7b then Parts(line, p + 1, Some([]), group)
    else if line[p] == 0x7d && block.Some? then Closed(block.value) + Parts(line, p + 1, None, group)
    else if line[p] == 0x28 then Parts(line, p + 1, block, Some([]))
    else if line[p] == 0x29 && group.Some? then Behind(line, p + 1, block, group.value)
    else if line[p] == PIPE && group == None && block.Some? then Closed(block.value) + Parts(line, p + 1, Some([]), None)
    else if !WordChar(line[p]) then Parts(line, p + 1, block, group)
    else
      var to := WordStop(line, p);
      if group.Some? then Parts(line, to, block, Some(group.value + [line[p..to]])) else Behind(line, to, block, [line[p..to]])
  }

  /** Behind a word or a group: another step, or one more of the alternative. */
  function Behind(line: Text, p: nat, block: Option<seq<seq<Text>>>, keys: seq<Text>): seq<Part>
    requires p <= |line|
    decreases |line| - p, 1
  {
    if block.Some? then Parts(line, p, Some(block.value + [keys]), None) else [Step(keys)] + Parts(line, p, None, None)
  }

  function PartsOf(line: Text): seq<Part> {
    Parts(line, 0, None, None)
  }

  function Keys(tokens: seq<Token>): (keys: seq<Text>)
    ensures |keys| == |tokens| && forall i :: 0 <= i < |keys| ==> keys[i] == tokens[i].key
  {
    seq(|tokens|, i requires 0 <= i < |tokens| => tokens[i].key)
  }

  // ----- The tree -----

  ghost predicate HasKeys(n: Node, keys: seq<Text>) {
    forall k :: 0 <= k < |keys| ==> HasKey(n, keys[k])
  }

  /** The node of a step has all of its words, and is a group if the step is. */
  ghost predicate IsStep(n: Node, keys: seq<Text>) {
    HasKeys(n, keys) && (|keys| > 1 ==> |n.tokens| > 1)
  }

  ghost predicate Named(n: Node, key: Text) {
    exists i :: 0 <= i < |n.children| && HasKey(n.children[i], key)
  }

  /** The keyword takes no value when there are no more words, and else the next of them. */
  ghost predicate IsKeyword(item: Node, words: seq<seq<Text>>)
    requires words != [] && |words[0]| == 1
  {
    HasKey(item, words[0][0]) && if |words| == 1 then item.children == [] else item.children != [] && HasKeys(item.children[0], words[1])
  }

  /** One of the first `m` keywords of the node is the alternative.  A keyword that has the
      name of a child is not added to the block. */
  ghost predicate Offers(n: Node, words: seq<seq<Text>>, m: int) {
    && words != [] && |words[0]| == 1
    && (Named(n, words[0][0]) || exists j :: 0 <= j < m && j < |n.keyword| && IsKeyword(n.keyword[j], words))
  }

  /** The path goes down by children, one for each step, that have all of its words, and the
      nodes on it offer the alternatives, the last one with its first `m` keywords. */
  ghost predicate Laid(n: Node, p: Path, parts: seq<Part>, m: int)
    decreases |parts|
  {
    if parts == [] then p == []
    else match parts[0]
      case Choice(words) => Offers(n, words, if p == [] then m else |n.keyword|) && Laid(n, p, parts[1..], m)
      case Step(keys) =>
        && p != [] && p[0].Child? && p[0].i < |n.children|
        && IsStep(n.children[p[0].i], keys) && Laid(n.children[p[0].i], p[1..], parts[1..], m)
  }

  lemma {:induction false} LaidOnPath(n: Node, p: Path, parts: seq<Part>, m: int)
    requires Laid(n, p, parts, m)
    ensures OnPath(n, p)
    decreases |parts|
  {
    if parts != [] {
      match parts[0]
      case Choice(_) => LaidOnPath(n, p, parts[1..], m);
      case Step(_) => LaidOnPath(n.children[p[0].i], p[1..], parts[1..], m);
    }
  }

  lemma {:induction false} LaidChild(n: Node, p: Path, parts: seq<Part>, m: int)
    requires Laid(n, p, parts, m) && p != []
    ensures p[0].Child?
    decreases |parts|
  {
    if parts[0].Choice? { LaidChild(n, p, parts[1..], m); }
  }

  lemma {:induction false} LaidMore(n: Node, p: Path, parts: seq<Part>, m: int, m1: int)
    requires Laid(n, p, parts, m) && m <= m1
    ensures Laid(n, p, parts, m1)
    decreases |parts|
  {
    if parts != [] {
      match parts[0]
      case Choice(_) => LaidMore(n, p, parts[1..], m, m1);
      case Step(_) => LaidMore(n.children[p[0].i], p[1..], parts[1..], m, m1);
    }
  }

  /** One more step. */
  lemma {:induction false} LaidStep(n: Node, p: Path, parts: seq<Part>, m: int, i: nat, keys: seq<Text>, m1: int)
    requires Laid(n, p, parts, m) && OnPath(n, p) && m <= |Get(n, p).keyword|
    requires i < |Get(n, p).children| && IsStep(Get(n, p).children[i], keys)
    ensures Laid(n, p + [Child(i)], parts + [Step(keys)], m1)
    decreases |parts|
  {
    var q, more := p + [Child(i)], parts + [Step(keys)];
    if parts == [] {
      assert q[1..] == [] && more[1..] == [];
    } else {
      assert more[1..] == parts[1..] + [Step(keys)];
      match parts[0]
      case Choice(_) => LaidStep(n, p, parts[1..], m, i, keys, m1);
      case Step(_) =>
        assert q[1..] == p[1..] + [Child(i)];
        LaidStep(n.children[p[0].i], p[1..], parts[1..], m, i, keys, m1);
    }
  }

  /** One more alternative. */
  lemma {:induction false} LaidChoice(n: Node, p: Path, parts: seq<Part>, m: int, words: seq<seq<Text>>)
    requires Laid(n, p, parts, m) && OnPath(n, p) && Offers(Get(n, p), words, m)
    ensures Laid(n, p, parts + [Choice(words)], m)
    decreases |parts|
  {
    var more := parts + [Choice(words)];
    if parts == [] {
      assert more[1..] == [];
    } else {
      assert more[1..] == parts[1..] + [Choice(words)];
      match parts[0]
      case Choice(_) => LaidChoice(n, p, parts[1..], m, words);
      case Step(_) => LaidChoice(n.children[p[0].i], p[1..], parts[1..], m, words);
    }
  }

  /** The node keeps its tokens, the names of its children, and its first `m` keywords. */
  ghost predicate Keeps(a: Node, b: Node, m: int) {
    && a.tokens == b.tokens && |a.children| <= |b.children| && |a.keyword| <= |b.keyword|
    && (forall i :: 0 <= i < |a.children| ==> a.children[i].tokens == b.children[i].tokens)
    && (forall j :: 0 <= j < m && j < |a.keyword| ==> a.keyword[j] == b.keyword[j])
  }

  lemma OffersKept(a: Node, b: Node, words: seq<seq<Text>>, m: int)
    requires Keeps(a, b, m) && Offers(a, words, m)
    ensures Offers(b, words, m)
  {
    if Named(a, words[0][0]) {
      var i :| 0 <= i < |a.children| && HasKey(a.children[i], words[0][0]);
      assert HasKey(b.children[i], words[0][0]);
    } else {
      var j :| 0 <= j < m && j < |a.keyword| && IsKeyword(a.keyword[j], words);
      assert IsKeyword(b.keyword[j], words);
    }
  }

  /** A change at the end of the path. */
  lemma {:induction false} LaidPut(n: Node, p: Path, parts: seq<Part>, m: int, b: Node)
    requires Laid(n, p, parts, m) && OnPath(n, p) && Keeps(Get(n, p), b, m)
    ensures Laid(Put(n, p, b), p, parts, m) && Put(n, p, b).tokens == n.tokens
    decreases |parts|
  {
    hide Offers;
    if parts != [] {
      match parts[0]
      case Choice(words) =>
        LaidPut(n, p, parts[1..], m, b);
        if p == [] {
          OffersKept(n, b, words, m);
        } else {
          LaidChild(n, p, parts[1..], m);
          OffersBeside(n, p, b, words);
        }
      case Step(_) => LaidPut(n.children[p[0].i], p[1..], parts[1..], m, b);
    }
  }

  lemma OffersBeside(n: Node, p: Path, b: Node, words: seq<seq<Text>>)
    requires OnPath(n, p) && p != [] && p[0].Child? && b.tokens == Get(n, p).tokens && Offers(n, words, |n.keyword|)
    ensures Offers(Put(n, p, b), words, |Put(n, p, b).keyword|)
  {
    hide Offers;
    PutTokens(n.children[p[0].i], p[1..], b);
    OffersKept(n, Put(n, p, b), words, |n.keyword|);
  }

  /** A change below the end of the path keeps what is beside it. */
  lemma KeepsBelow(n: Node, q: Path, b: Node, m: int)
    requires OnPath(n, q) && b.tokens == Get(n, q).tokens && q != [] && (q[0].Keyword? ==> q[0].i >= m)
    ensures Keeps(n, Put(n, q, b), m) && |Put(n, q, b).keyword| == |n.keyword|
  {
    if q[0].Child? { PutTokens(n.children[q[0].i], q[1..], b); } else { PutTokens(n.keyword[q[0].i], q[1..], b); }
  }

  lemma LaidBelow(n: Node, p: Path, parts: seq<Part>, m: int, q: Path, b: Node)
    requires Laid(n, p, parts, m) && OnPath(n, p) && OnPath(n, p + q) && b.tokens == Get(n, p + q).tokens
    requires q != [] && (q[0].Keyword? ==> q[0].i >= m)
    ensures OnPath(Get(n, p), q) && Put(n, p + q, b) == Put(n, p, Put(Get(n, p), q, b))
    ensures Laid(Put(n, p + q, b), p, parts, m)
  {
    hide Put, Get, OnPath, Laid;
    PathAppend(n, p, q);
    KeepsBelow(Get(n, p), q, b, m);
    LaidPut(n, p, parts, m, Put(Get(n, p), q, b));
  }

  // ----- The parser -----

  /** Where the command stands outside of its blocks. */
  function Main(st: State): Path {
    if st.block == 0 then st.parent else st.save
  }

  /** The alternative of a block that is being read: no words yet, or the words of a keyword
      just added, or those behind a child with its name. */
  ghost predicate Open(st: State, words: seq<seq<Text>>, m: int)
    requires Sound(st)
  {
    var n := Get(st.tree, st.save);
    if words == [] then st.block == 1 && st.parent == st.save && m == |n.keyword|
    else
      && |words[0]| == 1 && |st.save| < |st.parent| && st.save == st.parent[..|st.save|]
      && match st.parent[|st.save|]
         case Child(_) => Named(n, words[0][0]) && m == |n.keyword|
         case Keyword(j) =>
           && st.block == 2 && j == m == |n.keyword| - 1 && IsKeyword(n.keyword[j], words)
           && Get(st.tree, st.parent).children == [] && (|words| == 1 ==> |st.parent| == |st.save| + 1)
  }

  /** What has been entered: the parts before, the alternative being read, and the keywords
      that were there before it. */
  datatype Progress = Progress(done: seq<Part>, words: seq<seq<Text>>, m: int)

  ghost predicate Entering(st: State, g: Progress)
    requires Sound(st)
  {
    && Laid(st.tree, Main(st), g.done, g.m)
    && if st.block == 0 then g.words == [] && g.m == |Get(st.tree, st.parent).keyword| else Open(st, g.words, g.m)
  }

  ghost predicate OnParts(line: Text, g: Stage, pr: Progress) {
    && g.cp <= |line| && Sound(g.st) && Entering(g.st, pr)
    && PartsOf(line) == pr.done + Parts(line, g.cp, if g.st.block == 0 then None else Some(pr.words),
                                        if g.multiple then Some(Keys(g.st.tokens)) else None)
  }

  /** A white space other than a blank never ends: it is read as an empty word for ever. */
  predicate Stuck(line: Text, cp: nat) {
    cp < |line| && IsSpace(line[cp]) && line[cp] != 32
  }

  lemma {:induction false} BlankParts(line: Text, p: nat, q: nat, block: Option<seq<seq<Text>>>, group: Option<seq<Text>>)
    requires p <= q <= |line| && forall k :: p <= k < q ==> line[k] == 32
    ensures Parts(line, p, block, group) == Parts(line, q, block, group)
    decreases q - p
  {
    if p < q { BlankParts(line, p + 1, q, block, group); }
  }

  // ----- One more word or group -----

  /** The node for a word or a group is entered: one that is there, or a new one. */
  ghost predicate Enters(a: State, b: State, tokens: seq<Token>)
    requires Sound(a)
  {
    var n := Get(a.tree, a.parent);
    || (exists i: nat :: i < |n.children| && IsStep(n.children[i], Keys(tokens)) && b == a.(parent := a.parent + [Child(i)], tokens := []))
    || (a.block == 1 && b == Descend(a, Node(tokens, [], [], None), true).(tokens := []))
    || (a.block != 1 && b == Descend(a, Node(tokens, [], [], None), false).(tokens := []))
  }

  lemma WordEnters(st: State, t: Token)
    requires Sound(st) && st.tokens == []
    ensures Enters(st, Entered(st, t), [t])
  {
    hide Put, Get, OnPath;
    var n := Get(st.tree, st.parent);
    var i := FindChild(n.children, t.key);
    if i < |n.children| { assert IsStep(n.children[i], Keys([t])); }
  }

  lemma {:induction false} CommonAll(n: Node, tokens: seq<Token>)
    requires Common(n, tokens) == |tokens|
    ensures HasKeys(n, Keys(tokens))
  {
    if tokens != [] { CommonAll(n, tokens[..|tokens| - 1]); }
  }

  lemma GroupEnters(st: State)
    requires Sound(st) && st.tokens != [] && Grouped(st).Some? && st.block != 1
    ensures Enters(st, Grouped(st).value, st.tokens)
  {
    hide Put, Get, OnPath;
    var n := Get(st.tree, st.parent);
    var i := FindGroup(n.children, st.tokens);
    if i < |n.children| && |st.tokens| > 1 {
      CommonAll(n.children[i], st.tokens);
      assert HasKey(n.children[i], Keys(st.tokens)[0]);
    }
  }

  /** Outside of blocks it is a step. */
  lemma EntersStep(a: State, b: State, tokens: seq<Token>, pr: Progress) returns (more: Progress)
    requires Sound(a) && Sound(b) && Enters(a, b, tokens) && a.block == 0 && Entering(a, pr)
    ensures Entering(b, more) && more.done == pr.done + [Step(Keys(tokens))] && b.block == 0
  {
    hide Put, Get, OnPath, Laid;
    var n := Get(a.tree, a.parent);
    more := Progress(pr.done + [Step(Keys(tokens))], [], |Get(b.tree, b.parent).keyword|);
    if i: nat :| i < |n.children| && IsStep(n.children[i], Keys(tokens)) && b == a.(parent := a.parent + [Child(i)], tokens := []) {
      LaidStep(a.tree, a.parent, pr.done, pr.m, i, Keys(tokens), more.m);
    } else {
      var leaf := Node(tokens, [], [], None);
      var grown := WithNode(n, leaf, false);
      LaidPut(a.tree, a.parent, pr.done, pr.m, grown);
      PutGet(a.tree, a.parent, grown);
      assert IsStep(leaf, Keys(tokens));
      LaidStep(b.tree, a.parent, pr.done, pr.m, |n.children|, Keys(tokens), more.m);
    }
  }

  /** At the start of an alternative it is a keyword, unless a child has its name. */
  lemma EntersKeyword(a: State, b: State, t: Token, pr: Progress) returns (more: Progress)
    requires Sound(a) && Sound(b) && Enters(a, b, [t]) && a.block == 1 && Entering(a, pr) && pr.words == []
    ensures Entering(b, more) && more.done == pr.done && more.words == [[t.key]] && b.block != 0
  {
    hide Put, Get, OnPath, Laid;
    var n := Get(a.tree, a.save);
    assert Keys([t]) == [t.key];
    more := pr.(words := [[t.key]]);
    if i: nat :| i < |n.children| && IsStep(n.children[i], Keys([t])) && b == a.(parent := a.parent + [Child(i)], tokens := []) {
      assert HasKeys(n.children[i], [t.key]) && [t.key][0] == t.key;
      assert Named(n, t.key);
    } else {
      var leaf := Node([t], [], [], None);
      var grown := WithNode(n, leaf, true);
      LaidPut(a.tree, a.save, pr.done, pr.m, grown);
      Inserted(a.tree, a.parent, leaf, true);
      assert HasKey(leaf, t.key) by { assert leaf.tokens[0].key == t.key; }
    }
  }

  /** Behind a keyword it is a value. */
  lemma EntersValue(a: State, b: State, tokens: seq<Token>, pr: Progress) returns (more: Progress)
    requires Sound(a) && Sound(b) && Enters(a, b, tokens) && a.block != 0 && Entering(a, pr) && pr.words != []
    ensures Entering(b, more) && more.done == pr.done && more.words == pr.words + [Keys(tokens)] && b.block != 0
  {
    hide Put, Get, OnPath, Laid, IsKeyword;
    var n, rest := Get(a.tree, a.save), a.parent[|a.save|..];
    more := pr.(words := pr.words + [Keys(tokens)]);
    assert a.parent == a.save + rest && more.words[0] == pr.words[0];
    PathAppend(a.tree, a.save, rest);
    var top := Get(a.tree, a.parent);
    if i: nat :| i < |top.children| && IsStep(top.children[i], Keys(tokens)) && b == a.(parent := a.parent + [Child(i)], tokens := []) {
      assert b.parent[..|a.save|] == a.save;
    } else {
      var leaf, keyword := Node(tokens, [], [], None), a.block == 1;
      var grown := WithNode(top, leaf, keyword);
      assert b.parent[..|a.save|] == a.save && b.parent[|a.save|] == a.parent[|a.save|] == rest[0];
      LaidBelow(a.tree, a.save, pr.done, pr.m, rest, grown);
      KeepsBelow(n, rest, grown, pr.m);
      PutGet(a.tree, a.save, Put(n, rest, grown));
      if rest[0].Child? {
        NamedKept(n, Put(n, rest, grown), pr.words[0][0], pr.m);
      } else {
        ValueAdded(n, rest, pr.words, tokens);
        Inserted(a.tree, a.parent, leaf, false);
      }
    }
  }

  lemma NamedKept(a: Node, b: Node, key: Text, m: int)
    requires Keeps(a, b, m) && Named(a, key)
    ensures Named(b, key)
  {
    var i :| 0 <= i < |a.children| && HasKey(a.children[i], key);
    assert HasKey(b.children[i], key);
  }

  /** The first node behind a keyword is its value; what comes behind that does not matter. */
  lemma ValueAdded(n: Node, rest: Path, words: seq<seq<Text>>, tokens: seq<Token>)
    requires OnPath(n, rest) && rest != [] && rest[0].Keyword? && words != [] && |words[0]| == 1
    requires IsKeyword(n.keyword[rest[0].i], words) && (|words| == 1 ==> |rest| == 1) && Get(n, rest).children == []
    ensures var grown := WithNode(Get(n, rest), Node(tokens, [], [], None), false);
            IsKeyword(Put(n, rest, grown).keyword[rest[0].i], words + [Keys(tokens)])
  {
    var item, grown := n.keyword[rest[0].i], WithNode(Get(n, rest), Node(tokens, [], [], None), false);
    var q := rest[1..];
    var after := Put(item, q, grown);
    PutTokens(item, q, grown);
    if |words| == 1 {
      assert q == [] && after.children == [Node(tokens, [], [], None)] && (words + [Keys(tokens)])[1] == Keys(tokens);
      assert HasKeys(after.children[0], Keys(tokens));
    } else {
      assert (words + [Keys(tokens)])[1] == words[1];
      FirstChild(item, q, grown);
    }
  }

  lemma FirstChild(item: Node, q: Path, grown: Node)
    requires OnPath(item, q) && item.children != [] && Get(item, q).children == [] && grown.tokens == Get(item, q).tokens
    ensures Put(item, q, grown).children != [] && Put(item, q, grown).children[0].tokens == item.children[0].tokens
  {
    if q != [] {
      match q[0]
      case Child(i) => PutTokens(item.children[i], q[1..], grown);
      case Keyword(_) =>
    }
  }

  // ----- Braces and bars -----

  /** The alternative that has been read is offered. */
  lemma OpenOffers(st: State, pr: Progress)
    requires Sound(st) && st.block != 0 && Entering(st, pr)
    ensures var m := |Get(st.tree, st.save).keyword|;
            Laid(st.tree, st.save, pr.done + Closed(pr.words), m)
  {
    hide Put, Get, OnPath, Laid, IsKeyword;
    var n := Get(st.tree, st.save);
    LaidMore(st.tree, st.save, pr.done, pr.m, |n.keyword|);
    if pr.words == [] {
      assert pr.done + [] == pr.done;
    } else {
      LaidChoice(st.tree, st.save, pr.done, |n.keyword|, pr.words);
    }
  }

  /** At a brace, a bar or the start of a group. */
  lemma BraceParts(line: Text, g: Stage, pr: Progress) returns (more: Progress)
    requires Fine(line, g) && g.cp < |line| && line[g.cp] in {0x7b, 0x7d, 0x28, PIPE} && Next(line, g).Some? && OnParts(line, g, pr)
    ensures OnParts(line, Next(line, g).value, more)
  {
    hide Laid, FromLine, OnPath, Get, Closed;
    more := pr;
    var c, st := line[g.cp], g.st;
    if c == 0x28 {
      assert Keys(st.tokens) == [];
    } else if c == 0x7d || (c == PIPE && !g.multiple) {
      OpenOffers(st, pr);
      more := Progress(pr.done + Closed(pr.words), [], |Get(st.tree, st.save).keyword|);
    }
  }

  lemma ParenParts(line: Text, g: Stage, pr: Progress) returns (more: Progress)
    requires Fine(line, g) && g.cp < |line| && line[g.cp] == 0x29 && Next(line, g).Some? && OnParts(line, g, pr)
    ensures OnParts(line, Next(line, g).value, more)
  {
    hide Laid, FromLine, OnPath, Get, Grouped, Enters, Entering;
    var b := Grouped(g.st).value;
    GroupedExtends(line, g.st);
    GroupEnters(g.st);
    more := PartEntered(line, g.cp + 1, g.st, b, g.st.tokens, pr);
  }

  lemma WordParts(line: Text, g: Stage, pr: Progress) returns (more: Progress)
    requires Fine(line, g) && g.cp < |line| && WordChar(line[g.cp]) && Next(line, g).Some? && OnParts(line, g, pr)
    ensures OnParts(line, Next(line, g).value, more)
  {
    hide Laid, FromLine, OnPath, Get, Entered, Enters, Entering;
    var t, to := TokenAt(line, g), WordStop(line, g.cp);
    if g.multiple {
      more := pr;
      assert Keys(g.st.tokens + [t]) == Keys(g.st.tokens) + [line[g.cp..to]];
      SameEntering(g.st, g.st.(tokens := g.st.tokens + [t]), pr);
    } else {
      var b := Entered(g.st, t);
      TokenFromLine(line, g);
      EnteredExtends(line, g.st, t);
      EnteredTokens(g.st, t);
      WordEnters(g.st, t);
      assert Keys([t]) == [line[g.cp..to]];
      more := PartEntered(line, to, g.st, b, [t], pr);
    }
  }

  lemma SameEntering(a: State, b: State, pr: Progress)
    requires Sound(a) && Sound(b) && Entering(a, pr) && b == a.(tokens := b.tokens)
    ensures Entering(b, pr)
  {
  }

  lemma PartEntered(line: Text, to: nat, a: State, b: State, tokens: seq<Token>, pr: Progress) returns (more: Progress)
    requires Sound(a) && Sound(b) && Enters(a, b, tokens) && Entering(a, pr) && to <= |line|
    requires a.block == 1 ==> |tokens| == 1
    ensures Entering(b, more) && (a.block == 0 <==> b.block == 0)
    ensures pr.done + Behind(line, to, if a.block == 0 then None else Some(pr.words), Keys(tokens)) ==
            more.done + Parts(line, to, if b.block == 0 then None else Some(more.words), None)
  {
    hide Laid, OnPath, Get, Enters, Parts;
    if a.block == 0 {
      more := EntersStep(a, b, tokens, pr);
    } else if pr.words == [] {
      assert tokens == [tokens[0]] && Keys(tokens) == [tokens[0].key];
      more := EntersKeyword(a, b, tokens[0], pr);
      assert more.words == pr.words + [Keys(tokens)];
    } else {
      more := EntersValue(a, b, tokens, pr);
    }
  }

  lemma NextParts(line: Text, g: Stage, pr: Progress) returns (more: Progress)
    requires Fine(line, g) && g.cp < |line| && line[g.cp] != 32 && Next(line, g).Some?
    requires Stuck(line, g.cp) || OnParts(line, g, pr)
    ensures Stuck(line, Next(line, g).value.cp) || OnParts(line, Next(line, g).value, more)
  {
    hide OnParts, Fine, FromLine;
    more := pr;
    if Stuck(line, g.cp) {
      assert !WordChar(line[g.cp]);
    } else if WordChar(line[g.cp]) {
      more := WordParts(line, g, pr);
    } else if line[g.cp] == 0x29 {
      more := ParenParts(line, g, pr);
    } else {
      more := BraceParts(line, g, pr);
    }
  }

  // ----- The handler -----

  /** The handler is where the parts of the line lead, and above a vararg too. */
  ghost predicate HandlesAt(tree: Node, p: Path, parts: seq<Part>, f: int) {
    && p != [] && OnPath(tree, p) && Laid(tree, p, parts, |Get(tree, p).keyword|) && Get(tree, p).func == Some(f)
    && OnPath(tree, p[..|p| - 1]) && (StartsVararg(Get(tree, p)) ==> Get(tree, p[..|p| - 1]).func == Some(f))
  }

  ghost predicate Handles(tree: Node, parts: seq<Part>, f: int) {
    exists p: Path :: HandlesAt(tree, p, parts, f)
  }

  /** A handler stored on the path. */
  lemma {:induction false} LaidFunc(n: Node, p: Path, parts: seq<Part>, m: int, q: Path, f: Option<int>)
    requires Laid(n, p, parts, m) && q <= p && OnPath(n, q)
    ensures Laid(Put(n, q, Get(n, q).(func := f)), p, parts, m)
    decreases |parts|
  {
    var b := Get(n, q).(func := f);
    if parts != [] {
      hide Offers;
      match parts[0]
      case Choice(words) =>
        LaidFunc(n, p, parts[1..], m, q, f);
        if q == [] {
          OffersKept(n, b, words, if p == [] then m else |n.keyword|);
        } else {
          LaidOnPath(n, p, parts, m);
          LaidChild(n, p, parts[1..], m);
          OffersBeside(n, q, b, words);
        }
      case Step(_) =>
        if q != [] {
          PutTokens(n.children[p[0].i], q[1..], b);
          LaidFunc(n.children[p[0].i], p[1..], parts[1..], m, q[1..], f);
        }
    }
  }

  lemma EndedHandles(tree: Node, p: Path, parts: seq<Part>, f: int)
    requires OnPath(tree, p) && p != [] && Laid(tree, p, parts, |Get(tree, p).keyword|)
    ensures HandlesAt(Ended(tree, p, f), p, parts, f)
  {
    hide Put, Get, OnPath, Laid;
    var n, above, m := Get(tree, p), p[..|p| - 1], |Get(tree, p).keyword|;
    var t := Put(tree, p, n.(func := Some(f)));
    PutGet(tree, p, n.(func := Some(f)));
    AboveOnPath(tree, p, n.(func := Some(f)));
    LaidFunc(tree, p, parts, m, p, Some(f));
    if StartsVararg(n) {
      var b := Get(t, above);
      assert p == above + [p[|p| - 1]];
      PathAppend(t, above, [p[|p| - 1]]);
      PutGet(t, above, b.(func := Some(f)));
      PathAppend(Put(t, above, b.(func := Some(f))), above, [p[|p| - 1]]);
      SameBelow(b, b.(func := Some(f)), p[|p| - 1]);
      LaidFunc(t, p, parts, m, above, Some(f));
    }
  }

  lemma SameBelow(a: Node, b: Node, l: Link)
    requires a.children == b.children && a.keyword == b.keyword && OnPath(a, [l])
    ensures OnPath(b, [l]) && Get(b, [l]) == Get(a, [l])
  {
    assert [l][1..] == [];
  }
}
