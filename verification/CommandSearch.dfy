/** The search for the node a line of words leads to, on trees with alternatives,
    variables, varargs and keyword blocks, and the outcome of a line. */
module CommandSearches {
  import opened Basics
  import opened CommandTrees

  /** What a search collects on its way: the words that are arguments, and the keywords
      with their values. */
  datatype Found = Found(node: Node, args: seq<Text>, pairs: map<Text, Text>)

  /** A pass over a keyword block leaves words over, ends at a keyword whose value is
      missing, or fails. */
  datatype Pass = Rest(words: seq<Text>, pairs: map<Text, Text>) | Unfinished(node: Node, pairs: map<Text, Text>) | Failed

  /** The value of a keyword that takes none. */
  const ONE: Text := [0x31]

  // ----- The search as a function -----

  predicate LoneVararg(n: Node) {
    |n.tokens| == 1 && n.tokens[0].kind == Vararg
  }

  /** A vararg that stands alone takes all words, any other node one. */
  function Width(n: Node, words: seq<Text>): (w: nat)
    requires words != []
    ensures 1 <= w <= |words|
  {
    if LoneVararg(n) then |words| else 1
  }

  /** The words taken by a node are arguments unless it is one literal. */
  function Args(n: Node, words: seq<Text>): seq<Text>
    requires words != []
  {
    if |n.tokens| == 1 && n.tokens[0].kind == Literal then [] else words[..Width(n, words)]
  }

  ghost function RunBlock(block: seq<Node>, words: seq<Text>, pairs: map<Text, Text>): (p: Pass)
    ensures p.Rest? ==> |p.words| <= |words|
    decreases |words|
  {
    if words == [] then Rest(words, pairs)
    else match Chosen(block, words[0])
      case None => Rest(words, pairs)
      case Some(t) =>
        var item := block[t.0];
        if item.children == [] then RunBlock(block, words[1..], pairs[words[0] := ONE])
        else if |words| == 1 then Unfinished(item, pairs[words[0] := ONE])
        else if Chosen(item.children, words[1]) == None then Failed
        else RunBlock(block, words[2..], pairs[words[0] := words[1]])
  }

  ghost function Resolve(head: seq<Node>, words: seq<Text>, args: seq<Text>, pairs: map<Text, Text>): Option<Found>
    requires words != []
    decreases |words|, 0
  {
    match Chosen(head, words[0])
    case None => None
    case Some(t) =>
      var n := head[t.0];
      ResolveAfter(n, words[Width(n, words)..], args + Args(n, words), pairs)
  }

  /** The search behind a node: its keyword block first, then its children. */
  ghost function ResolveAfter(n: Node, words: seq<Text>, args: seq<Text>, pairs: map<Text, Text>): Option<Found>
    decreases |words|, 1
  {
    match RunBlock(n.keyword, words, pairs)
    case Failed => None
    case Unfinished(m, p) => Some(Found(m, args, p))
    case Rest(rest, p) => if rest == [] then Some(Found(n, args, p)) else Resolve(n.children, rest, args, p)
  }

  // ----- The search as it runs -----

  /** The words of a keyword block from `wordi` on. */
  method SearchBlock(block: seq<Node>, words: seq<Text>, wordi: nat, pairs: map<Text, Text>) returns (p: Pass, i: nat)
    requires wordi < |words|
    ensures i <= |words| && p == RunBlock(block, words[wordi..], pairs) && (p.Rest? ==> p.words == words[i..])
  {
    hide RunBlock;
    i := wordi;
    var h := pairs;
    while i < |words|
      invariant wordi <= i <= |words| && RunBlock(block, words[i..], h) == RunBlock(block, words[wordi..], pairs)
    {
      BlockUnfold(block, words, i, h);
      var best := FindBestNode(block, words[i]);
      if best == None {
        break;
      }
      var target := block[best.value.0];
      var key := words[i];
      ghost var before := h;
      h := h[key := ONE];
      i := i + 1;
      if target.children != [] {
        if i == |words| {
          return Unfinished(target, h), i;
        }
        var value := FindBestNode(target.children, words[i]);
        if value == None {
          return Failed, i;
        }
        h := h[key := words[i]];
        assert h == before[key := words[i]];
        i := i + 1;
      }
    }
    if i == |words| { NoWordsLeft(block, h); }
    p := Rest(words[i..], h);
  }

  lemma BlockUnfold(block: seq<Node>, words: seq<Text>, i: nat, pairs: map<Text, Text>)
    requires i < |words|
    ensures var r := Chosen(block, words[i]);
            RunBlock(block, words[i..], pairs) ==
            if r == None then Rest(words[i..], pairs)
            else if block[r.value.0].children == [] then RunBlock(block, words[i + 1..], pairs[words[i] := ONE])
            else if i + 1 == |words| then Unfinished(block[r.value.0], pairs[words[i] := ONE])
            else if Chosen(block[r.value.0].children, words[i + 1]) == None then Failed
            else RunBlock(block, words[i + 2..], pairs[words[i] := words[i + 1]])
  {
    hide Best, NoneMatches;
    assert words[i..][0] == words[i] && words[i..][1..] == words[i + 1..];
    if i + 1 < |words| { assert words[i..][1] == words[i + 1] && words[i..][2..] == words[i + 2..]; }
  }

  /** The arguments a node takes from `wordi` on. */
  method TakeWords(n: Node, kind: Kind, words: seq<Text>, wordi: nat, args: seq<Text>) returns (argv: seq<Text>, i: nat)
    requires wordi < |words| && (|n.tokens| == 1 ==> kind == n.tokens[0].kind) && n.tokens != []
    ensures wordi < i <= |words| && i == wordi + Width(n, words[wordi..])
    ensures argv == args + Args(n, words[wordi..])
  {
    argv, i := args, wordi;
    if |n.tokens| > 1 {
      argv := argv + [words[i]];
      i := i + 1;
    } else if kind != Literal {
      argv := argv + [words[i]];
      i := i + 1;
      if kind == Vararg {
        while i < |words|
          invariant wordi < i <= |words| && argv == args + words[wordi..i]
        {
          argv := argv + [words[i]];
          i := i + 1;
        }
        assert words[wordi..i] == words[wordi..];
      }
    } else {
      i := i + 1;
    }
  }

  /** Looks for the node of a command; the search never goes back. */
  method Search(head: seq<Node>, words: seq<Text>, wordi: nat, args: seq<Text>, pairs: map<Text, Text>) returns (r: Option<Found>)
    requires wordi < |words|
    ensures r == Resolve(head, words[wordi..], args, pairs)
    decreases |words| - wordi
  {
    hide RunBlock, Width, Args;
    var best := FindBestNode(head, words[wordi]);
    if best == None {
      return None;
    }
    var target := head[best.value.0];
    assert At(head, best.value.0, best.value.1);
    var argv, i := TakeWords(target, target.tokens[best.value.1].kind, words, wordi, args);
    assert words[i..] == words[wordi..][i - wordi..];
    if i == |words| {
      NoWordsLeft(target.keyword, pairs);
      return Some(Found(target, argv, pairs));
    }
    var h := pairs;
    if target.keyword != [] {
      var pass;
      pass, i := SearchBlock(target.keyword, words, i, pairs);
      match pass
      case Failed => return None;
      case Unfinished(m, p) => return Some(Found(m, argv, p));
      case Rest(_, p) =>
        h := p;
        if i == |words| {
          return Some(Found(target, argv, h));
        }
    } else {
      NoBlock(words[i..], pairs);
    }
    if target.children == [] {
      NoChildren(words[i..], argv, h);
      return None;
    }
    r := Search(target.children, words, i, argv, h);
  }

  lemma NoWordsLeft(block: seq<Node>, pairs: map<Text, Text>)
    ensures RunBlock(block, [], pairs) == Rest([], pairs)
  {
  }

  lemma NoBlock(words: seq<Text>, pairs: map<Text, Text>)
    ensures RunBlock([], words, pairs) == Rest(words, pairs)
  {
    assert NoneMatches([], if words == [] then [] else words[0]);
  }

  lemma NoChildren(words: seq<Text>, args: seq<Text>, pairs: map<Text, Text>)
    requires words != []
    ensures Resolve([], words, args, pairs) == None
  {
    assert NoneMatches([], words[0]);
  }

  // ----- What the words of a tree are -----

  /** Some token of the node matches the word. */
  ghost predicate Accepts(n: Node, word: Text) {
    exists j :: 0 <= j < |n.tokens| && MatchWord(n.tokens[j], word) > 0
  }

  ghost predicate OneAccepts(nodes: seq<Node>, word: Text) {
    exists i :: 0 <= i < |nodes| && Accepts(nodes[i], word)
  }

  /** The words can be read along tokens from one of the siblings down to the node of `f`,
      and collect its arguments and pairs on the way. */
  ghost predicate LeadsTo(head: seq<Node>, words: seq<Text>, args: seq<Text>, pairs: map<Text, Text>, f: Found)
    decreases |words|, 1
  {
    words != [] && exists i :: 0 <= i < |head| && ByChild(head[i], words, args, pairs, f)
  }

  ghost predicate ByChild(n: Node, words: seq<Text>, args: seq<Text>, pairs: map<Text, Text>, f: Found)
    requires words != []
    decreases |words|, 0
  {
    Accepts(n, words[0]) && Follows(n, words[Width(n, words)..], args + Args(n, words), pairs, f)
  }

  /** The words can be read behind `n`: any keywords of its block, then its children. */
  ghost predicate Follows(n: Node, words: seq<Text>, args: seq<Text>, pairs: map<Text, Text>, f: Found)
    decreases |words|, 2
  {
    if words == [] then f == Found(n, args, pairs)
    else
      || LeadsTo(n.children, words, args, pairs, f)
      || exists i :: 0 <= i < |n.keyword| && ByKeyword(n, n.keyword[i], words, args, pairs, f)
  }

  /** A keyword without children has the value one, any other the word behind it. */
  ghost predicate ByKeyword(n: Node, item: Node, words: seq<Text>, args: seq<Text>, pairs: map<Text, Text>, f: Found)
    requires words != []
    decreases |words|, 1
  {
    && Accepts(item, words[0])
    && if item.children == [] then Follows(n, words[1..], args, pairs[words[0] := ONE], f)
       else if |words| == 1 then f == Found(item, args, pairs[words[0] := ONE])
       else OneAccepts(item.children, words[1]) && Follows(n, words[2..], args, pairs[words[0] := words[1]], f)
  }

  lemma ChosenAccepts(nodes: seq<Node>, word: Text)
    ensures Chosen(nodes, word) == None <==> !OneAccepts(nodes, word)
    ensures Chosen(nodes, word).Some? ==> Accepts(nodes[Chosen(nodes, word).value.0], word)
  {
    if OneAccepts(nodes, word) {
      var i :| 0 <= i < |nodes| && Accepts(nodes[i], word);
      var j :| 0 <= j < |nodes[i].tokens| && MatchWord(nodes[i].tokens[j], word) > 0;
      assert At(nodes, i, j);
    }
    var r := Chosen(nodes, word);
    if r.Some? {
      assert At(nodes, r.value.0, r.value.1);
      assert Accepts(nodes[r.value.0], word);
    }
  }

  /** On every tree the search only finds what the words lead to. */
  lemma {:induction false} SearchSound(head: seq<Node>, words: seq<Text>, args: seq<Text>, pairs: map<Text, Text>)
    requires words != []
    ensures var r := Resolve(head, words, args, pairs); r.Some? ==> LeadsTo(head, words, args, pairs, r.value)
    decreases |words|, 0
  {
    hide Chosen, Accepts, Follows, ResolveAfter, Args, Width;
    ChosenAccepts(head, words[0]);
    var r := Chosen(head, words[0]);
    if r.Some? {
      var n := head[r.value.0];
      AfterSound(n, words[Width(n, words)..], args + Args(n, words), pairs);
    }
  }

  lemma {:induction false} AfterSound(n: Node, words: seq<Text>, args: seq<Text>, pairs: map<Text, Text>)
    ensures var r := ResolveAfter(n, words, args, pairs); r.Some? ==> Follows(n, words, args, pairs, r.value)
    decreases |words|, 1
  {
    hide RunBlock, Resolve, LeadsTo, ByKeyword;
    var r := ResolveAfter(n, words, args, pairs);
    if r.Some? {
      BlockSound(n, words, args, pairs, r.value);
      var p := RunBlock(n.keyword, words, pairs);
      if p.Rest? && p.words != [] {
        SearchSound(n.children, p.words, args, p.pairs);
      }
    }
  }

  lemma {:induction false} BlockSound(n: Node, words: seq<Text>, args: seq<Text>, pairs: map<Text, Text>, f: Found)
    ensures var p := RunBlock(n.keyword, words, pairs);
            && (p.Unfinished? ==> Follows(n, words, args, pairs, Found(p.node, args, p.pairs)))
            && (p.Rest? && Follows(n, p.words, args, p.pairs, f) ==> Follows(n, words, args, pairs, f))
    decreases |words|
  {
    hide Chosen, Accepts, LeadsTo;
    if words != [] {
      ChosenAccepts(n.keyword, words[0]);
      var r := Chosen(n.keyword, words[0]);
      if r.Some? {
        var item := n.keyword[r.value.0];
        if item.children == [] {
          BlockSound(n, words[1..], args, pairs[words[0] := ONE], f);
        } else if |words| > 1 {
          ChosenAccepts(item.children, words[1]);
          BlockSound(n, words[2..], args, pairs[words[0] := words[1]], f);
        }
      }
    }
  }

  // ----- When the search is exact -----

  /** No word matches both nodes: all their tokens are literals, and different ones. */
  predicate Apart(a: Node, b: Node) {
    forall i, j :: 0 <= i < |a.tokens| && 0 <= j < |b.tokens| ==>
      a.tokens[i].kind == Literal && b.tokens[j].kind == Literal && a.tokens[i].key != b.tokens[j].key
  }

  /** It does not matter which of two siblings a word that matches both goes to. */
  predicate Alike(a: Node, b: Node) {
    Apart(a, b) || a == b
  }

  /** The same for two keywords of a block, which differ only in the values they take. */
  predicate AlikeKeywords(a: Node, b: Node) {
    Alike(a, b) || (a.children == [] && b.children == [])
  }

  /** The first word decides where to go, at `n` and below.  Behind a vararg that stands
      alone there are no words left. */
  ghost predicate Clear(n: Node)
    decreases n, 1
  {
    LoneVararg(n) || ClearBehind(n)
  }

  ghost predicate ClearBehind(n: Node)
    decreases n, 0
  {
    && (forall i, j :: 0 <= i < j < |n.children| ==> Alike(n.children[i], n.children[j]))
    && (forall i, j :: 0 <= i < j < |n.keyword| ==> AlikeKeywords(n.keyword[i], n.keyword[j]))
    && (forall i, j :: 0 <= i < |n.children| && 0 <= j < |n.keyword| ==> Apart(n.children[i], n.keyword[j]))
    && (forall i :: 0 <= i < |n.children| ==> Clear(n.children[i]))
  }

  /** The block of the root is never looked at. */
  ghost predicate ClearTop(tree: Node) {
    && (forall i, j :: 0 <= i < j < |tree.children| ==> Alike(tree.children[i], tree.children[j]))
    && (forall i :: 0 <= i < |tree.children| ==> Clear(tree.children[i]))
  }

  lemma ApartAccept(a: Node, b: Node, word: Text)
    requires Apart(a, b)
    ensures !(Accepts(a, word) && Accepts(b, word))
  {
  }

  /** Of siblings that are alike the one that is chosen is as good as any. */
  lemma ChosenAlike(nodes: seq<Node>, word: Text, i: nat)
    requires i < |nodes| && Accepts(nodes[i], word)
    ensures Chosen(nodes, word).Some?
    ensures (forall i, j :: 0 <= i < j < |nodes| ==> Alike(nodes[i], nodes[j])) ==>
            nodes[Chosen(nodes, word).value.0] == nodes[i]
    ensures (forall i, j :: 0 <= i < j < |nodes| ==> AlikeKeywords(nodes[i], nodes[j])) ==>
            var k := nodes[Chosen(nodes, word).value.0]; k == nodes[i] || k.children == nodes[i].children == []
  {
    hide Accepts, Chosen, Apart;
    ChosenAccepts(nodes, word);
    var k := Chosen(nodes, word).value.0;
    if Apart(nodes[k], nodes[i]) { ApartAccept(nodes[k], nodes[i], word); }
    if Apart(nodes[i], nodes[k]) { ApartAccept(nodes[i], nodes[k], word); }
  }

  /** On a clear tree the search finds all that the words lead to. */
  lemma {:induction false} SearchComplete(n: Node, words: seq<Text>, args: seq<Text>, pairs: map<Text, Text>, f: Found)
    requires ClearTop(n) && LeadsTo(n.children, words, args, pairs, f)
    ensures Resolve(n.children, words, args, pairs) == Some(f)
    decreases |words|, 0
  {
    hide Chosen, Accepts, Follows, ResolveAfter, Args, Alike;
    var i :| 0 <= i < |n.children| && ByChild(n.children[i], words, args, pairs, f);
    ChosenAlike(n.children, words[0], i);
    var m := n.children[i];
    AfterComplete(m, words[Width(m, words)..], args + Args(m, words), pairs, f);
  }

  lemma {:induction false} AfterComplete(n: Node, words: seq<Text>, args: seq<Text>, pairs: map<Text, Text>, f: Found)
    requires (ClearBehind(n) || words == []) && Follows(n, words, args, pairs, f)
    ensures ResolveAfter(n, words, args, pairs) == Some(f)
    decreases |words|, 1
  {
    if words == [] {
    } else if LeadsTo(n.children, words, args, pairs, f) {
      hide Resolve, LeadsTo;
      NoKeyword(n, words, args, pairs, f);
      SearchComplete(n, words, args, pairs, f);
    } else {
      var i :| 0 <= i < |n.keyword| && ByKeyword(n, n.keyword[i], words, args, pairs, f);
      KeywordComplete(n, i, words, args, pairs, f);
    }
  }

  /** A word that leads to a child is not a keyword. */
  lemma NoKeyword(n: Node, words: seq<Text>, args: seq<Text>, pairs: map<Text, Text>, f: Found)
    requires ClearBehind(n) && LeadsTo(n.children, words, args, pairs, f)
    ensures RunBlock(n.keyword, words, pairs) == Rest(words, pairs)
  {
    hide Chosen, Accepts, Follows, Apart, Clear;
    var i :| 0 <= i < |n.children| && ByChild(n.children[i], words, args, pairs, f);
    ChosenAccepts(n.keyword, words[0]);
    forall j | 0 <= j < |n.keyword| ensures !Accepts(n.keyword[j], words[0]) {
      ApartAccept(n.children[i], n.keyword[j], words[0]);
    }
  }

  lemma {:induction false} KeywordComplete(n: Node, i: nat, words: seq<Text>, args: seq<Text>, pairs: map<Text, Text>, f: Found)
    requires ClearBehind(n) && i < |n.keyword| && words != [] && ByKeyword(n, n.keyword[i], words, args, pairs, f)
    ensures ResolveAfter(n, words, args, pairs) == Some(f)
    decreases |words|, 0
  {
    hide Chosen, Accepts, Apart, LeadsTo, Resolve, Alike, Clear;
    ChosenAlike(n.keyword, words[0], i);
    var item := n.keyword[i];
    if item.children == [] {
      AfterComplete(n, words[1..], args, pairs[words[0] := ONE], f);
    } else if |words| > 1 {
      ChosenAccepts(item.children, words[1]);
      AfterComplete(n, words[2..], args, pairs[words[0] := words[1]], f);
    }
  }

  // ----- Where a tree is not clear, the search misses something -----

  lemma SharedWord(a: Node, b: Node) returns (word: Text)
    requires !Apart(a, b)
    ensures Accepts(a, word) && Accepts(b, word)
  {
    var i, j :| 0 <= i < |a.tokens| && 0 <= j < |b.tokens| &&
      !(a.tokens[i].kind == Literal && b.tokens[j].kind == Literal && a.tokens[i].key != b.tokens[j].key);
    word := if a.tokens[i].kind == Literal then a.tokens[i].key else b.tokens[j].key;
    assert MatchWord(a.tokens[i], word) > 0 && MatchWord(b.tokens[j], word) > 0;
  }

  lemma SomeWord(n: Node) returns (word: Text)
    requires n.tokens != []
    ensures Accepts(n, word)
  {
    word := n.tokens[0].key;
    assert MatchWord(n.tokens[0], word) > 0;
  }

  /** Where words lead to two things the search misses one of them. */
  lemma MissedOne(n: Node, words: seq<Text>, args: seq<Text>, pairs: map<Text, Text>, f: Found, g: Found) returns (h: Found)
    requires f != g && Follows(n, words, args, pairs, f) && Follows(n, words, args, pairs, g)
    ensures Follows(n, words, args, pairs, h) && ResolveAfter(n, words, args, pairs) != Some(h)
  {
    h := if ResolveAfter(n, words, args, pairs) == Some(f) then g else f;
  }

  /** One word that leads to a child. */
  lemma OneToChild(n: Node, i: nat, word: Text, args: seq<Text>, pairs: map<Text, Text>) returns (f: Found)
    requires i < |n.children| && Accepts(n.children[i], word)
    ensures f.node == n.children[i] && Follows(n, [word], args, pairs, f)
  {
    var c := n.children[i];
    f := Found(c, args + Args(c, [word]), pairs);
    assert [word][Width(c, [word])..] == [];
    assert ByChild(c, [word], args, pairs, f);
  }

  /** One word that is a keyword: back to the node, or on to the keyword when it takes a value. */
  lemma OneToKeyword(n: Node, i: nat, word: Text, args: seq<Text>, pairs: map<Text, Text>) returns (f: Found)
    requires i < |n.keyword| && Accepts(n.keyword[i], word)
    ensures f.node == (if n.keyword[i].children == [] then n else n.keyword[i]) && Follows(n, [word], args, pairs, f)
  {
    var item := n.keyword[i];
    f := Found(if item.children == [] then n else item, args, pairs[word := ONE]);
    assert [word][1..] == [];
    assert ByKeyword(n, item, [word], args, pairs, f);
  }

  lemma TwoChildren(n: Node, i: nat, j: nat, args: seq<Text>, pairs: map<Text, Text>) returns (words: seq<Text>, f: Found)
    requires i < |n.children| && j < |n.children| && !Alike(n.children[i], n.children[j])
    ensures words != [] && Follows(n, words, args, pairs, f) && ResolveAfter(n, words, args, pairs) != Some(f)
  {
    hide Follows, ResolveAfter, Apart, Accepts;
    var word := SharedWord(n.children[i], n.children[j]);
    var g := OneToChild(n, i, word, args, pairs);
    var h := OneToChild(n, j, word, args, pairs);
    words := [word];
    f := MissedOne(n, words, args, pairs, g, h);
  }

  lemma TwoKeywords(n: Node, i: nat, j: nat, args: seq<Text>, pairs: map<Text, Text>) returns (words: seq<Text>, f: Found)
    requires i < |n.keyword| && j < |n.keyword| && !AlikeKeywords(n.keyword[i], n.keyword[j])
    ensures words != [] && Follows(n, words, args, pairs, f) && ResolveAfter(n, words, args, pairs) != Some(f)
  {
    hide Follows, ResolveAfter, Apart, Accepts;
    var word := SharedWord(n.keyword[i], n.keyword[j]);
    var g := OneToKeyword(n, i, word, args, pairs);
    var h := OneToKeyword(n, j, word, args, pairs);
    words := [word];
    f := MissedOne(n, words, args, pairs, g, h);
  }

  /** A child that is a keyword too; if they are the same node, two words tell them apart. */
  lemma ChildAndKeyword(n: Node, i: nat, j: nat, args: seq<Text>, pairs: map<Text, Text>) returns (words: seq<Text>, f: Found)
    requires i < |n.children| && j < |n.keyword| && !Apart(n.children[i], n.keyword[j]) && HasTokens(n)
    ensures words != [] && Follows(n, words, args, pairs, f) && ResolveAfter(n, words, args, pairs) != Some(f)
  {
    hide Follows, ResolveAfter, Apart, Accepts;
    var c, item := n.children[i], n.keyword[j];
    var word := SharedWord(c, item);
    words := [word];
    var g, h;
    if item.children == [] || c != item {
      g := OneToChild(n, i, word, args, pairs);
      h := OneToKeyword(n, j, word, args, pairs);
    } else {
      assert EveryBelow(c, SomeTokens) && SomeTokens(c.children[0].tokens);
      var value := SomeWord(c.children[0]);
      words := [word, value];
      g := TwoToChild(n, i, word, value, args, pairs);
      h := TwoToKeyword(n, j, word, value, args, pairs);
    }
    f := MissedOne(n, words, args, pairs, g, h);
  }

  lemma AtTheEnd(n: Node, args: seq<Text>, pairs: map<Text, Text>)
    ensures Follows(n, [], args, pairs, Found(n, args, pairs))
  {
  }

  lemma TwoToChild(n: Node, i: nat, word: Text, value: Text, args: seq<Text>, pairs: map<Text, Text>) returns (f: Found)
    requires i < |n.children| && n.children[i].children != []
    requires Accepts(n.children[i], word) && Accepts(n.children[i].children[0], value)
    ensures f.node != n && Follows(n, [word, value], args, pairs, f)
  {
    hide Accepts;
    var c, words := n.children[i], [word, value];
    var more := args + Args(c, words);
    if LoneVararg(c) {
      f := Found(c, more, pairs);
      assert words[Width(c, words)..] == [];
      AtTheEnd(c, more, pairs);
    } else {
      f := OneToChild(c, 0, value, more, pairs);
      assert c.children[0] < c < n;
      assert words[Width(c, words)..] == [value];
    }
    assert ByChild(c, words, args, pairs, f);
  }

  lemma TwoToKeyword(n: Node, j: nat, word: Text, value: Text, args: seq<Text>, pairs: map<Text, Text>) returns (f: Found)
    requires j < |n.keyword| && n.keyword[j].children != []
    requires Accepts(n.keyword[j], word) && Accepts(n.keyword[j].children[0], value)
    ensures f.node == n && Follows(n, [word, value], args, pairs, f)
  {
    var item, words := n.keyword[j], [word, value];
    f := Found(n, args, pairs[word := value]);
    assert words[2..] == [];
    assert ByKeyword(n, item, words, args, pairs, f);
  }

  /** Behind a word of a child that is not clear, the search misses what it misses there. */
  lemma MissedBehind(n: Node, i: nat, word: Text, rest: seq<Text>, args: seq<Text>, pairs: map<Text, Text>, f: Found)
    requires i < |n.children| && Accepts(n.children[i], word) && !LoneVararg(n.children[i]) && rest != []
    requires forall i, j :: 0 <= i < j < |n.children| ==> Alike(n.children[i], n.children[j])
    requires forall j :: 0 <= j < |n.keyword| ==> Apart(n.children[i], n.keyword[j])
    requires var more := args + Args(n.children[i], [word] + rest);
             Follows(n.children[i], rest, more, pairs, f) && ResolveAfter(n.children[i], rest, more, pairs) != Some(f)
    ensures Follows(n, [word] + rest, args, pairs, f) && ResolveAfter(n, [word] + rest, args, pairs) != Some(f)
  {
    hide Chosen, Accepts, Apart, Alike, Args;
    var c, words := n.children[i], [word] + rest;
    assert words[Width(c, words)..] == rest;
    assert ByChild(c, words, args, pairs, f);
    ChosenAlike(n.children, word, i);
    ChosenAccepts(n.keyword, word);
    forall j | 0 <= j < |n.keyword| ensures !Accepts(n.keyword[j], word) {
      ApartAccept(c, n.keyword[j], word);
    }
    assert RunBlock(n.keyword, words, pairs) == Rest(words, pairs);
  }

  lemma OneArg(n: Node, word: Text, rest: seq<Text>)
    requires !LoneVararg(n)
    ensures Args(n, [word] + rest) == Args(n, [word])
  {
    assert ([word] + rest)[..1] == [word][..1];
  }

  lemma {:induction false} UnclearMisses(n: Node, args: seq<Text>, pairs: map<Text, Text>) returns (words: seq<Text>, f: Found)
    requires HasTokens(n) && !ClearBehind(n)
    ensures words != [] && Follows(n, words, args, pairs, f) && ResolveAfter(n, words, args, pairs) != Some(f)
    decreases n
  {
    hide Follows, ResolveAfter, Apart, Accepts, Alike, AlikeKeywords, Args, LoneVararg;
    if i, j :| 0 <= i < j < |n.children| && !Alike(n.children[i], n.children[j]) {
      words, f := TwoChildren(n, i, j, args, pairs);
    } else if i, j :| 0 <= i < j < |n.keyword| && !AlikeKeywords(n.keyword[i], n.keyword[j]) {
      words, f := TwoKeywords(n, i, j, args, pairs);
    } else if i, j :| 0 <= i < |n.children| && 0 <= j < |n.keyword| && !Apart(n.children[i], n.keyword[j]) {
      words, f := ChildAndKeyword(n, i, j, args, pairs);
    } else {
      var i :| 0 <= i < |n.children| && !Clear(n.children[i]);
      var c := n.children[i];
      var word := SomeWord(c);
      words, f := UnclearMisses(c, args + Args(c, [word]), pairs);
      OneArg(c, word, words);
      MissedBehind(n, i, word, words, args, pairs, f);
      words := [word] + words;
    }
  }

  /** The search finds exactly what the words lead to. */
  ghost predicate Exact(tree: Node) {
    forall words: seq<Text>, f: Found :: words != [] ==>
      (LeadsTo(tree.children, words, [], map[], f) <==> Resolve(tree.children, words, [], map[]) == Some(f))
  }

  /** The search is exact on clear trees and on no others. */
  lemma SearchExact(tree: Node)
    requires HasTokens(tree)
    ensures Exact(tree) <==> ClearTop(tree)
  {
    hide LeadsTo, Resolve, HasTokens;
    if ClearTop(tree) {
      forall words: seq<Text>, f: Found | words != []
        ensures LeadsTo(tree.children, words, [], map[], f) <==> Resolve(tree.children, words, [], map[]) == Some(f)
      {
        hide ClearTop;
        SearchSound(tree.children, words, [], map[]);
        if LeadsTo(tree.children, words, [], map[], f) { SearchComplete(tree, words, [], map[], f); }
      }
    } else {
      var words, f := UnclearTop(tree);
    }
  }

  lemma UnclearTop(tree: Node) returns (words: seq<Text>, f: Found)
    requires HasTokens(tree) && !ClearTop(tree)
    ensures words != [] && LeadsTo(tree.children, words, [], map[], f) && Resolve(tree.children, words, [], map[]) != Some(f)
  {
    hide LeadsTo, Resolve, Clear, RunBlock, Alike;
    var top := tree.(keyword := []);
    words, f := UnclearMisses(top, [], map[]);
    NoBlock(words, map[]);
  }

  /** Below the root of `a` and of `X b` the words `a b` lead to `b` with the argument `a`,
      but the search stays with the literal `a` and fails. */
  lemma SearchNeverGoesBack()
    ensures var b := NewNode([0x62], []);
            var a, x := NewNode([0x61], []), NewNode([0x58], []).(children := [b]);
            var words := [[0x61], [0x62]];
            LeadsTo([a, x], words, [], map[], Found(b, [[0x61]], map[])) && Resolve([a, x], words, [], map[]) == None
  {
    var b := NewNode([0x62], []);
    var a, x := NewNode([0x61], []), NewNode([0x58], []).(children := [b]);
    var words: seq<Text> := [[0x61], [0x62]];
    var rest := words[1..];
    var f := Found(b, [[0x61]], map[]);
    assert Accepts(b, rest[0]) by { assert MatchWord(b.tokens[0], rest[0]) == 3; }
    assert Accepts(x, words[0]) by { assert MatchWord(x.tokens[0], words[0]) == 1; }
    assert rest[Width(b, rest)..] == [] && words[Width(x, words)..] == rest && Args(b, rest) == [] && [] + Args(x, words) == f.args;
    assert ByChild(b, rest, f.args, map[], f) by { assert f.args + [] == f.args; }
    assert LeadsTo(x.children, rest, f.args, map[], f) by { assert x.children[0] == b; }
    assert ByChild(x, words, [], map[], f);
    assert LeadsTo([a, x], words, [], map[], f) by { assert [a, x][1] == x; }
    assert Best([a, x], words[0], 0, 0);
    BestUnique([a, x], words[0], 0, 0, Chosen([a, x], words[0]).value.0, Chosen([a, x], words[0]).value.1);
    NoBlock(rest, map[]);
    NoChildren(rest, [], map[]);
    assert Args(a, words) == [];
  }

  // ----- Where the search ends -----

  /** A node that is found is below one of the siblings. */
  lemma {:induction false} FoundBelow(head: seq<Node>, words: seq<Text>, args: seq<Text>, pairs: map<Text, Text>)
    requires words != [] && Resolve(head, words, args, pairs).Some?
    ensures exists i :: 0 <= i < |head| && Below(Resolve(head, words, args, pairs).value.node, head[i])
    decreases |words|, 0
  {
    hide Chosen, ResolveAfter, Args, Width;
    var n := head[Chosen(head, words[0]).value.0];
    AfterBelow(n, words[Width(n, words)..], args + Args(n, words), pairs);
  }

  lemma {:induction false} AfterBelow(n: Node, words: seq<Text>, args: seq<Text>, pairs: map<Text, Text>)
    requires ResolveAfter(n, words, args, pairs).Some?
    ensures Below(ResolveAfter(n, words, args, pairs).value.node, n)
    decreases |words|, 1
  {
    hide RunBlock, Resolve;
    var p := RunBlock(n.keyword, words, pairs);
    BlockBelow(n.keyword, words, pairs);
    if p.Rest? && p.words != [] {
      FoundBelow(n.children, p.words, args, p.pairs);
    }
  }

  lemma {:induction false} BlockBelow(block: seq<Node>, words: seq<Text>, pairs: map<Text, Text>)
    ensures var p := RunBlock(block, words, pairs);
            p.Unfinished? ==> exists i :: 0 <= i < |block| && Below(p.node, block[i])
    decreases |words|
  {
    hide Chosen;
    if words != [] && Chosen(block, words[0]).Some? {
      var item := block[Chosen(block, words[0]).value.0];
      if item.children == [] {
        BlockBelow(block, words[1..], pairs[words[0] := ONE]);
      } else if |words| > 1 {
        BlockBelow(block, words[2..], pairs[words[0] := words[1]]);
      }
    }
  }

  /** The node that finished words lead to, the tree itself without any. */
  ghost function Base(tree: Node, words: seq<Text>): Option<Node> {
    if words == [] then Some(tree)
    else match Resolve(tree.children, words, [], map[])
      case None => None
      case Some(f) => Some(f.node)
  }

  lemma BaseBelow(tree: Node, words: seq<Text>)
    requires Base(tree, words).Some?
    ensures Below(Base(tree, words).value, tree)
  {
    hide Resolve;
    if words != [] { FoundBelow(tree.children, words, [], map[]); }
  }

  /** Looks up the node for completion and help. */
  method FindBase(tree: Node, words: seq<Text>) returns (r: Option<Node>)
    ensures r == Base(tree, words)
  {
    if |words| == 0 {
      return Some(tree);
    }
    var found := Search(tree.children, words, 0, [], map[]);
    assert words[0..] == words;
    r := if found == None then None else Some(found.value.node);
  }

  // ----- Executing -----

  /** The handler that is called and with what, or why none is. */
  datatype Outcome =
    | Reached(handler: int, args: seq<Text>, pairs: map<Text, Text>)
    | Incomplete
    | NoMatch
    | Invalid

  ghost function Execute(tree: Node, words: seq<Text>): Outcome
    requires words != []
  {
    match Resolve(tree.children, words, [], map[])
    case None => NoMatch
    case Some(f) => if f.node.func == None then Incomplete else Reached(f.node.func.value, f.args, f.pairs)
  }

  method ExecuteWords(tree: Node, words: seq<Text>) returns (r: Outcome)
    requires words != []
    ensures r == Execute(tree, words)
  {
    var found := Search(tree.children, words, 0, [], map[]);
    assert words[0..] == words;
    if found == None {
      return NoMatch;
    }
    if found.value.node.func == None {
      return Incomplete;
    }
    return Reached(found.value.node.func.value, found.value.args, found.value.pairs);
  }

  /** The words before the first one that starts a pipe. */
  function CommandPart(words: seq<Text>): (n: nat)
    ensures n <= |words|
  {
    if words == [] || (words[0] != [] && words[0][0] == PIPE) then 0 else 1 + CommandPart(words[1..])
  }

  /** The outcome of a line: nothing without words, invalid when it starts with a bar. */
  ghost function LineOutcome(tree: Node, line: Text): Option<Outcome> {
    var words := Words(line);
    if words == [] then None
    else if CommandPart(words) == 0 then Some(Invalid)
    else Some(Execute(tree, words[..CommandPart(words)]))
  }

  /** Executes the command of a line, if it has any words. */
  method ExecuteLine(tree: Node, line: Text) returns (r: Option<Outcome>)
    ensures r == LineOutcome(tree, line)
  {
    var words := LineArgs(line);
    if |words| == 0 {
      return None;
    }
    var i := 0;
    while i < |words|
      invariant 0 <= i <= |words| && CommandPart(words) == i + CommandPart(words[i..])
    {
      assert words[i..][0] == words[i] && words[i..][1..] == words[i + 1..];
      if words[i] != [] && words[i][0] == PIPE {
        break;
      }
      i := i + 1;
    }
    if i == 0 {
      return Some(Invalid);
    }
    var outcome := ExecuteWords(tree, words[..i]);
    return Some(outcome);
  }

  // ----- Lines of text -----

  /** Words without a bar in front are all part of the command. */
  lemma {:induction false} AllCommand(words: seq<Text>)
    requires forall i :: 0 <= i < |words| ==> words[i] == [] || words[i][0] != PIPE
    ensures CommandPart(words) == |words|
  {
    if words != [] { AllCommand(words[1..]); }
  }

  lemma {:induction false} CommandBefore(words: seq<Text>, bar: Text)
    requires (forall i :: 0 <= i < |words| ==> words[i] == [] || words[i][0] != PIPE) && bar != [] && bar[0] == PIPE
    ensures CommandPart(words + [bar]) == |words|
  {
    if words != [] {
      assert (words + [bar])[1..] == words[1..] + [bar];
      CommandBefore(words[1..], bar);
    }
  }

  /** Words typed with spaces between them are executed. */
  lemma SpacedExecutes(tree: Node, words: seq<Text>)
    requires words != [] && forall i :: 0 <= i < |words| ==> IsWord(words[i])
    ensures LineOutcome(tree, Spaced(words)) == Some(Execute(tree, words))
  {
    hide Execute, Spaced, Words, CommandPart, IsWord;
    SpacedWords(words);
    NoBarInFront(words);
    AllCommand(words);
    assert words[..|words|] == words;
  }

  lemma BarWords(words: seq<Text>, rest: Text)
    requires forall i :: 0 <= i < |words| ==> IsWord(words[i])
    ensures Words(Spaced(words) + [PIPE] + rest) == words + [[PIPE] + rest]
  {
    hide Words, Spaced, IsWord;
    var line, bar := Spaced(words), [PIPE] + rest;
    SpacedWords(words);
    SpacedEnd(words);
    LineConcat(line, bar);
    assert line + [PIPE] + rest == line + bar;
    JustBar(rest);
  }

  lemma JustBar(rest: Text)
    ensures Words([PIPE] + rest) == [[PIPE] + rest]
  {
    hide Words;
    OneWord([97], rest);
  }

  lemma NoBarInFront(words: seq<Text>)
    requires forall i :: 0 <= i < |words| ==> IsWord(words[i])
    ensures forall i :: 0 <= i < |words| ==> words[i] == [] || words[i][0] != PIPE
  {
    forall i | 0 <= i < |words| ensures words[i] == [] || words[i][0] != PIPE { assert IsWord(words[i]) && EndsWord(PIPE); }
  }

  /** What is behind a bar does not matter, and a bar cannot start a line. */
  lemma BarIgnored(tree: Node, words: seq<Text>, rest: Text)
    requires forall i :: 0 <= i < |words| ==> IsWord(words[i])
    ensures LineOutcome(tree, Spaced(words) + [PIPE] + rest) == Some(if words == [] then Invalid else Execute(tree, words))
  {
    hide Execute, Words, Spaced, CommandPart, IsWord;
    var bar := [PIPE] + rest;
    BarWords(words, rest);
    NoBarInFront(words);
    CommandBefore(words, bar);
    assert (words + [bar])[..|words|] == words;
  }

  lemma {:induction false} SpacedEnd(words: seq<Text>)
    requires forall i :: 0 <= i < |words| ==> IsWord(words[i])
    ensures PIPE !in Spaced(words) && (Spaced(words) != [] ==> Spaced(words)[|Spaced(words)| - 1] == 32)
    decreases |words|
  {
    if words != [] {
      SpacedEnd(words[1..]);
      if PIPE in words[0] { assert EndsWord(PIPE); }
    }
  }
}
