/** What adding commands means for executing lines; trees of literal commands are maps from
    word sequences to handlers. */
module CommandMaps {
  import opened Basics
  import opened CommandTrees
  import opened CommandSearches
  import opened CommandPlaces
  import opened CommandParts
  import opened CommandParsers

  /** A word that parses as a literal token. */
  predicate LiteralWord(w: Text) {
    w != [] && KindOf(w) == Literal
  }

  ghost predicate LiteralWords(words: seq<Text>) {
    forall i :: 0 <= i < |words| ==> LiteralWord(words[i])
  }

  predicate LiteralNode(n: Node) {
    |n.tokens| == 1 && n.tokens[0].kind == Literal
  }

  /** Below `n` every node is one literal without a keyword block, and siblings have
      different keys. */
  ghost predicate LiteralTree(n: Node)
    decreases n
  {
    && (forall i :: 0 <= i < |n.children| ==> LiteralNode(n.children[i]) && n.children[i].keyword == [] && LiteralTree(n.children[i]))
    && (forall i, j :: 0 <= i < j < |n.children| ==> n.children[i].tokens[0].key != n.children[j].tokens[0].key)
  }

  /** The node that the words lead to. */
  ghost function Walk(n: Node, words: seq<Text>): Option<Node>
    decreases |words|
  {
    if words == [] then Some(n)
    else
      var i := FindChild(n.children, words[0]);
      if i < |n.children| then Walk(n.children[i], words[1..]) else None
  }

  ghost function WalkOutcome(n: Node, words: seq<Text>): Outcome {
    match Walk(n, words)
    case None => NoMatch
    case Some(m) => if m.func == None then Incomplete else Reached(m.func.value, [], map[])
  }

  /** Among literal siblings the best match is the child of that name. */
  lemma BestIsChild(n: Node, word: Text)
    requires LiteralTree(n)
    ensures Chosen(n.children, word) == None <==> FindChild(n.children, word) == |n.children|
    ensures Chosen(n.children, word).Some? ==> Chosen(n.children, word).value.0 == FindChild(n.children, word)
  {
    var i, r := FindChild(n.children, word), Chosen(n.children, word);
    if i < |n.children| { ChildMatches(n, i, word); }
    if r.Some? {
      var k := r.value.0;
      assert At(n.children, k, r.value.1);
      assert n.children[k].tokens[0].key == word;
      assert HasKey(n.children[k], word);
    }
  }

  lemma ChildMatches(n: Node, i: nat, word: Text)
    requires LiteralTree(n) && i < |n.children| && HasKey(n.children[i], word)
    ensures At(n.children, i, 0) && n.children[i].tokens[0].key == word && MatchWord(n.children[i].tokens[0], word) == 3
  {
  }

  /** On a literal tree the search walks down, without arguments or keywords. */
  lemma {:induction false} SearchWalks(n: Node, words: seq<Text>)
    requires LiteralTree(n) && words != []
    ensures Resolve(n.children, words, [], map[]) ==
            match Walk(n, words) case None => None case Some(m) => Some(Found(m, [], map[]))
    decreases |words|
  {
    hide Chosen, FindChild;
    BestIsChild(n, words[0]);
    var i := FindChild(n.children, words[0]);
    if i < |n.children| {
      var m := n.children[i];
      assert words[Width(m, words)..] == words[1..] && [] + Args(m, words) == [];
      NoBlock(words[1..], map[]);
      if |words| > 1 { SearchWalks(m, words[1..]); }
    }
  }

  lemma ExecuteWalks(n: Node, words: seq<Text>)
    requires LiteralTree(n) && words != []
    ensures Execute(n, words) == WalkOutcome(n, words)
  {
    hide Resolve, Walk;
    SearchWalks(n, words);
  }

  // ----- Adding -----

  /** The child that the first word of a command goes through. */
  ghost function Through(n: Node, word: Text, desc: Text): Node {
    var i := FindChild(n.children, word);
    if i < |n.children| then n.children[i] else NewNode(word, desc)
  }

  lemma ThroughLiteral(n: Node, word: Text, desc: Text)
    requires LiteralTree(n) && LiteralWord(word)
    ensures var m := Through(n, word, desc); LiteralNode(m) && m.keyword == [] && LiteralTree(m) && m.tokens[0].key == word
  {
    var i := FindChild(n.children, word);
    assert i < |n.children| ==> HasKey(n.children[i], word);
  }

  /** Adding a literal command changes one child. */
  lemma AddUnfold(n: Node, words: seq<Text>, descs: seq<Text>, f: int)
    requires LiteralTree(n) && LiteralWords(words) && words != [] && descs != []
    ensures var i := FindChild(n.children, words[0]);
            var sub := Add(Through(n, words[0], descs[0]), words[1..], descs[1..], f);
            Add(n, words, descs, f) == n.(children := if i < |n.children| then n.children[i := sub] else n.children + [sub])
  {
    hide LiteralTree, FindChild;
    ThroughLiteral(n, words[0], descs[0]);
  }

  lemma {:induction false} AddKeeps(n: Node, words: seq<Text>, descs: seq<Text>, f: int)
    requires LiteralTree(n) && LiteralWords(words)
    ensures LiteralTree(Add(n, words, descs, f)) && Add(n, words, descs, f).tokens == n.tokens
    ensures Add(n, words, descs, f).keyword == n.keyword
    decreases |words|
  {
    if words != [] && descs != [] {
      hide Add, Through;
      AddUnfold(n, words, descs, f);
      ThroughLiteral(n, words[0], descs[0]);
      AddKeeps(Through(n, words[0], descs[0]), words[1..], descs[1..], f);
      KeysApart(n, words[0]);
    }
  }

  lemma KeysApart(n: Node, word: Text)
    requires LiteralTree(n)
    ensures var i := FindChild(n.children, word);
            forall k :: 0 <= k < |n.children| && k != i ==> n.children[k].tokens[0].key != word
  {
    var i := FindChild(n.children, word);
    forall k | 0 <= k < i ensures n.children[k].tokens[0].key != word {
      assert !HasKey(n.children[k], word);
    }
    assert i < |n.children| ==> HasKey(n.children[i], word);
  }

  /** Which child is found depends on the tokens only. */
  lemma {:induction false} FindByTokens(a: seq<Node>, b: seq<Node>, key: Text)
    requires |a| == |b| && forall k :: 0 <= k < |a| ==> a[k].tokens == b[k].tokens
    ensures FindChild(a, key) == FindChild(b, key)
    decreases |a|
  {
    if a != [] { FindByTokens(a[1..], b[1..], key); }
  }

  lemma {:induction false} FindAppended(a: seq<Node>, n: Node, key: Text)
    ensures FindChild(a + [n], key) ==
            if FindChild(a, key) < |a| then FindChild(a, key) else if HasKey(n, key) then |a| else |a| + 1
    decreases |a|
  {
    if a == [] {
      assert a + [n] == [n] && [n][1..] == [];
    } else {
      assert (a + [n])[1..] == a[1..] + [n];
      FindAppended(a[1..], n, key);
    }
  }

  predicate ProperPrefix(p: seq<Text>, w: seq<Text>) {
    |p| < |w| && p == w[..|p|]
  }

  /** What adding `w` changes: `w` itself, and its prefixes that led nowhere before. */
  ghost function Changed(before: Outcome, w: seq<Text>, f: int, q: seq<Text>): Outcome {
    if q == w then Reached(f, [], map[]) else if ProperPrefix(q, w) && before == NoMatch then Incomplete else before
  }

  lemma {:induction false} ExecuteAdd(n: Node, w: seq<Text>, descs: seq<Text>, f: int, q: seq<Text>)
    requires LiteralTree(n) && LiteralWords(w) && |w| <= |descs|
    ensures WalkOutcome(Add(n, w, descs, f), q) == Changed(WalkOutcome(n, q), w, f, q)
    decreases |w|
  {
    if w == [] || q == [] {
    } else {
      hide Add, LiteralTree, FindChild, Through, WalkOutcome, ProperPrefix;
      var m, after := Through(n, w[0], descs[0]), Add(n, w, descs, f);
      AddUnfold(n, w, descs, f);
      ThroughLiteral(n, w[0], descs[0]);
      ChildAfterAdd(n, w, descs, f, q[0]);
      WalkStep(n, q);
      WalkStep(after, q);
      if q[0] == w[0] {
        ExecuteAdd(m, w[1..], descs[1..], f, q[1..]);
        PrefixTail(q, w);
        ThroughWalk(n, w[0], descs[0], q[1..]);
      } else {
        OtherWord(q, w);
      }
    }
  }

  lemma OtherWord(q: seq<Text>, w: seq<Text>)
    requires q != [] && w != [] && q[0] != w[0]
    ensures q != w && !ProperPrefix(q, w)
  {
  }

  lemma WalkStep(n: Node, q: seq<Text>)
    requires q != []
    ensures var i := FindChild(n.children, q[0]);
            WalkOutcome(n, q) == if i < |n.children| then WalkOutcome(n.children[i], q[1..]) else NoMatch
  {
  }

  /** A new node leads nowhere and has no handler. */
  lemma ThroughWalk(n: Node, word: Text, desc: Text, q: seq<Text>)
    ensures var i, m := FindChild(n.children, word), Through(n, word, desc);
            if i < |n.children| then m == n.children[i]
            else WalkOutcome(m, q) == if q == [] then Incomplete else NoMatch
  {
  }

  lemma PrefixTail(q: seq<Text>, w: seq<Text>)
    requires q != [] && w != [] && q[0] == w[0]
    ensures q == w <==> q[1..] == w[1..]
    ensures ProperPrefix(q, w) <==> ProperPrefix(q[1..], w[1..])
  {
    assert q == [q[0]] + q[1..] && w == [w[0]] + w[1..];
    if |q| < |w| { assert w[..|q|] == [w[0]] + w[1..][..|q| - 1]; }
  }

  lemma ChildAfterAdd(n: Node, w: seq<Text>, descs: seq<Text>, f: int, key: Text)
    requires LiteralTree(n) && LiteralWords(w) && w != [] && descs != []
    ensures var i, k := FindChild(n.children, w[0]), FindChild(n.children, key);
            var after := Add(n, w, descs, f).children;
            && (key == w[0] ==> FindChild(after, key) == i < |after|)
            && (key != w[0] && k < |n.children| ==> FindChild(after, key) == k && after[k] == n.children[k])
            && (key != w[0] && k == |n.children| ==> FindChild(after, key) == |after|)
  {
    hide LiteralTree, Add;
    var i, m := FindChild(n.children, w[0]), Through(n, w[0], descs[0]);
    AddUnfold(n, w, descs, f);
    ThroughLiteral(n, w[0], descs[0]);
    AddKeeps(m, w[1..], descs[1..], f);
    var sub := Add(m, w[1..], descs[1..], f);
    if i < |n.children| {
      FindByTokens(n.children, Add(n, w, descs, f).children, key);
      OneKey(m, w[0], key);
    } else {
      FindAppended(n.children, sub, key);
      OneKey(sub, w[0], key);
    }
  }

  lemma OneKey(n: Node, key: Text, other: Text)
    requires LiteralNode(n) && n.tokens[0].key == key
    ensures HasKey(n, other) <==> other == key
  {
    if other == key { assert n.tokens[0].key == other; }
  }

  // ----- The tree as a map -----

  /** A command of plain words with a line of help for each. */
  datatype Command = Command(words: seq<Text>, descs: seq<Text>, func: int)

  ghost predicate LiteralCommands(cs: seq<Command>) {
    forall i :: 0 <= i < |cs| ==> cs[i].words != [] && LiteralWords(cs[i].words) && |cs[i].words| <= |cs[i].descs|
  }

  /** The tree after adding the commands in order. */
  function Build(cs: seq<Command>): Node {
    if cs == [] then ROOT
    else
      var last := cs[|cs| - 1];
      Add(Build(cs[..|cs| - 1]), last.words, last.descs, last.func)
  }

  /** The commands as a map, later ones overriding earlier ones. */
  function Handlers(cs: seq<Command>): map<seq<Text>, int> {
    if cs == [] then map[] else Handlers(cs[..|cs| - 1])[cs[|cs| - 1].words := cs[|cs| - 1].func]
  }

  ghost predicate Begins(m: map<seq<Text>, int>, q: seq<Text>) {
    exists w :: w in m && ProperPrefix(q, w)
  }

  lemma {:induction false} WalksAsMap(cs: seq<Command>, q: seq<Text>)
    requires LiteralCommands(cs) && q != []
    ensures LiteralTree(Build(cs))
    ensures var m := Handlers(cs);
            WalkOutcome(Build(cs), q) ==
            if q in m then Reached(m[q], [], map[]) else if Begins(m, q) then Incomplete else NoMatch
    decreases |cs|
  {
    hide WalkOutcome;
    if cs == [] {
      EmptyTree(q);
    } else {
      var rest, w, descs, f := cs[..|cs| - 1], cs[|cs| - 1].words, cs[|cs| - 1].descs, cs[|cs| - 1].func;
      WalksAsMap(rest, q);
      AddKeeps(Build(rest), w, descs, f);
      ExecuteAdd(Build(rest), w, descs, f, q);
      var m := Handlers(rest);
      assert Begins(m[w := f], q) <==> Begins(m, q) || ProperPrefix(q, w) by {
        if Begins(m, q) {
          var x :| x in m && ProperPrefix(q, x);
          assert x in m[w := f];
        }
        if ProperPrefix(q, w) { assert w in m[w := f]; }
      }
    }
  }

  lemma EmptyTree(q: seq<Text>)
    requires q != []
    ensures LiteralTree(ROOT) && WalkOutcome(ROOT, q) == NoMatch
  {
  }

  /** Executing words is looking them up: the handler last added for exactly these words,
      incomplete when they only begin an added command, unmatched otherwise. */
  lemma TreeIsMap(cs: seq<Command>, q: seq<Text>)
    requires LiteralCommands(cs) && q != []
    ensures var m := Handlers(cs);
            Execute(Build(cs), q) ==
            if q in m then Reached(m[q], [], map[]) else if Begins(m, q) then Incomplete else NoMatch
  {
    hide Execute, WalkOutcome;
    WalksAsMap(cs, q);
    ExecuteWalks(Build(cs), q);
  }

  // ----- The tree of a program -----

  /** A command of literal words, each with a line of help. */
  ghost predicate LiteralElem(e: Elem) {
    PlainElem(e) && LiteralWords(Words(e.line)) && |Words(e.line)| <= |Helps(e.desc, 0)|
  }

  function CommandOf(e: Elem): Command {
    Command(Words(e.line), Helps(e.desc, 0), e.func)
  }

  function CommandsOf(elems: seq<Elem>): (cs: seq<Command>)
    ensures |cs| == |elems| && forall i :: 0 <= i < |cs| ==> cs[i] == CommandOf(elems[i])
  {
    seq(|elems|, i requires 0 <= i < |elems| => CommandOf(elems[i]))
  }

  lemma EmptyTokens()
    ensures PrintableTree(ROOT) && HasTokens(ROOT) && Typed(ROOT)
  {
  }

  lemma ElemsLiteral(elems: seq<Elem>)
    requires forall k :: 0 <= k < |elems| ==> LiteralElem(elems[k])
    ensures LiteralCommands(CommandsOf(elems))
  {
  }

  /** One more literal command. */
  lemma BuildNext(elems: seq<Elem>, i: nat, tree: Node)
    requires i < |elems| && LiteralElem(elems[i])
    ensures PlainElem(elems[i])
    ensures tree == Build(CommandsOf(elems[..i])) ==> PlainTree(tree, elems[i]) == Build(CommandsOf(elems[..i + 1]))
  {
    hide Add;
    var cs := CommandsOf(elems[..i + 1]);
    assert cs[..i] == CommandsOf(elems[..i]) && cs[i] == CommandOf(elems[i]);
  }

  /** Adds the commands one after the other; a command that is rejected is passed over. */
  method BuildTree(elems: seq<Elem>) returns (tree: Node)
    ensures HasTokens(tree) && Typed(tree)
    ensures (forall i :: 0 <= i < |elems| ==> Printable(elems[i].line)) ==> PrintableTree(tree)
    ensures (forall i :: 0 <= i < |elems| ==> LiteralElem(elems[i])) ==>
              LiteralCommands(CommandsOf(elems)) && tree == Build(CommandsOf(elems))
  {
    hide Add, Printable, LiteralElem, CommandOf, PrintableTree, HasTokens, Typed, PartsOf, Handles, AddedTo, Grown;
    tree := ROOT;
    EmptyTokens();
    var i := 0;
    while i < |elems|
      invariant 0 <= i <= |elems| && HasTokens(tree) && Typed(tree)
      invariant (forall k :: 0 <= k < i ==> Printable(elems[k].line)) ==> PrintableTree(tree)
      invariant (forall k :: 0 <= k < i ==> LiteralElem(elems[k])) ==> tree == Build(CommandsOf(elems[..i]))
    {
      var after, status := AddElem(tree, elems[i]);
      if LiteralElem(elems[i]) { BuildNext(elems, i, tree); }
      tree := after;
      i := i + 1;
    }
    assert elems[..i] == elems;
    if forall k :: 0 <= k < |elems| ==> LiteralElem(elems[k]) { ElemsLiteral(elems); }
  }

  // ----- Lines for commands of any form -----

  /** The word can stand for one of the keys: a literal for itself, and for a variable or an
      option any word, as for a vararg in the last step. */
  predicate Fits(keys: seq<Text>, word: Text, last: bool) {
    exists k :: 0 <= k < |keys| && (KindOf(keys[k]) == Literal ==> word == keys[k]) && (KindOf(keys[k]) == Vararg ==> last)
  }

  /** The alternatives before the next step. */
  function Lead(parts: seq<Part>): (n: nat)
    ensures n <= |parts| && (n < |parts| ==> parts[n].Step?) && forall i :: 0 <= i < n ==> parts[i].Choice?
  {
    if parts == [] || parts[0].Step? then 0 else 1 + Lead(parts[1..])
  }

  /** How many words an alternative takes: its keyword, and a value if it has any. */
  function Taken(words: seq<seq<Text>>): nat {
    if |words| > 1 then 2 else 1
  }

  ghost predicate Uses(words: seq<seq<Text>>, q: seq<Text>) {
    && words != [] && |q| >= Taken(words) && Fits(words[0], q[0], true)
    && (|words| > 1 ==> Fits(words[1], q[1], true))
  }

  /** What a line gives its handler. */
  datatype Given = Given(args: seq<Text>, pairs: map<Text, Text>)

  /** The word for a step is an argument, unless the step is one literal. */
  function StepArgs(keys: seq<Text>, word: Text): seq<Text> {
    if |keys| == 1 && KindOf(keys[0]) == Literal then [] else [word]
  }

  /** The line is read along the parts and gives `to` on top of `from`.  The alternatives of a
      block may be used in any order and any number of times, each giving its keyword the word
      behind it or the value one, the steps one after the other.  Where `many` words may end
      the line, they do. */
  ghost predicate Spelled(parts: seq<Part>, q: seq<Text>, many: bool, from: Given, to: Given)
    decreases |q|, 1
  {
    var n := Lead(parts);
    if q == [] then n == |parts| && from == to
    else
      || (n < |parts| && SpelledStep(parts[n..], q, many, from, to))
      || exists i :: 0 <= i < n && SpelledUse(parts, parts[i].words, q, many, from, to)
  }

  ghost predicate SpelledUse(parts: seq<Part>, words: seq<seq<Text>>, q: seq<Text>, many: bool, from: Given, to: Given)
    decreases |q|, 0
  {
    && Uses(words, q)
    && Spelled(parts, q[Taken(words)..], many, from.(pairs := from.pairs[q[0] := if |words| > 1 then q[1] else [0x31]]), to)
  }

  ghost predicate SpelledStep(parts: seq<Part>, q: seq<Text>, many: bool, from: Given, to: Given)
    requires parts != [] && parts[0].Step? && q != []
    decreases |q|, 0
  {
    var last := Lead(parts[1..]) == |parts| - 1;
    && Fits(parts[0].keys, q[0], last)
    && if last && many then to == from.(args := from.args + q)
       else Spelled(parts[1..], q[1..], many, from.(args := from.args + StepArgs(parts[0].keys, q[0])), to)
  }

  /** A whole line; the block of the root is not looked at. */
  ghost predicate SpelledLine(parts: seq<Part>, q: seq<Text>, many: bool, to: Given) {
    q != [] && Lead(parts) < |parts| && SpelledStep(parts[Lead(parts)..], q, many, Given([], map[]), to)
  }

  /** No literal of the command is a word of a group that another command has put there. */
  ghost predicate Own(n: Node, p: Path, parts: seq<Part>)
    decreases |parts|
  {
    parts == [] ||
    match parts[0]
    case Choice(_) => Own(n, p, parts[1..])
    case Step(keys) =>
      && p != [] && p[0].Child? && p[0].i < |n.children|
      && (|keys| == 1 && KindOf(keys[0]) == Literal ==> |n.children[p[0].i].tokens| == 1)
      && Own(n.children[p[0].i], p[1..], parts[1..])
  }

  /** No child on the path has the name of an alternative beside it. */
  ghost predicate Fresh(n: Node, p: Path, parts: seq<Part>)
    decreases |parts|
  {
    parts == [] ||
    match parts[0]
    case Choice(words) => (words != [] && words[0] != [] ==> !Named(n, words[0][0])) && Fresh(n, p, parts[1..])
    case Step(_) => p != [] && p[0].Child? && p[0].i < |n.children| && Fresh(n.children[p[0].i], p[1..], parts[1..])
  }

  lemma FitsAccepted(m: Node, keys: seq<Text>, word: Text, last: bool)
    requires TypedTokens(m.tokens) && HasKeys(m, keys) && Fits(keys, word, last)
    ensures Accepts(m, word) && (LoneVararg(m) ==> last) && keys != []
  {
    var k :| 0 <= k < |keys| && (KindOf(keys[k]) == Literal ==> word == keys[k]) && (KindOf(keys[k]) == Vararg ==> last);
    assert HasKey(m, keys[k]);
    var j :| 0 <= j < |m.tokens| && m.tokens[j].key == keys[k];
    assert MatchWord(m.tokens[j], word) > 0;
  }

  /** The alternatives at a node. */
  lemma {:induction false} LaidLead(n: Node, p: Path, parts: seq<Part>, m: int, i: nat)
    requires Laid(n, p, parts, m) && Fresh(n, p, parts) && i <= Lead(parts) && (p == [] ==> m <= |n.keyword|)
    ensures Laid(n, p, parts[i..], m) && Fresh(n, p, parts[i..]) && (Own(n, p, parts[i..]) <==> Own(n, p, parts))
    ensures i < Lead(parts) ==> exists j :: 0 <= j < |n.keyword| && Offered(n.keyword[j], parts[i].words)
    decreases i
  {
    if i == 0 {
      assert parts[0..] == parts;
      if Lead(parts) > 0 {
        var words := parts[0].words;
        var j :| 0 <= j < |n.keyword| && IsKeyword(n.keyword[j], words);
        assert Offered(n.keyword[j], words);
      }
    } else {
      assert parts[i..] == parts[1..][i - 1..];
      LaidLead(n, p, parts[1..], m, i - 1);
    }
  }

  ghost predicate Offered(item: Node, words: seq<seq<Text>>) {
    words != [] && |words[0]| == 1 && IsKeyword(item, words)
  }

  /** What is found has the pairs of the text, and at least as many arguments, the same ones
      exactly when the command owns its literals. */
  ghost predicate Gives(f: Found, args: seq<Text>, from: seq<Text>, to: Given, own: bool) {
    && f.pairs == to.pairs && |from| <= |to.args| && to.args[..|from|] == from
    && |args| <= |f.args| && f.args[..|args|] == args && |f.args| - |args| >= |to.args| - |from|
    && (f.args[|args|..] == to.args[|from|..] <==> own)
  }

  /** Every line that is spelled by the parts of a command leads to its end. */
  lemma {:induction false} SpelledFollows(n: Node, p: Path, parts: seq<Part>, m: int, q: seq<Text>, args: seq<Text>, from: Given, to: Given)
    returns (f: Found)
    requires Typed(n) && OnPath(n, p) && Laid(n, p, parts, m) && m <= |Get(n, p).keyword| && Fresh(n, p, parts)
    requires Spelled(parts, q, LoneVararg(Get(n, p)), from, to)
    ensures Follows(n, q, args, from.pairs, f) && f.node == Get(n, p) && Gives(f, args, from.args, to, Own(n, p, parts))
    decreases |q|, 1
  {
    hide Fits, Laid, Fresh, Accepts, Typed, Own;
    var lead, many := Lead(parts), LoneVararg(Get(n, p));
    LaidLead(n, p, parts, m, lead);
    if q == [] {
      NoSteps(n, p, parts[lead..], m);
      f := Found(n, args, from.pairs);
    } else if lead < |parts| && SpelledStep(parts[lead..], q, many, from, to) {
      f := SpelledLeads(n, p, parts[lead..], m, q, args, from, to);
    } else {
      var i :| 0 <= i < lead && SpelledUse(parts, parts[i].words, q, many, from, to);
      var words := parts[i].words;
      LaidLead(n, p, parts, m, i);
      var j :| 0 <= j < |n.keyword| && Offered(n.keyword[j], words);
      KeywordAccepts(n, j, words, q);
      var more := from.(pairs := from.pairs[q[0] := if |words| > 1 then q[1] else ONE]);
      f := SpelledFollows(n, p, parts, m, q[Taken(words)..], args, more, to);
      assert ByKeyword(n, n.keyword[j], q, args, from.pairs, f);
    }
  }

  lemma NoSteps(n: Node, p: Path, parts: seq<Part>, m: int)
    requires Laid(n, p, parts, m) && parts == []
    ensures p == [] && Own(n, p, parts)
  {
  }

  lemma KeywordAccepts(n: Node, j: nat, words: seq<seq<Text>>, q: seq<Text>)
    requires Typed(n) && j < |n.keyword| && Offered(n.keyword[j], words) && Uses(words, q)
    ensures Accepts(n.keyword[j], q[0]) && (|words| == 1 <==> n.keyword[j].children == [])
    ensures |words| > 1 ==> OneAccepts(n.keyword[j].children, q[1])
  {
    hide Fits, Accepts;
    var item := n.keyword[j];
    assert HasKeys(item, words[0]);
    FitsAccepted(item, words[0], q[0], true);
    if |words| > 1 {
      assert EveryBelow(item, TypedTokens);
      FitsAccepted(item.children[0], words[1], q[1], true);
    }
  }

  lemma {:induction false} SpelledLeads(n: Node, p: Path, parts: seq<Part>, m: int, q: seq<Text>, args: seq<Text>, from: Given, to: Given)
    returns (f: Found)
    requires Typed(n) && OnPath(n, p) && Laid(n, p, parts, m) && m <= |Get(n, p).keyword| && Fresh(n, p, parts)
    requires parts != [] && parts[0].Step? && q != [] && SpelledStep(parts, q, LoneVararg(Get(n, p)), from, to)
    ensures LeadsTo(n.children, q, args, from.pairs, f) && f.node == Get(n, p) && Gives(f, args, from.args, to, Own(n, p, parts))
    decreases |q|, 0
  {
    hide Fits, Accepts, HasKeys, Args, Spelled, Gives;
    var c, rest, keys := n.children[p[0].i], parts[1..], parts[0].keys;
    var more, last := args + Args(c, q), Lead(rest) == |rest|;
    FitsAccepted(c, keys, q[0], last);
    if last { LastStep(c, p[1..], rest, m); }
    if LoneVararg(c) {
      f := Found(c, more, from.pairs);
      assert q[Width(c, q)..] == [];
      AtTheEnd(c, more, from.pairs);
      VarargGives(c, keys, q, args, from, to);
    } else {
      var next := from.(args := from.args + StepArgs(keys, q[0]));
      f := SpelledFollows(c, p[1..], rest, m, q[1..], more, next, to);
      assert q[Width(c, q)..] == q[1..];
      StepGives(c, keys, q, f, args, from, to, Own(c, p[1..], rest));
    }
    assert ByChild(c, q, args, from.pairs, f);
  }

  lemma VarargGives(c: Node, keys: seq<Text>, q: seq<Text>, args: seq<Text>, from: Given, to: Given)
    requires LoneVararg(c) && TypedTokens(c.tokens) && IsStep(c, keys) && q != [] && to == from.(args := from.args + q)
    ensures Gives(Found(c, args + Args(c, q), from.pairs), args, from.args, to, true)
    ensures !(|keys| == 1 && KindOf(keys[0]) == Literal)
  {
    assert Args(c, q) == q;
    if |keys| == 1 { assert HasKey(c, keys[0]); }
    assert (args + q)[|args|..] == q == to.args[|from.args|..];
  }

  /** One step: its word is an argument by the node if it is one by the text. */
  lemma StepGives(c: Node, keys: seq<Text>, q: seq<Text>, f: Found, args: seq<Text>, from: Given, to: Given, own: bool)
    requires TypedTokens(c.tokens) && IsStep(c, keys) && keys != [] && !LoneVararg(c) && q != []
    requires Gives(f, args + Args(c, q), from.args + StepArgs(keys, q[0]), to, own)
    ensures Gives(f, args, from.args, to, own && (|keys| == 1 && KindOf(keys[0]) == Literal ==> |c.tokens| == 1))
  {
    var byNode, byText := Args(c, q), StepArgs(keys, q[0]);
    var a, b := args + byNode, from.args + byText;
    var x, y := f.args[|a|..], to.args[|b|..];
    StepArgsIs(c, keys, q);
    assert f.args == a + x && to.args == b + y;
    assert f.args[..|args|] == args && f.args[|args|..] == byNode + x;
    assert to.args[..|from.args|] == from.args && to.args[|from.args|..] == byText + y;
    if byNode == byText {
      SameFront(byNode, x, y);
    }
  }

  lemma SameFront(z: seq<Text>, x: seq<Text>, y: seq<Text>)
    ensures z + x == z + y <==> x == y
  {
    assert (z + x)[|z|..] == x && (z + y)[|z|..] == y;
  }

  lemma StepArgsIs(c: Node, keys: seq<Text>, q: seq<Text>)
    requires TypedTokens(c.tokens) && IsStep(c, keys) && keys != [] && !LoneVararg(c) && q != []
    ensures var literal := |keys| == 1 && KindOf(keys[0]) == Literal;
            && StepArgs(keys, q[0]) == (if literal then [] else [q[0]])
            && (Args(c, q) == [q[0]] || (Args(c, q) == [] && literal))
            && (literal ==> (Args(c, q) == [] <==> |c.tokens| == 1))
  {
    if |keys| == 1 { assert HasKey(c, keys[0]); }
    assert q[..1] == [q[0]];
  }

  lemma {:induction false} LastStep(n: Node, p: Path, parts: seq<Part>, m: int)
    requires Laid(n, p, parts, m) && Lead(parts) == |parts|
    ensures p == [] && Own(n, p, parts)
    decreases |parts|
  {
    if parts != [] { LastStep(n, p, parts[1..], m); }
  }

  /** The parts before the last step lead to the node above. */
  lemma {:induction false} LaidAbove(n: Node, p: Path, parts: seq<Part>, m: int, k: nat)
    requires Laid(n, p, parts, m) && Fresh(n, p, parts) && OnPath(n, p) && k < |parts| && parts[k].Step?
    requires Lead(parts[k + 1..]) == |parts| - k - 1
    ensures p != [] && OnPath(n, p[..|p| - 1])
    ensures Laid(n, p[..|p| - 1], parts[..k], |Get(n, p[..|p| - 1]).keyword|) && Fresh(n, p[..|p| - 1], parts[..k])
    decreases k
  {
    hide Offers, IsStep, Named;
    if k == 0 {
      LastStep(n.children[p[0].i], p[1..], parts[1..], m);
      assert p[..|p| - 1] == [] && parts[..k] == [];
    } else {
      assert parts[1..][k..] == parts[k + 1..] && parts[..k][1..] == parts[1..][..k - 1];
      match parts[0]
      case Choice(words) =>
        LaidAbove(n, p, parts[1..], m, k - 1);
        assert p[..|p| - 1] == [] ==> |Get(n, p[..|p| - 1]).keyword| == |n.keyword|;
      case Step(_) =>
        LaidAbove(n.children[p[0].i], p[1..], parts[1..], m, k - 1);
        assert p[..|p| - 1][1..] == p[1..][..|p| - 2];
    }
  }

  /** On a clear tree every line that is spelled by a command runs its handler, with the pairs
      the text gives, and with the arguments it gives exactly when it owns its literals. */
  lemma AddedRuns(tree: Node, p: Path, parts: seq<Part>, f: int, q: seq<Text>, to: Given)
    requires Typed(tree) && ClearTop(tree) && HandlesAt(tree, p, parts, f) && Fresh(tree, p, parts)
    requires SpelledLine(parts, q, LoneVararg(Get(tree, p)), to)
    ensures var r := Execute(tree, q);
            r.Reached? && r.handler == f && r.pairs == to.pairs && (r.args == to.args <==> Own(tree, p, parts))
  {
    hide Resolve, LeadsTo, ClearTop, Laid, Fresh, Typed, SpelledStep, Get, OnPath, Own;
    LineRuns(tree, p, parts, f, q, to);
  }

  /** Where the command ends with a vararg, so does every line without it. */
  lemma BareRuns(tree: Node, p: Path, parts: seq<Part>, f: int, q: seq<Text>, k: nat, to: Given)
    requires Typed(tree) && ClearTop(tree) && HandlesAt(tree, p, parts, f) && Fresh(tree, p, parts) && StartsVararg(Get(tree, p))
    requires k < |parts| && parts[k].Step? && Lead(parts[k + 1..]) == |parts| - k - 1
    requires SpelledLine(parts[..k], q, LoneVararg(Get(tree, p[..|p| - 1])), to)
    ensures var r := Execute(tree, q);
            r.Reached? && r.handler == f && r.pairs == to.pairs && (r.args == to.args <==> Own(tree, p[..|p| - 1], parts[..k]))
  {
    hide Resolve, LeadsTo, ClearTop, Laid, Fresh, Typed, SpelledStep, Get, OnPath, Own;
    LaidAbove(tree, p, parts, |Get(tree, p).keyword|, k);
    LineRuns(tree, p[..|p| - 1], parts[..k], f, q, to);
  }

  /** A literal that a group of another command has: with the commands (a|b) and a, the line a
      gives the handler of the second the argument a, which its text does not. */
  lemma SharedLiteral()
    ensures var word: Text := [0x61];
            var group := Node([Token(word, Literal, []), Token([0x62], Literal, [])], [], [], Some(2));
            Execute(ROOT.(children := [group]), [word]) == Reached(2, [word], map[]) && StepArgs([word], word) == []
  {
    var word: Text := [0x61];
    var group := Node([Token(word, Literal, []), Token([0x62], Literal, [])], [], [], Some(2));
    assert Best([group], word, 0, 0);
    BestUnique([group], word, 0, 0, Chosen([group], word).value.0, Chosen([group], word).value.1);
    assert [word][1..] == [] && [] + Args(group, [word]) == [word];
    NoWordsLeft([], map[]);
  }

  lemma LineRuns(tree: Node, p: Path, parts: seq<Part>, f: int, q: seq<Text>, to: Given)
    requires Typed(tree) && ClearTop(tree) && OnPath(tree, p) && Laid(tree, p, parts, |Get(tree, p).keyword|) && Fresh(tree, p, parts)
    requires Get(tree, p).func == Some(f) && SpelledLine(parts, q, LoneVararg(Get(tree, p)), to)
    ensures var r := Execute(tree, q);
            r.Reached? && r.handler == f && r.pairs == to.pairs && (r.args == to.args <==> Own(tree, p, parts))
  {
    hide Resolve, LeadsTo, ClearTop, Laid, Fresh, Typed, SpelledStep, Get, OnPath, Own;
    var m, lead := |Get(tree, p).keyword|, Lead(parts);
    if p == [] { NodeHere(tree); }
    LaidLead(tree, p, parts, m, lead);
    var found := SpelledLeads(tree, p, parts[lead..], m, q, [], Given([], map[]), to);
    assert found.args[0..] == found.args && to.args[0..] == to.args;
    SearchComplete(tree, q, [], map[], found);
  }

  lemma NodeHere(n: Node)
    ensures OnPath(n, []) && Get(n, []) == n
  {
  }

  // ----- What the first character of a word means -----

  /** A command of two words on the empty tree, the first a lower-case one. */
  ghost function TwoWords(w: Text, y: Text, descs: seq<Text>, f: int): Node {
    Add(ROOT, [w, y], descs, f)
  }

  lemma TwoWordsTree(w: Text, y: Text, descs: seq<Text>, f: int)
    requires w != [] && 0x61 <= w[0] <= 0x7a && |descs| == 2
    ensures var second := Node([Token(y, KindOf(y), descs[1])], [], [], Some(f));
            var above := if KindOf(y) == Vararg then Some(f) else None;
            TwoWords(w, y, descs, f) == ROOT.(children := [Node([Token(w, Literal, descs[0])], [second], [], above)])
  {
    assert [w, y][1..] == [y] && [y][1..] == [] && descs[1..][1..] == [];
    var first, second := NewNode(w, descs[0]), NewNode(y, descs[1]);
    assert Add(first, [y], descs[1..], f) == first.(children := [second.(func := Some(f))], func := if KindOf(y) == Vararg then Some(f) else None);
  }

  lemma ChosenOne(n: Node, word: Text)
    requires |n.tokens| == 1
    ensures Chosen([n], word) == if n.tokens[0].kind == Literal && n.tokens[0].key != word then None else Some((0, 0))
  {
    var c := Chosen([n], word);
    assert At([n], 0, 0);
    if c.Some? { assert At([n], c.value.0, c.value.1); }
  }

  /** Behind the first word: the second node takes the words that are left or one of them. */
  lemma TwoWordsRun(w: Text, y: Text, descs: seq<Text>, f: int, rest: seq<Text>)
    requires w != [] && 0x61 <= w[0] <= 0x7a && |descs| == 2
    ensures Execute(TwoWords(w, y, descs, f), [w] + rest) ==
            if rest == [] then if KindOf(y) == Vararg then Reached(f, [], map[]) else Incomplete
            else if KindOf(y) == Literal && rest[0] != y then NoMatch
            else if KindOf(y) != Vararg && |rest| > 1 then NoMatch
            else Reached(f, if KindOf(y) == Literal then [] else rest, map[])
  {
    hide Best, NoneMatches, Chosen, Add;
    TwoWordsTree(w, y, descs, f);
    var tree := TwoWords(w, y, descs, f);
    var first := tree.children[0];
    var second := first.children[0];
    ChosenOne(first, w);
    assert ([w] + rest)[1..] == rest && [] + Args(first, [w] + rest) == [];
    EmptyBlock(first, rest, []);
    if rest != [] {
      ChosenOne(second, rest[0]);
      var more := rest[Width(second, rest)..];
      EmptyBlock(second, more, Args(second, rest));
      assert [] + Args(second, rest) == Args(second, rest);
      if more != [] { NoChildren(more[0]); }
    }
  }

  lemma NoChildren(word: Text)
    ensures Chosen([], word) == None
  {
  }

  lemma EmptyBlock(n: Node, words: seq<Text>, args: seq<Text>)
    requires n.keyword == []
    ensures ResolveAfter(n, words, args, map[]) == if words == [] then Some(Found(n, args, map[])) else Resolve(n.children, words, args, map[])
  {
    hide Resolve, Best, NoneMatches;
    if words != [] { NoChildren(words[0]); }
  }

  /** Behind a dot it takes any words, in brackets or behind a capital any one word, else the
      word itself only. */
  lemma WordKinds(w: Text, y: Text, descs: seq<Text>, f: int, rest: seq<Text>)
    requires w != [] && 0x61 <= w[0] <= 0x7a && |descs| == 2 && y != []
    ensures var r := Execute(TwoWords(w, y, descs, f), [w] + rest);
            if y[0] == '.' as int then r == Reached(f, rest, map[])
            else if rest == [] then r == Incomplete
            else if y[0] == '[' as int || 'A' as int <= y[0] <= 'Z' as int then r == if |rest| == 1 then Reached(f, rest, map[]) else NoMatch
            else r == if rest == [y] then Reached(f, [], map[]) else NoMatch
  {
    hide Execute, TwoWords;
    TwoWordsRun(w, y, descs, f, rest);
  }
}
