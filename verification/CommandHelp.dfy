/** Which line of help goes with which word of a command. */
module CommandHelps {
  import opened Basics
  import opened CommandTrees
  import opened CommandPlaces
  import opened CommandStates
  import opened CommandParts

  /** The names in a command line from `p` on, whatever stands between them. */
  function NamesFrom(line: Text, p: nat): seq<Text>
    requires p <= |line|
    decreases |line| - p
  {
    if p == |line| then []
    else if !WordChar(line[p]) then NamesFrom(line, p + 1)
    else [line[p..WordStop(line, p)]] + NamesFrom(line, WordStop(line, p))
  }

  /** The token of a name of the line and the line of help in the same place.  White space
      other than a blank makes tokens without a name. */
  ghost predicate Told(line: Text, helps: seq<Text>, t: Token) {
    t.key == [] || exists k :: IsNth(line, helps, t, k)
  }

  ghost predicate IsNth(line: Text, helps: seq<Text>, t: Token, k: nat) {
    var names := NamesFrom(line, 0);
    k < |names| && k < |helps| && t == Token(names[k], KindOf(names[k]), helps[k])
  }

  ghost predicate AllTold(line: Text, helps: seq<Text>, tokens: seq<Token>) {
    forall j :: 0 <= j < |tokens| ==> Told(line, helps, tokens[j])
  }

  ghost predicate Allows(line: Text, helps: seq<Text>, q: seq<Token> -> bool) {
    forall tokens: seq<Token> :: tokens != [] && AllTold(line, helps, tokens) ==> q(tokens)
  }

  /** What is new in `b` are nodes of such tokens: what holds of those and of the nodes of `a`
      holds of all nodes of `b`. */
  ghost predicate Explains(line: Text, helps: seq<Text>, a: Node, b: Node) {
    forall q: seq<Token> -> bool :: Allows(line, helps, q) && EveryBelow(a, q) ==> EveryBelow(b, q)
  }

  lemma ExplainsTrans(line: Text, helps: seq<Text>, a: Node, b: Node, c: Node)
    requires Explains(line, helps, a, b) && Explains(line, helps, b, c)
    ensures Explains(line, helps, a, c)
  {
    hide EveryBelow, Allows;
  }

  lemma DescendExplains(line: Text, helps: seq<Text>, st: State, tokens: seq<Token>, keyword: bool)
    requires Sound(st) && tokens != [] && AllTold(line, helps, tokens)
    ensures Explains(line, helps, st.tree, Descend(st, Node(tokens, [], [], None), keyword).tree)
  {
    hide Put, Get, Grown, AllTold;
    Inserted(st.tree, st.parent, Node(tokens, [], [], None), keyword);
  }

  lemma EnteredExplains(line: Text, helps: seq<Text>, st: State, t: Token)
    requires Sound(st) && Told(line, helps, t)
    ensures Explains(line, helps, st.tree, Entered(st, t).tree)
  {
    hide Put, Get, Explains, Descend, OnPath, Told;
    if FindChild(Get(st.tree, st.parent).children, t.key) == |Get(st.tree, st.parent).children| {
      DescendExplains(line, helps, st, [t], st.block == 1);
    } else {
      SameExplains(line, helps, st.tree);
    }
  }

  lemma GroupedExplains(line: Text, helps: seq<Text>, st: State)
    requires Sound(st) && st.tokens != [] && AllTold(line, helps, st.tokens) && Grouped(st).Some?
    ensures Explains(line, helps, st.tree, Grouped(st).value.tree)
  {
    hide Put, Get, Explains, Descend, OnPath, Told;
    if FindGroup(Get(st.tree, st.parent).children, st.tokens) == |Get(st.tree, st.parent).children| {
      DescendExplains(line, helps, st, st.tokens, false);
    } else {
      SameExplains(line, helps, st.tree);
    }
  }

  lemma SameExplains(line: Text, helps: seq<Text>, a: Node)
    ensures Explains(line, helps, a, a)
  {
  }

  // ----- Along the line -----

  /** As many lines of help are used as names are read. */
  ghost predicate InStep(line: Text, helps: seq<Text>, g: Stage) {
    && g.cp <= |line| && AllTold(line, helps, g.st.tokens)
    && (Stuck(line, g.cp) ||
        var k := |helps| - |g.helps|;
        0 <= k <= |NamesFrom(line, 0)| && g.helps == helps[k..] && NamesFrom(line, g.cp) == NamesFrom(line, 0)[k..])
  }

  lemma {:induction false} BlankNames(line: Text, p: nat, q: nat)
    requires p <= q <= |line| && forall k :: p <= k < q ==> line[k] == 32
    ensures NamesFrom(line, p) == NamesFrom(line, q)
    decreases q - p
  {
    if p < q { BlankNames(line, p + 1, q); }
  }

  lemma BlanksInStep(line: Text, helps: seq<Text>, g: Stage, to: nat)
    requires g.cp <= to <= |line| && (forall k :: g.cp <= k < to ==> line[k] == 32) && InStep(line, helps, g)
    ensures InStep(line, helps, g.(cp := to))
  {
    hide NamesFrom, Told;
    BlankNames(line, g.cp, to);
  }

  /** The word at hand gets the line of help in its place. */
  lemma TokenTold(line: Text, helps: seq<Text>, g: Stage)
    requires InStep(line, helps, g) && g.cp < |line| && g.helps != [] && (WordChar(line[g.cp]) || Stuck(line, g.cp))
    ensures Told(line, helps, TokenAt(line, g))
  {
    if WordChar(line[g.cp]) {
      var k := |helps| - |g.helps|;
      assert NamesFrom(line, 0)[k..][0] == line[g.cp..WordStop(line, g.cp)] && helps[k..][0] == helps[k];
      assert IsNth(line, helps, TokenAt(line, g), k);
    }
  }

  lemma NextInStep(line: Text, helps: seq<Text>, g: Stage)
    requires Fine(line, g) && InStep(line, helps, g) && g.cp < |line| && line[g.cp] != 32 && Next(line, g).Some?
    ensures InStep(line, helps, Next(line, g).value) && Explains(line, helps, g.st.tree, Next(line, g).value.st.tree)
  {
    hide Put, Get, Explains, Entered, Grouped, OnPath, FromLine, TokenAt, Descend, Told;
    var c := line[g.cp];
    SameExplains(line, helps, g.st.tree);
    if c == 0x29 {
      GroupedExplains(line, helps, g.st);
      GroupedEmpty(line, g.st);
    } else if c !in {0x7b, 0x28, 0x7d, PIPE} {
      TokenTold(line, helps, g);
      var t := TokenAt(line, g);
      if !g.multiple {
        EnteredExplains(line, helps, g.st, t);
        EnteredTokens(g.st, t);
      }
      if !Stuck(line, g.cp) {
        var k, names := |helps| - |g.helps|, NamesFrom(line, 0);
        assert names[k..][1..] == names[k + 1..] && helps[k..][1..] == helps[k + 1..];
      }
    }
  }

  /** In a tree that was empty every token has its own line of help. */
  lemma RootExplained(line: Text, helps: seq<Text>, after: Node)
    requires Explains(line, helps, ROOT, after)
    ensures EveryBelow(after, tokens => AllTold(line, helps, tokens))
  {
    var q: seq<Token> -> bool := tokens => AllTold(line, helps, tokens);
    assert Allows(line, helps, q) && EveryBelow(ROOT, q);
  }
}
