/** One token of a command line at a time: the state of the parser and its steps. */
module CommandStates {
  import opened Basics
  import opened CommandTrees
  import opened CommandPlaces

  // ----- Groups of alternatives -----

  /** How many of the tokens are among those of the node. */
  function Common(n: Node, tokens: seq<Token>): (c: nat)
    ensures c <= |tokens|
  {
    if tokens == [] then 0
    else Common(n, tokens[..|tokens| - 1]) + if HasKey(n, tokens[|tokens| - 1].key) then 1 else 0
  }

  /** A group shares a token with the node; a node of one token is found by name only. */
  predicate Shares(n: Node, tokens: seq<Token>) {
    if |tokens| == 1 then HasKey(n, tokens[0].key) else |n.tokens| != 1 && Common(n, tokens) > 0
  }

  /** The first child that shares a token with the group, or the number of children. */
  function FindGroup(nodes: seq<Node>, tokens: seq<Token>): (i: nat)
    ensures i <= |nodes| && (i < |nodes| ==> Shares(nodes[i], tokens))
    ensures forall k :: 0 <= k < i ==> !Shares(nodes[k], tokens)
  {
    if nodes == [] || Shares(nodes[0], tokens) then 0 else 1 + FindGroup(nodes[1..], tokens)
  }

  lemma {:induction false} FoundGroup(nodes: seq<Node>, tokens: seq<Token>, i: nat)
    requires i <= |nodes| && (i < |nodes| ==> Shares(nodes[i], tokens))
    requires forall k :: 0 <= k < i ==> !Shares(nodes[k], tokens)
    ensures FindGroup(nodes, tokens) == i
  {
  }

  method HasName(n: Node, key: Text) returns (found: bool)
    ensures found <==> HasKey(n, key)
  {
    var i := 0;
    while i < |n.tokens|
      invariant 0 <= i <= |n.tokens| && forall j :: 0 <= j < i ==> n.tokens[j].key != key
    {
      if n.tokens[i].key == key {
        return true;
      }
      i := i + 1;
    }
    return false;
  }

  /** The child for a token or a group of tokens, and how many of them it has. */
  method FindNode(nodes: seq<Node>, tokens: seq<Token>) returns (i: nat, found: nat)
    requires tokens != []
    ensures i == FindGroup(nodes, tokens)
    ensures i < |nodes| ==> found == if |tokens| == 1 then 1 else Common(nodes[i], tokens)
  {
    i, found := 0, 0;
    while i < |nodes|
      invariant 0 <= i <= |nodes| && forall k :: 0 <= k < i ==> !Shares(nodes[k], tokens)
    {
      if |tokens| == 1 {
        var has := HasName(nodes[i], tokens[0].key);
        if has {
          FoundGroup(nodes, tokens, i);
          return i, 1;
        }
      } else if |nodes[i].tokens| != 1 {
        found := 0;
        var c := 0;
        while c < |tokens|
          invariant 0 <= c <= |tokens| && found == Common(nodes[i], tokens[..c])
        {
          var has := HasName(nodes[i], tokens[c].key);
          assert tokens[..c + 1][..c] == tokens[..c];
          if has {
            found := found + 1;
          }
          c := c + 1;
        }
        assert tokens[..c] == tokens;
        if found > 0 {
          FoundGroup(nodes, tokens, i);
          return;
        }
      }
      i := i + 1;
    }
    FoundGroup(nodes, tokens, i);
  }

  /** A single token is looked up by its name. */
  lemma {:induction false} GroupOfOne(nodes: seq<Node>, t: Token)
    ensures FindGroup(nodes, [t]) == FindChild(nodes, t.key)
  {
    FoundGroup(nodes, [t], FindChild(nodes, t.key));
  }

  // ----- The parser as functions -----

  /** The tree, where in it the next token goes, the keyword block (none, at the start of
      an alternative, inside one), where the block started, and the group being read. */
  datatype State = State(tree: Node, parent: Path, block: int, save: Path, tokens: seq<Token>)

  predicate Sound(st: State) {
    OnPath(st.tree, st.parent) && OnPath(st.tree, st.save) && 0 <= st.block <= 2
  }

  /** A new node below the parent becomes the parent. */
  function Descend(st: State, leaf: Node, keyword: bool): State
    requires Sound(st)
  {
    var n := Get(st.tree, st.parent);
    st.(tree := Put(st.tree, st.parent, WithNode(n, leaf, keyword)), parent := st.parent + [LastLink(n, keyword)],
        block := if keyword then 2 else st.block)
  }

  /** After a word: the child of that name, or a new one, in the block at the start of an
      alternative. */
  function Entered(st: State, t: Token): State
    requires Sound(st)
  {
    var i := FindChild(Get(st.tree, st.parent).children, t.key);
    if i < |Get(st.tree, st.parent).children| then st.(parent := st.parent + [Child(i)])
    else Descend(st, Node([t], [], [], None), st.block == 1)
  }

  /** After a group: the child that has all of its tokens, or a new one.  A child that has
      some of them only is an error. */
  function Grouped(st: State): Option<State>
    requires Sound(st) && st.tokens != []
  {
    var nodes := Get(st.tree, st.parent).children;
    var i := FindGroup(nodes, st.tokens);
    if i == |nodes| then Some(Descend(st, Node(st.tokens, [], [], None), false).(tokens := []))
    else if (if |st.tokens| == 1 then 1 else Common(nodes[i], st.tokens)) != |st.tokens| then None
    else Some(st.(parent := st.parent + [Child(i)], tokens := []))
  }

  /** The handler is stored at the end, and one node above when that is a vararg. */
  function Ended(tree: Node, p: Path, f: int): Node
    requires OnPath(tree, p) && p != []
  {
    var n, above := Get(tree, p), p[..|p| - 1];
    var t := Put(tree, p, n.(func := Some(f)));
    AboveOnPath(tree, p, n.(func := Some(f)));
    if StartsVararg(n) then Put(t, above, Get(t, above).(func := Some(f))) else t
  }

  lemma AboveOnPath(tree: Node, p: Path, m: Node)
    requires OnPath(tree, p) && p != []
    ensures OnPath(Put(tree, p, m), p[..|p| - 1])
  {
    PutGet(tree, p, m);
    PrefixOnPath(Put(tree, p, m), p, |p| - 1);
  }

  // ----- What a step keeps -----

  /** The tokens have the kind of their key, and are printable if the line is. */
  ghost predicate FromLine(line: Text, tokens: seq<Token>) {
    TypedTokens(tokens) && (Printable(line) ==> PrintableTokens(tokens))
  }

  /** `q` holds of all tokens that a line can give a node. */
  ghost predicate Admits(line: Text, q: seq<Token> -> bool) {
    forall tokens: seq<Token> :: tokens != [] && FromLine(line, tokens) ==> q(tokens)
  }

  /** The tree only grows, and by nodes with tokens from the line. */
  ghost predicate Extends(line: Text, a: Node, b: Node) {
    Grown(a, b) && forall q: seq<Token> -> bool :: Admits(line, q) && EveryBelow(a, q) ==> EveryBelow(b, q)
  }

  lemma ExtendsSelf(line: Text, a: Node)
    ensures Extends(line, a, a)
  {
    GrownSelf(a);
  }

  lemma ExtendsTrans(line: Text, a: Node, b: Node, c: Node)
    requires Extends(line, a, b) && Extends(line, b, c)
    ensures Extends(line, a, c)
  {
    hide Grown, EveryBelow, Admits;
    GrownTrans(a, b, c);
  }

  lemma DescendExtends(line: Text, st: State, tokens: seq<Token>, keyword: bool)
    requires Sound(st) && tokens != [] && FromLine(line, tokens)
    ensures var r := Descend(st, Node(tokens, [], [], None), keyword); Sound(r) && Extends(line, st.tree, r.tree)
  {
    hide Put, Get, Grown, FromLine;
    var leaf := Node(tokens, [], [], None);
    Inserted(st.tree, st.parent, leaf, keyword);
    GrownPath(st.tree, Descend(st, leaf, keyword).tree, st.save);
  }

  lemma EnteredExtends(line: Text, st: State, t: Token)
    requires Sound(st) && FromLine(line, [t])
    ensures Sound(Entered(st, t)) && Extends(line, st.tree, Entered(st, t).tree)
  {
    hide Put, Get, Extends, Descend, OnPath, FromLine;
    var i := FindChild(Get(st.tree, st.parent).children, t.key);
    if i < |Get(st.tree, st.parent).children| {
      ChildOnPath(st.tree, st.parent, i);
      ExtendsSelf(line, st.tree);
    } else {
      DescendExtends(line, st, [t], st.block == 1);
    }
  }

  lemma GroupedExtends(line: Text, st: State)
    requires Sound(st) && st.tokens != [] && FromLine(line, st.tokens) && Grouped(st).Some?
    ensures Sound(Grouped(st).value) && Extends(line, st.tree, Grouped(st).value.tree)
  {
    hide Put, Get, Extends, Descend, OnPath, FromLine;
    var nodes := Get(st.tree, st.parent).children;
    var i := FindGroup(nodes, st.tokens);
    if i < |nodes| {
      ChildOnPath(st.tree, st.parent, i);
      ExtendsSelf(line, st.tree);
    } else {
      DescendExtends(line, st, st.tokens, false);
    }
  }

  // ----- One token of a command line -----

  predicate WordChar(c: byte) {
    !IsSpace(c) && c !in {0x7b, 0x7d, 0x28, 0x29, PIPE}
  }

  function WordStop(line: Text, p: nat): (q: nat)
    requires p <= |line|
    ensures p <= q <= |line| && forall k :: p <= k < q ==> WordChar(line[k])
    decreases |line| - p
  {
    if p == |line| || !WordChar(line[p]) then p else WordStop(line, p + 1)
  }

  /** The state with what is left of the line and of its help. */
  datatype Stage = Stage(st: State, multiple: bool, cp: nat, helps: seq<Text>)

  ghost predicate Fine(line: Text, g: Stage) {
    Sound(g.st) && g.cp <= |line| && FromLine(line, g.st.tokens) && if g.multiple then g.st.block != 1 else g.st.tokens == []
  }

  /** The word at hand and its help. */
  function TokenAt(line: Text, g: Stage): Token
    requires g.cp <= |line| && g.helps != []
  {
    var word := line[g.cp..WordStop(line, g.cp)];
    Token(word, KindOf(word), g.helps[0])
  }

  /** Behind the next brace, parenthesis, bar or word, or nothing where it is not allowed. */
  function Next(line: Text, g: Stage): Option<Stage>
    requires Sound(g.st) && g.cp < |line|
  {
    var c, st, on := line[g.cp], g.st, g.(cp := g.cp + 1);
    if c == 0x7b then
      if st.block != 0 || g.multiple then None else Some(on.(st := st.(block := 1, save := st.parent)))
    else if c == 0x28 then
      if st.block == 1 || g.multiple then None else Some(on.(multiple := true))
    else if c == 0x7d then
      if st.block != 2 || g.multiple then None else Some(on.(st := st.(block := 0, parent := st.save)))
    else if c == 0x29 then
      if !g.multiple || st.tokens == [] || Grouped(st) == None then None
      else Some(on.(st := Grouped(st).value, multiple := false))
    else if c == PIPE then
      if g.multiple then Some(on)
      else if st.block == 0 then None
      else Some(on.(st := st.(block := 1, parent := st.save)))
    else if g.helps == [] then None
    else
      var t := TokenAt(line, g);
      Some(Stage(if g.multiple then st.(tokens := st.tokens + [t]) else Entered(st, t),
                 g.multiple, WordStop(line, g.cp), g.helps[1..]))
  }

  lemma TokenFromLine(line: Text, g: Stage)
    requires g.cp <= |line| && g.helps != [] && FromLine(line, g.st.tokens)
    ensures FromLine(line, [TokenAt(line, g)]) && FromLine(line, g.st.tokens + [TokenAt(line, g)])
  {
  }

  /** A token keeps the state fine, only adds to the tree, and moves on in the line or uses
      a line of help. */
  lemma NextExtends(line: Text, g: Stage)
    requires Fine(line, g) && g.cp < |line| && Next(line, g).Some?
    ensures var h := Next(line, g).value;
            && Fine(line, h) && Extends(line, g.st.tree, h.st.tree)
            && g.cp <= h.cp && |line| - h.cp + |h.helps| < |line| - g.cp + |g.helps|
  {
    hide Put, Get, Extends, Entered, Grouped, OnPath, FromLine, TokenAt, Descend;
    ExtendsSelf(line, g.st.tree);
    var c := line[g.cp];
    if c == 0x29 {
      GroupedExtends(line, g.st);
      GroupedEmpty(line, g.st);
    } else if c !in {0x7b, 0x28, 0x7d, PIPE} {
      TokenFromLine(line, g);
      var t := TokenAt(line, g);
      if !g.multiple {
        EnteredExtends(line, g.st, t);
        EnteredTokens(g.st, t);
      }
    }
  }

  lemma GroupedEmpty(line: Text, st: State)
    requires Sound(st) && st.tokens != [] && Grouped(st).Some?
    ensures Grouped(st).value.tokens == [] && Grouped(st).value.block == st.block && Grouped(st).value.save == st.save
    ensures FromLine(line, [])
  {
    hide Put, Get, OnPath;
  }

  lemma EnteredTokens(st: State, t: Token)
    requires Sound(st)
    ensures var r := Entered(st, t); r.tokens == st.tokens && r.save == st.save && (r.block == 0 <==> st.block == 0)
  {
    hide Put, Get, OnPath;
  }
}
