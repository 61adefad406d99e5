/** Places in the tree of commands, what is stored there, and how the tree grows. */
module CommandPlaces {
  import opened CommandTrees

  // ----- Places in the tree -----

  /** One link down: to a child or into the keyword block. */
  datatype Link = Child(i: nat) | Keyword(i: nat)

  type Path = seq<Link>

  predicate OnPath(n: Node, p: Path)
    decreases |p|
  {
    p == [] ||
    match p[0]
    case Child(i) => i < |n.children| && OnPath(n.children[i], p[1..])
    case Keyword(i) => i < |n.keyword| && OnPath(n.keyword[i], p[1..])
  }

  function Get(n: Node, p: Path): Node
    requires OnPath(n, p)
    decreases |p|
  {
    if p == [] then n
    else match p[0]
      case Child(i) => Get(n.children[i], p[1..])
      case Keyword(i) => Get(n.keyword[i], p[1..])
  }

  /** The tree with `m` in place of the node at `p`. */
  function Put(n: Node, p: Path, m: Node): Node
    requires OnPath(n, p)
    decreases |p|
  {
    if p == [] then m
    else match p[0]
      case Child(i) => n.(children := n.children[i := Put(n.children[i], p[1..], m)])
      case Keyword(i) => n.(keyword := n.keyword[i := Put(n.keyword[i], p[1..], m)])
  }

  lemma {:induction false} PutGet(n: Node, p: Path, m: Node)
    requires OnPath(n, p)
    ensures OnPath(Put(n, p, m), p) && Get(Put(n, p, m), p) == m
    decreases |p|
  {
    if p != [] {
      match p[0]
      case Child(i) => PutGet(n.children[i], p[1..], m);
      case Keyword(i) => PutGet(n.keyword[i], p[1..], m);
    }
  }

  lemma {:induction false} PutPut(n: Node, p: Path, m: Node, k: Node)
    requires OnPath(n, p)
    ensures OnPath(Put(n, p, m), p) && Put(Put(n, p, m), p, k) == Put(n, p, k)
    decreases |p|
  {
    if p != [] {
      match p[0]
      case Child(i) => PutPut(n.children[i], p[1..], m, k);
      case Keyword(i) => PutPut(n.keyword[i], p[1..], m, k);
    }
  }

  lemma {:induction false} PutSame(n: Node, p: Path)
    requires OnPath(n, p)
    ensures Put(n, p, Get(n, p)) == n
    decreases |p|
  {
    if p != [] {
      match p[0]
      case Child(i) => PutSame(n.children[i], p[1..]);
      case Keyword(i) => PutSame(n.keyword[i], p[1..]);
    }
  }

  /** A path behind a path. */
  lemma {:induction false} PathAppend(n: Node, p: Path, q: Path)
    requires OnPath(n, p)
    ensures OnPath(n, p + q) <==> OnPath(Get(n, p), q)
    ensures OnPath(n, p + q) ==> Get(n, p + q) == Get(Get(n, p), q)
    ensures OnPath(n, p + q) ==> forall m :: Put(n, p + q, m) == Put(n, p, Put(Get(n, p), q, m))
    decreases |p|
  {
    if p == [] {
      assert p + q == q;
    } else {
      assert (p + q)[1..] == p[1..] + q;
      match p[0]
      case Child(i) => PathAppend(n.children[i], p[1..], q);
      case Keyword(i) => PathAppend(n.keyword[i], p[1..], q);
    }
  }

  // ----- Growing -----

  /** `b` has all of `a`: nodes, tokens and handlers, each where it was. */
  ghost predicate Grown(a: Node, b: Node)
    decreases a
  {
    && a.tokens == b.tokens && a.func == b.func && |a.children| <= |b.children| && |a.keyword| <= |b.keyword|
    && (forall i :: 0 <= i < |a.children| ==> Grown(a.children[i], b.children[i]))
    && (forall i :: 0 <= i < |a.keyword| ==> Grown(a.keyword[i], b.keyword[i]))
  }

  lemma {:induction false} GrownSelf(a: Node)
    ensures Grown(a, a)
    decreases a
  {
    forall i | 0 <= i < |a.children| ensures Grown(a.children[i], a.children[i]) { GrownSelf(a.children[i]); }
    forall i | 0 <= i < |a.keyword| ensures Grown(a.keyword[i], a.keyword[i]) { GrownSelf(a.keyword[i]); }
  }

  lemma {:induction false} GrownTrans(a: Node, b: Node, c: Node)
    requires Grown(a, b) && Grown(b, c)
    ensures Grown(a, c)
    decreases a
  {
    forall i | 0 <= i < |a.children| ensures Grown(a.children[i], c.children[i]) {
      GrownTrans(a.children[i], b.children[i], c.children[i]);
    }
    forall i | 0 <= i < |a.keyword| ensures Grown(a.keyword[i], c.keyword[i]) {
      GrownTrans(a.keyword[i], b.keyword[i], c.keyword[i]);
    }
  }

  /** A path stays where it is when the tree grows. */
  lemma {:induction false} GrownPath(a: Node, b: Node, p: Path)
    requires Grown(a, b) && OnPath(a, p)
    ensures OnPath(b, p)
    decreases |p|
  {
    if p != [] {
      match p[0]
      case Child(i) => GrownPath(a.children[i], b.children[i], p[1..]);
      case Keyword(i) => GrownPath(a.keyword[i], b.keyword[i], p[1..]);
    }
  }

  lemma {:induction false} GrownPut(n: Node, p: Path, m: Node)
    requires OnPath(n, p) && Grown(Get(n, p), m)
    ensures Grown(n, Put(n, p, m))
    decreases |p|
  {
    if p != [] {
      forall i | 0 <= i < |n.children| ensures Grown(n.children[i], n.children[i]) { GrownSelf(n.children[i]); }
      forall i | 0 <= i < |n.keyword| ensures Grown(n.keyword[i], n.keyword[i]) { GrownSelf(n.keyword[i]); }
      match p[0]
      case Child(i) => GrownPut(n.children[i], p[1..], m);
      case Keyword(i) => GrownPut(n.keyword[i], p[1..], m);
    }
  }

  lemma {:induction false} EveryPut(n: Node, p: Path, m: Node, q: seq<Token> -> bool)
    requires OnPath(n, p) && EveryBelow(n, q) && EveryBelow(m, q) && m.tokens == Get(n, p).tokens
    ensures EveryBelow(Put(n, p, m), q) && Put(n, p, m).tokens == n.tokens
    decreases |p|
  {
    if p != [] {
      match p[0]
      case Child(i) => EveryPut(n.children[i], p[1..], m, q);
      case Keyword(i) => EveryPut(n.keyword[i], p[1..], m, q);
    }
  }

  lemma {:induction false} EveryGet(n: Node, p: Path, q: seq<Token> -> bool)
    requires OnPath(n, p) && EveryBelow(n, q)
    ensures EveryBelow(Get(n, p), q)
    decreases |p|
  {
    if p != [] {
      match p[0]
      case Child(i) => EveryGet(n.children[i], p[1..], q);
      case Keyword(i) => EveryGet(n.keyword[i], p[1..], q);
    }
  }

  /** A node with one more child, or one more keyword. */
  function WithNode(n: Node, leaf: Node, keyword: bool): Node {
    if keyword then n.(keyword := n.keyword + [leaf]) else n.(children := n.children + [leaf])
  }

  function LastLink(n: Node, keyword: bool): Link {
    if keyword then Keyword(|n.keyword|) else Child(|n.children|)
  }

  /** Inserting a node grows the tree; the new node is behind its siblings. */
  lemma Inserted(tree: Node, p: Path, leaf: Node, keyword: bool)
    requires OnPath(tree, p)
    ensures var n := Get(tree, p);
            var after := Put(tree, p, WithNode(n, leaf, keyword));
            && Grown(tree, after) && OnPath(after, p) && Get(after, p) == WithNode(n, leaf, keyword)
            && OnPath(after, p + [LastLink(n, keyword)]) && Get(after, p + [LastLink(n, keyword)]) == leaf
            && forall q: seq<Token> -> bool :: EveryBelow(tree, q) && EveryBelow(leaf, q) && q(leaf.tokens) ==> EveryBelow(after, q)
  {
    hide Put, Get;
    var n := Get(tree, p);
    var m := WithNode(n, leaf, keyword);
    assert Grown(n, m) by {
      GrownSelf(n);
    }
    GrownPut(tree, p, m);
    PutGet(tree, p, m);
    PathAppend(Put(tree, p, m), p, [LastLink(n, keyword)]);
    LastOfNode(n, leaf, keyword);
    forall q: seq<Token> -> bool | EveryBelow(tree, q) && EveryBelow(leaf, q) && q(leaf.tokens)
      ensures EveryBelow(Put(tree, p, m), q)
    {
      EveryGet(tree, p, q);
      EveryPut(tree, p, m, q);
    }
  }

  lemma LastOfNode(n: Node, leaf: Node, keyword: bool)
    ensures var m := WithNode(n, leaf, keyword);
            OnPath(m, [LastLink(n, keyword)]) && Get(m, [LastLink(n, keyword)]) == leaf
  {
    assert [LastLink(n, keyword)][1..] == [];
  }

  lemma {:induction false} PrefixOnPath(tree: Node, p: Path, k: nat)
    requires OnPath(tree, p) && k <= |p|
    ensures OnPath(tree, p[..k])
    decreases |p|
  {
    if k > 0 {
      assert p[..k][1..] == p[1..][..k - 1];
      match p[0]
      case Child(i) => PrefixOnPath(tree.children[i], p[1..], k - 1);
      case Keyword(i) => PrefixOnPath(tree.keyword[i], p[1..], k - 1);
    }
  }

  lemma ChildOnPath(tree: Node, p: Path, i: nat)
    requires OnPath(tree, p) && i < |Get(tree, p).children|
    ensures OnPath(tree, p + [Child(i)]) && Get(tree, p + [Child(i)]) == Get(tree, p).children[i]
    ensures forall m :: Put(tree, p + [Child(i)], m) == Put(tree, p, Get(tree, p).(children := Get(tree, p).children[i := m]))
  {
    PathAppend(tree, p, [Child(i)]);
    OneLink(Get(tree, p), i);
    forall m ensures Put(tree, p + [Child(i)], m) == Put(tree, p, Get(tree, p).(children := Get(tree, p).children[i := m])) {
      hide Put, Get;
      assert Put(tree, p + [Child(i)], m) == Put(tree, p, Put(Get(tree, p), [Child(i)], m));
    }
  }

  lemma OneLink(n: Node, i: nat)
    requires i < |n.children|
    ensures OnPath(n, [Child(i)]) && Get(n, [Child(i)]) == n.children[i]
    ensures forall m :: Put(n, [Child(i)], m) == n.(children := n.children[i := m])
  {
    assert [Child(i)][1..] == [];
  }

  lemma {:induction false} PutTokens(n: Node, q: Path, m: Node)
    requires OnPath(n, q) && m.tokens == Get(n, q).tokens
    ensures Put(n, q, m).tokens == n.tokens
    decreases |q|
  {
    if q != [] {
      match q[0]
      case Child(i) => PutTokens(n.children[i], q[1..], m);
      case Keyword(i) => PutTokens(n.keyword[i], q[1..], m);
    }
  }
}
