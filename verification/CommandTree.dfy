/** The tree of commands, the words of a line, and the best match among siblings. */
module CommandTrees {
  import opened Basics

  type Text = seq<byte>

  datatype Kind = Literal | Optional | Variable | Vararg

  datatype Token = Token(key: Text, kind: Kind, desc: Text)

  datatype Node = Node(tokens: seq<Token>, children: seq<Node>, keyword: seq<Node>, func: Option<int>)

  /** The kind of a token, by its first character. */
  function KindOf(word: Text): Kind {
    if word == [] then Literal
    else if word[0] == 0x5b then Optional
    else if word[0] == 0x2e then Vararg
    else if 0x41 <= word[0] <= 0x5a then Variable
    else Literal
  }

  const ROOT: Node := Node([], [], [], None)

  /** `m` is `n` or a node somewhere below it. */
  ghost predicate Below(m: Node, n: Node)
    decreases n
  {
    || m == n
    || (exists i :: 0 <= i < |n.children| && Below(m, n.children[i]))
    || (exists i :: 0 <= i < |n.keyword| && Below(m, n.keyword[i]))
  }

  /** The tokens of every node below `n`, in blocks too, satisfy `q`. */
  ghost predicate EveryBelow(n: Node, q: seq<Token> -> bool)
    decreases n
  {
    && (forall i :: 0 <= i < |n.children| ==> q(n.children[i].tokens) && EveryBelow(n.children[i], q))
    && (forall i :: 0 <= i < |n.keyword| ==> q(n.keyword[i].tokens) && EveryBelow(n.keyword[i], q))
  }

  predicate PrintableTokens(tokens: seq<Token>) {
    forall j :: 0 <= j < |tokens| ==> Printable(tokens[j].key)
  }

  /** The kind of a token is that of its key. */
  predicate TypedTokens(tokens: seq<Token>) {
    forall j :: 0 <= j < |tokens| ==> tokens[j].kind == KindOf(tokens[j].key)
  }

  predicate SomeTokens(tokens: seq<Token>) {
    tokens != []
  }

  ghost predicate PrintableTree(n: Node) {
    EveryBelow(n, PrintableTokens)
  }

  ghost predicate Typed(n: Node) {
    EveryBelow(n, TypedTokens)
  }

  ghost predicate HasTokens(n: Node) {
    EveryBelow(n, SomeTokens)
  }

  lemma {:induction false} BelowPrintable(m: Node, n: Node)
    requires Below(m, n) && PrintableTree(n)
    ensures PrintableTree(m)
    decreases n
  {
    if m != n {
      if i :| 0 <= i < |n.children| && Below(m, n.children[i]) {
        BelowPrintable(m, n.children[i]);
      } else {
        var i :| 0 <= i < |n.keyword| && Below(m, n.keyword[i]);
        BelowPrintable(m, n.keyword[i]);
      }
    }
  }

  // ----- Lines of words -----

  predicate IsSpace(c: byte) {
    c == 32 || 9 <= c <= 13
  }

  const PIPE: byte := 0x7c

  function SkipSpaces(line: Text, p: nat): (q: nat)
    requires p <= |line|
    ensures p <= q <= |line| && (q < |line| ==> !IsSpace(line[q]))
    ensures forall k :: p <= k < q ==> IsSpace(line[k])
    decreases |line| - p
  {
    if p == |line| || !IsSpace(line[p]) then p else SkipSpaces(line, p + 1)
  }

  predicate EndsWord(c: byte) {
    IsSpace(c) || c == PIPE
  }

  function WordEnd(line: Text, p: nat): (q: nat)
    requires p <= |line|
    ensures p <= q <= |line| && (q < |line| ==> EndsWord(line[q]))
    ensures forall k :: p <= k < q ==> !EndsWord(line[k])
    decreases |line| - p
  {
    if p == |line| || EndsWord(line[p]) then p else WordEnd(line, p + 1)
  }

  /** The words of a line from offset `p`; a bar takes the rest of the line. */
  function WordsFrom(line: Text, p: nat): seq<Text>
    requires p <= |line|
    decreases |line| - p
  {
    var start := SkipSpaces(line, p);
    if start == |line| then []
    else if line[start] == PIPE then [line[start..]]
    else [line[start..WordEnd(line, start)]] + WordsFrom(line, WordEnd(line, start))
  }

  function Words(line: Text): seq<Text> {
    WordsFrom(line, 0)
  }

  /** The next word and the offset behind it. */
  method NextKey(line: Text, p: nat) returns (key: Option<Text>, next: nat)
    requires p <= |line|
    ensures p <= next <= |line| && (key.Some? ==> p < next)
    ensures WordsFrom(line, p) == match key case None => [] case Some(w) => [w] + WordsFrom(line, next)
  {
    next := p;
    while next < |line| && IsSpace(line[next])
      invariant p <= next <= |line| && SkipSpaces(line, next) == SkipSpaces(line, p)
    {
      next := next + 1;
    }
    if next == |line| {
      return None, next;
    }
    if line[next] == PIPE {
      assert WordsFrom(line, |line|) == [];
      return Some(line[next..]), |line|;
    }
    var start := next;
    while next < |line| && !EndsWord(line[next])
      invariant start <= next <= |line| && WordEnd(line, next) == WordEnd(line, start)
    {
      next := next + 1;
    }
    return Some(line[start..next]), next;
  }

  method LineArgs(line: Text) returns (words: seq<Text>)
    ensures words == Words(line)
  {
    words := [];
    var next := 0;
    while true
      invariant 0 <= next <= |line| && words + WordsFrom(line, next) == Words(line)
      decreases |line| - next
    {
      var key;
      key, next := NextKey(line, next);
      if key == None {
        break;
      }
      words := words + [key.value];
    }
  }

  lemma {:induction false} WordEndIs(line: Text, p: nat, q: nat)
    requires p <= q <= |line| && (forall k :: p <= k < q ==> !EndsWord(line[k])) && (q < |line| ==> EndsWord(line[q]))
    ensures WordEnd(line, p) == q
    decreases q - p
  {
    if p < q { WordEndIs(line, p + 1, q); }
  }

  lemma {:induction false} SkipSpacesIs(line: Text, p: nat, q: nat)
    requires p <= q <= |line| && (forall k :: p <= k < q ==> IsSpace(line[k])) && (q < |line| ==> !IsSpace(line[q]))
    ensures SkipSpaces(line, p) == q
    decreases q - p
  {
    if p < q { SkipSpacesIs(line, p + 1, q); }
  }

  /** The first word of a line from `p` on. */
  lemma WordsStep(line: Text, p: nat, start: nat, end: nat)
    requires p <= start < end <= |line| && (forall k :: p <= k < start ==> IsSpace(line[k]))
    requires (forall k :: start <= k < end ==> !EndsWord(line[k])) && (end < |line| ==> EndsWord(line[end]))
    ensures WordsFrom(line, p) == [line[start..end]] + WordsFrom(line, end)
  {
    hide SkipSpaces, WordEnd;
    SkipSpacesIs(line, p, start);
    WordEndIs(line, start, end);
  }

  /** Text in front moves the words. */
  lemma {:induction false} WordsBehind(a: Text, b: Text, p: nat)
    requires p <= |b|
    ensures WordsFrom(a + b, |a| + p) == WordsFrom(b, p)
    decreases |b| - p
  {
    var start := SkipSpaces(b, p);
    if start < |b| && b[start] != PIPE {
      var end := WordEnd(b, start);
      WordsBehind(a, b, end);
      WordsStep(b, p, start, end);
      WordMoved(a, b, p, start, end);
    } else {
      hide SkipSpaces;
      SkipSpacesIs(a + b, |a| + p, |a| + start);
      assert (a + b)[|a| + start..] == b[start..];
    }
  }

  lemma WordMoved(a: Text, b: Text, p: nat, start: nat, end: nat)
    requires p <= start < end <= |b| && (forall k :: p <= k < start ==> IsSpace(b[k]))
    requires (forall k :: start <= k < end ==> !EndsWord(b[k])) && (end < |b| ==> EndsWord(b[end]))
    ensures WordsFrom(a + b, |a| + p) == [b[start..end]] + WordsFrom(a + b, |a| + end)
  {
    hide WordsFrom, IsSpace, EndsWord;
    var line, n := a + b, |a|;
    assert forall k :: n <= k < |line| ==> line[k] == b[k - n];
    WordsStep(line, n + p, n + start, n + end);
    assert line[n + start..n + end] == b[start..end];
  }

  lemma WordsSkip(line: Text, p: nat)
    requires p < |line| && IsSpace(line[p])
    ensures WordsFrom(line, p) == WordsFrom(line, p + 1)
  {
  }

  lemma WordsNone(a: Text, b: Text)
    ensures WordsFrom(a, |a|) == [] && WordsFrom(a + b, |a|) == Words(b)
  {
    WordsBehind(a, b, 0);
  }

  /** Behind a space words are read anew, unless a bar has taken the rest of the line. */
  lemma {:induction false} WordsConcat(a: Text, b: Text, p: nat)
    requires p <= |a| && (a != [] ==> IsSpace(a[|a| - 1])) && PIPE !in a
    ensures WordsFrom(a + b, p) == WordsFrom(a, p) + Words(b)
    decreases |a| - p
  {
    hide WordsFrom, Words, SkipSpaces;
    if p == |a| {
      WordsNone(a, b);
    } else if IsSpace(a[p]) {
      WordsSkip(a, p);
      WordsSkip(a + b, p);
      WordsConcat(a, b, p + 1);
    } else {
      var q := WordEnd(a, p);
      assert a[p] in a;
      WordsStep(a, p, p, q);
      WordsStep(a + b, p, p, q);
      assert (a + b)[p..q] == a[p..q];
      WordsConcat(a, b, q);
    }
  }

  lemma LineConcat(a: Text, b: Text)
    requires (a != [] ==> IsSpace(a[|a| - 1])) && PIPE !in a
    ensures Words(a + b) == Words(a) + Words(b)
  {
    hide WordsFrom;
    WordsConcat(a, b, 0);
  }

  predicate IsWord(word: Text) {
    word != [] && forall k :: 0 <= k < |word| ==> !EndsWord(word[k])
  }

  /** One word, with a space behind it or without, and a bar with what is behind it. */
  lemma OneWord(word: Text, rest: Text)
    requires IsWord(word)
    ensures Words(word) == [word] == Words(word + [32]) && Words([PIPE] + rest) == [[PIPE] + rest]
  {
    var n, line := |word|, word + [32];
    WordEndIs(word, 0, n);
    SkipSpacesIs(word, 0, 0);
    SkipSpacesIs(word, n, n);
    WordEndIs(line, 0, n);
    SkipSpacesIs(line, 0, 0);
    SkipSpacesIs(line, n, n + 1);
    assert word[0..n] == word == line[0..n];
    assert WordsFrom(word, n) == [] && WordsFrom(line, n) == [];
    SkipSpacesIs([PIPE] + rest, 0, 0);
  }

  /** Words with a space behind each of them. */
  function Spaced(words: seq<Text>): Text {
    if words == [] then [] else words[0] + [32] + Spaced(words[1..])
  }

  /** Words written with spaces between them are read back. */
  lemma {:induction false} SpacedWords(words: seq<Text>)
    requires forall i :: 0 <= i < |words| ==> IsWord(words[i])
    ensures Words(Spaced(words)) == words
    decreases |words|
  {
    if words != [] {
      var word, rest := words[0], words[1..];
      SpacedWords(rest);
      OneWord(word, []);
      assert PIPE !in word + [32] by {
        if PIPE in word { assert EndsWord(PIPE); }
      }
      LineConcat(word + [32], Spaced(rest));
    }
  }

  // ----- The best match among siblings -----

  /** 0 no match, 1 variable or option, 2 vararg, 3 the word itself. */
  function MatchWord(t: Token, word: Text): (m: nat)
    ensures m <= 3
  {
    match t.kind
    case Literal => if t.key == word then 3 else 0
    case Variable => 1
    case Optional => 1
    case Vararg => 2
  }

  predicate At(nodes: seq<Node>, i: int, j: int) {
    0 <= i < |nodes| && 0 <= j < |nodes[i].tokens|
  }

  /** Token (i, j) comes before token (k, l). */
  predicate Before(i: int, j: int, k: int, l: int) {
    i < k || (i == k && j < l)
  }

  /** Token (i, j) is a strongest match and the first such. */
  ghost predicate Best(nodes: seq<Node>, word: Text, i: int, j: int) {
    && At(nodes, i, j) && MatchWord(nodes[i].tokens[j], word) > 0
    && forall k, l :: At(nodes, k, l) ==>
         MatchWord(nodes[k].tokens[l], word) <= MatchWord(nodes[i].tokens[j], word) &&
         (Before(k, l, i, j) ==> MatchWord(nodes[k].tokens[l], word) < MatchWord(nodes[i].tokens[j], word))
  }

  ghost predicate NoneMatches(nodes: seq<Node>, word: Text) {
    forall k, l :: At(nodes, k, l) ==> MatchWord(nodes[k].tokens[l], word) == 0
  }

  /** The first of the strongest matches, if anything matches. */
  ghost function Chosen(nodes: seq<Node>, word: Text): (r: Option<(nat, nat)>)
    ensures r == None <==> NoneMatches(nodes, word)
    ensures r.Some? ==> Best(nodes, word, r.value.0, r.value.1)
  {
    BestExists(nodes, word);
    if NoneMatches(nodes, word) then None else var i: nat, j: nat :| Best(nodes, word, i, j); Some((i, j))
  }

  lemma BestExists(nodes: seq<Node>, word: Text)
    ensures NoneMatches(nodes, word) || exists i: nat, j: nat :: Best(nodes, word, i, j)
  {
    var best, target, token := BestUpTo(nodes, word, |nodes|, 0);
    assert best > 0 ==> Best(nodes, word, target, token);
  }

  lemma {:induction false} BestUpTo(nodes: seq<Node>, word: Text, i: nat, j: nat) returns (best: nat, target: nat, token: nat)
    requires i <= |nodes| && (if i < |nodes| then j <= |nodes[i].tokens| else j == 0)
    ensures BestSoFar(nodes, word, i, j, best, target, token)
    decreases i, j
  {
    best, target, token := 0, 0, 0;
    if j > 0 {
      best, target, token := BestUpTo(nodes, word, i, j - 1);
      if best < MatchWord(nodes[i].tokens[j - 1], word) {
        best, target, token := MatchWord(nodes[i].tokens[j - 1], word), i, j - 1;
      }
    } else if i > 0 {
      best, target, token := BestUpTo(nodes, word, i - 1, |nodes[i - 1].tokens|);
    }
  }

  lemma BestUnique(nodes: seq<Node>, word: Text, i: int, j: int, k: int, l: int)
    requires Best(nodes, word, i, j) && Best(nodes, word, k, l)
    ensures i == k && j == l
  {
    assert At(nodes, i, j) && At(nodes, k, l);
  }

  /** The node and token that match best. */
  method FindBestNode(nodes: seq<Node>, word: Text) returns (r: Option<(nat, nat)>)
    ensures r == None <==> NoneMatches(nodes, word)
    ensures r.Some? ==> Best(nodes, word, r.value.0, r.value.1)
    ensures r == Chosen(nodes, word)
  {
    var best, target, token := 0, 0, 0;
    var i := 0;
    while i < |nodes|
      invariant 0 <= i <= |nodes| && BestSoFar(nodes, word, i, 0, best, target, token)
    {
      var j := 0;
      while j < |nodes[i].tokens|
        invariant 0 <= j <= |nodes[i].tokens| && BestSoFar(nodes, word, i, j, best, target, token)
      {
        var m := MatchWord(nodes[i].tokens[j], word);
        if best < m {
          best, target, token := m, i, j;
        }
        j := j + 1;
      }
      i := i + 1;
    }
    if best == 0 {
      assert NoneMatches(nodes, word);
      return None;
    }
    assert Best(nodes, word, target, token);
    assert At(nodes, target, token);
    BestUnique(nodes, word, target, token, Chosen(nodes, word).value.0, Chosen(nodes, word).value.1);
    return Some((target, token));
  }

  ghost predicate BestSoFar(nodes: seq<Node>, word: Text, i: int, j: int, best: nat, target: nat, token: nat) {
    && (best > 0 ==> At(nodes, target, token) && Before(target, token, i, j) && MatchWord(nodes[target].tokens[token], word) == best)
    && (forall k, l :: At(nodes, k, l) && Before(k, l, i, j) ==> MatchWord(nodes[k].tokens[l], word) <= best)
    && (best > 0 ==> forall k, l :: At(nodes, k, l) && Before(k, l, target, token) ==> MatchWord(nodes[k].tokens[l], word) < best)
  }

  /** The first token that satisfies `q`. */
  ghost predicate FirstToken(nodes: seq<Node>, q: Token -> bool, i: int, j: int) {
    && At(nodes, i, j) && q(nodes[i].tokens[j])
    && forall k, l :: At(nodes, k, l) && Before(k, l, i, j) ==> !q(nodes[k].tokens[l])
  }

  ghost predicate SomeToken(nodes: seq<Node>, q: Token -> bool) {
    exists k, l :: At(nodes, k, l) && q(nodes[k].tokens[l])
  }

  /** A word goes to the literal it spells, else to a vararg, else to a variable or an option,
      and of several to the first; nothing else keeps it from a node. */
  lemma Preference(nodes: seq<Node>, word: Text)
    ensures var spelled, vararg := (t: Token) => t.kind == Literal && t.key == word, (t: Token) => t.kind == Vararg;
            match Chosen(nodes, word)
            case None => !SomeToken(nodes, (t: Token) => t.kind != Literal || t.key == word)
            case Some(c) =>
              if SomeToken(nodes, spelled) then FirstToken(nodes, spelled, c.0, c.1)
              else if SomeToken(nodes, vararg) then FirstToken(nodes, vararg, c.0, c.1)
              else FirstToken(nodes, (t: Token) => t.kind != Literal, c.0, c.1)
  {
    var spelled, vararg := (t: Token) => t.kind == Literal && t.key == word, (t: Token) => t.kind == Vararg;
    var c := Chosen(nodes, word);
    if c == None {
      assert NoneMatches(nodes, word);
    } else {
      var m := MatchWord(nodes[c.value.0].tokens[c.value.1], word);
      assert Best(nodes, word, c.value.0, c.value.1);
      if k, l :| At(nodes, k, l) && spelled(nodes[k].tokens[l]) { assert m == 3; }
      if k, l :| At(nodes, k, l) && vararg(nodes[k].tokens[l]) { assert m >= 2; }
    }
  }

  // ----- The child of a name -----

  /** The first child with a token of that name, or the number of children. */
  function FindChild(nodes: seq<Node>, key: Text): (i: nat)
    ensures i <= |nodes| && (i < |nodes| ==> HasKey(nodes[i], key))
    ensures forall k :: 0 <= k < i ==> !HasKey(nodes[k], key)
  {
    if nodes == [] || HasKey(nodes[0], key) then 0 else 1 + FindChild(nodes[1..], key)
  }

  predicate HasKey(n: Node, key: Text) {
    exists j :: 0 <= j < |n.tokens| && n.tokens[j].key == key
  }

  function NewNode(word: Text, desc: Text): Node {
    Node([Token(word, KindOf(word), desc)], [], [], None)
  }

  predicate StartsVararg(n: Node) {
    n.tokens != [] && n.tokens[0].kind == Vararg
  }

  /** Adds a command of plain words: walks down along them, making nodes where there are
      none, and stores the handler at the end, and one node above when that is a vararg.
      Stops without a handler at the first word that has no description. */
  function Add(n: Node, words: seq<Text>, descs: seq<Text>, f: int): Node
    decreases |words|
  {
    if words == [] then n.(func := Some(f))
    else if descs == [] then n
    else
      var i := FindChild(n.children, words[0]);
      var child := if i < |n.children| then n.children[i] else NewNode(words[0], descs[0]);
      var sub := Add(child, words[1..], descs[1..], f);
      var m := n.(children := if i < |n.children| then n.children[i := sub] else n.children + [sub]);
      if |words| == 1 && StartsVararg(child) then m.(func := Some(f)) else m
  }
}
