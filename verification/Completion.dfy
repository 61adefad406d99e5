/** Completion of the last word of a line. */
module Completions {
  import opened Basics
  import opened CommandTrees
  import opened CommandSearches

  // ----- The keys on offer -----

  /** The tokens of one list whose keys start with `word`, in order. */
  function Starting(tokens: seq<Token>, word: Text): seq<Token> {
    if tokens == [] then []
    else
      var rest, last := Starting(tokens[..|tokens| - 1], word), tokens[|tokens| - 1];
      if word <= last.key then rest + [last] else rest
  }

  function NodeTokens(nodes: seq<Node>, word: Text): seq<Token> {
    if nodes == [] then [] else NodeTokens(nodes[..|nodes| - 1], word) + Starting(nodes[|nodes| - 1].tokens, word)
  }

  /** The tokens of the children, then those of the keyword block. */
  function Topics(n: Node, word: Text): seq<Token> {
    NodeTokens(n.children, word) + NodeTokens(n.keyword, word)
  }

  function KeysOf(ts: seq<Token>): (keys: seq<Text>)
    ensures |keys| == |ts| && forall i :: 0 <= i < |ts| ==> keys[i] == ts[i].key
  {
    seq(|ts|, i requires 0 <= i < |ts| => ts[i].key)
  }

  function DescsOf(ts: seq<Token>): (descs: seq<Text>)
    ensures |descs| == |ts| && forall i :: 0 <= i < |ts| ==> descs[i] == ts[i].desc
  {
    seq(|ts|, i requires 0 <= i < |ts| => ts[i].desc)
  }

  function Offered(n: Node, word: Text): seq<Text> {
    KeysOf(Topics(n, word))
  }

  ghost predicate HasToken(nodes: seq<Node>, t: Token) {
    exists i, j :: At(nodes, i, j) && nodes[i].tokens[j] == t
  }

  lemma {:induction false} StartingExact(tokens: seq<Token>, word: Text, t: Token)
    ensures t in Starting(tokens, word) <==> word <= t.key && t in tokens
  {
    if tokens != [] {
      var n := |tokens| - 1;
      StartingExact(tokens[..n], word, t);
      assert tokens == tokens[..n] + [tokens[n]];
    }
  }

  lemma {:induction false} NodeTokensExact(nodes: seq<Node>, word: Text, t: Token)
    ensures t in NodeTokens(nodes, word) <==> word <= t.key && HasToken(nodes, t)
  {
    if nodes != [] {
      var n := |nodes| - 1;
      NodeTokensExact(nodes[..n], word, t);
      StartingExact(nodes[n].tokens, word, t);
      HasTokenSnoc(nodes, t);
    }
  }

  lemma HasTokenSnoc(nodes: seq<Node>, t: Token)
    requires nodes != []
    ensures HasToken(nodes, t) <==> HasToken(nodes[..|nodes| - 1], t) || t in nodes[|nodes| - 1].tokens
  {
    var n := |nodes| - 1;
    if HasToken(nodes[..n], t) {
      var i, j :| At(nodes[..n], i, j) && nodes[..n][i].tokens[j] == t;
      assert At(nodes, i, j) && nodes[i].tokens[j] == t;
    }
    if t in nodes[n].tokens {
      var j :| 0 <= j < |nodes[n].tokens| && nodes[n].tokens[j] == t;
      assert At(nodes, n, j) && nodes[n].tokens[j] == t;
    }
    if HasToken(nodes, t) {
      var i, j :| At(nodes, i, j) && nodes[i].tokens[j] == t;
      assert i == n || (At(nodes[..n], i, j) && nodes[..n][i].tokens[j] == t);
    }
  }

  /** Exactly the child and keyword tokens that start with the word. */
  lemma OfferedExact(n: Node, word: Text, t: Token)
    ensures t in Topics(n, word) <==> word <= t.key && (HasToken(n.children, t) || HasToken(n.keyword, t))
    ensures forall key :: key in Offered(n, word) <==> exists u :: u in Topics(n, word) && u.key == key
  {
    NodeTokensExact(n.children, word, t);
    NodeTokensExact(n.keyword, word, t);
    KeysExact(Topics(n, word));
  }

  lemma KeysExact(ts: seq<Token>)
    ensures forall key :: key in KeysOf(ts) <==> exists u :: u in ts && u.key == key
  {
    forall key ensures key in KeysOf(ts) <==> exists u :: u in ts && u.key == key {
      if key in KeysOf(ts) {
        var i :| 0 <= i < |ts| && KeysOf(ts)[i] == key;
        assert ts[i] in ts;
      }
      if u :| u in ts && u.key == key {
        var i :| 0 <= i < |ts| && ts[i] == u;
        assert KeysOf(ts)[i] == key;
      }
    }
  }

  /** Counts the keys before they are collected. */
  method TokenCount(nodes: seq<Node>, word: Text) returns (count: nat)
    ensures count == |NodeTokens(nodes, word)|
  {
    count := 0;
    var i := 0;
    while i < |nodes|
      invariant 0 <= i <= |nodes| && count == |NodeTokens(nodes[..i], word)|
    {
      var tokens, j := nodes[i].tokens, 0;
      while j < |tokens|
        invariant 0 <= j <= |tokens| && count == |NodeTokens(nodes[..i], word)| + |Starting(tokens[..j], word)|
      {
        assert tokens[..j + 1][..j] == tokens[..j];
        if word <= tokens[j].key {
          count := count + 1;
        }
        j := j + 1;
      }
      assert tokens[..j] == tokens && nodes[..i + 1][..i] == nodes[..i];
      i := i + 1;
    }
    assert nodes[..i] == nodes;
  }

  method CollectKeys(nodes: seq<Node>, word: Text) returns (keys: seq<Text>, descs: seq<Text>)
    ensures keys == KeysOf(NodeTokens(nodes, word)) && descs == DescsOf(NodeTokens(nodes, word))
  {
    keys, descs := [], [];
    var i := 0;
    while i < |nodes|
      invariant 0 <= i <= |nodes| && keys == KeysOf(NodeTokens(nodes[..i], word))
      invariant descs == DescsOf(NodeTokens(nodes[..i], word))
    {
      var tokens, j := nodes[i].tokens, 0;
      while j < |tokens|
        invariant 0 <= j <= |tokens| && keys == KeysOf(NodeTokens(nodes[..i], word) + Starting(tokens[..j], word))
        invariant descs == DescsOf(NodeTokens(nodes[..i], word) + Starting(tokens[..j], word))
      {
        assert tokens[..j + 1][..j] == tokens[..j];
        if word <= tokens[j].key {
          keys := keys + [tokens[j].key];
          descs := descs + [tokens[j].desc];
        }
        j := j + 1;
      }
      assert tokens[..j] == tokens && nodes[..i + 1][..i] == nodes[..i];
      i := i + 1;
    }
    assert nodes[..i] == nodes;
  }

  // ----- The longest common prefix -----

  /** All keys share their first `n` characters. */
  ghost predicate Share(keys: seq<Text>, n: nat) {
    forall i, j :: 0 <= i < |keys| && 0 <= j < |keys| ==> SamePrefix(keys[i], keys[j], n)
  }

  predicate SamePrefix(s: Text, t: Text, n: nat) {
    n <= |s| && n <= |t| && s[..n] == t[..n]
  }

  /** `n` characters are shared, and no more. */
  ghost predicate LongestCommon(keys: seq<Text>, n: nat) {
    Share(keys, n) && forall m :: m > n ==> !Share(keys, m)
  }

  lemma ShorterPrefix(s: Text, t: Text, n: nat, m: nat)
    requires SamePrefix(s, t, n) && m <= n
    ensures SamePrefix(s, t, m)
  {
    assert s[..m] == s[..n][..m] && t[..m] == t[..n][..m];
  }

  /** Length of the common prefix of two keys. */
  method PairPrefix(s: Text, t: Text) returns (j: nat)
    ensures SamePrefix(s, t, j) && !SamePrefix(s, t, j + 1)
  {
    j := 0;
    while j < |s| && j < |t| && s[j] == t[j]
      invariant SamePrefix(s, t, j)
    {
      assert s[..j + 1] == s[..j] + [s[j]] && t[..j + 1] == t[..j] + [t[j]];
      j := j + 1;
    }
  }

  /** Neighbours that share `n` characters all the way make all keys share them. */
  lemma {:induction false} NeighboursShare(keys: seq<Text>, n: nat)
    requires |keys| >= 2 && forall i :: 1 <= i < |keys| ==> SamePrefix(keys[i - 1], keys[i], n)
    ensures Share(keys, n)
  {
    forall i | 0 <= i < |keys| ensures SamePrefix(keys[0], keys[i], n) {
      FromFirst(keys, n, i);
    }
  }

  lemma {:induction false} FromFirst(keys: seq<Text>, n: nat, i: nat)
    requires |keys| >= 2 && i < |keys| && forall k :: 1 <= k < |keys| ==> SamePrefix(keys[k - 1], keys[k], n)
    ensures SamePrefix(keys[0], keys[i], n)
    decreases i
  {
    if i > 0 {
      FromFirst(keys, n, i - 1);
      assert SamePrefix(keys[i - 1], keys[i], n);
    } else {
      assert SamePrefix(keys[0], keys[1], n);
    }
  }

  /** The minimum over neighbours is the longest common prefix of all keys. */
  method Lcd(keys: seq<Text>) returns (lcd: nat)
    ensures |keys| < 2 ==> lcd == 0
    ensures |keys| >= 2 ==> LongestCommon(keys, lcd)
  {
    if |keys| < 2 {
      return 0;
    }
    var best: int := -1;
    ghost var short := 1;
    var i := 1;
    while i < |keys|
      invariant 1 <= i <= |keys| && (i > 1 ==> best >= 0) && (i == 1 ==> best == -1)
      invariant forall k :: 1 <= k < i ==> SamePrefix(keys[k - 1], keys[k], best)
      invariant i > 1 ==> 1 <= short < i && !SamePrefix(keys[short - 1], keys[short], best + 1)
    {
      var j := PairPrefix(keys[i - 1], keys[i]);
      ghost var was := best;
      if best < 0 || best > j {
        best, short := j, i;
      }
      forall k | 1 <= k < i + 1 ensures SamePrefix(keys[k - 1], keys[k], best) {
        if k < i { ShorterPrefix(keys[k - 1], keys[k], was, best); } else { ShorterPrefix(keys[k - 1], keys[k], j, best); }
      }
      i := i + 1;
    }
    lcd := best;
    NeighboursShare(keys, lcd);
    forall m: nat | m > lcd ensures !Share(keys, m) {
      if SamePrefix(keys[short - 1], keys[short], m) {
        ShorterPrefix(keys[short - 1], keys[short], m, lcd + 1);
      }
    }
  }

  // ----- Completing -----

  /** Nothing to do, no key, one key, a longer common prefix, or several keys. */
  datatype Completion = Nothing | Unmatched | Full(key: Text) | Partial(key: Text) | Listing(keys: seq<Text>)

  /** What the answer must be for the keys on offer. */
  ghost predicate Answers(c: Completion, keys: seq<Text>, word: Text) {
    match c
    case Nothing => false
    case Unmatched => keys == []
    case Full(key) => keys == [key]
    case Partial(key) => |keys| >= 2 && LongestCommon(keys, |key|) && key <= keys[0] && |key| > |word|
    case Listing(ks) => ks == keys && |keys| >= 2 && LongestCommon(keys, |word|)
  }

  method GetComplete(n: Node, word: Text) returns (c: Completion)
    ensures Answers(c, Offered(n, word), word)
  {
    hide NodeTokens;
    var count := TokenCount(n.children, word);
    var more := TokenCount(n.keyword, word);
    count := count + more;
    if count == 0 {
      return Unmatched;
    }
    var keys, _ := CollectKeys(n.children, word);
    var last, _ := CollectKeys(n.keyword, word);
    keys := keys + last;
    assert keys == Offered(n, word);
    AllStartWith(n, word, keys);
    var lcd := Lcd(keys);
    if |keys| >= 2 {
      LongerThanWord(keys, word, lcd);
    }
    if lcd != 0 && lcd > |word| {
      assert SamePrefix(keys[0], keys[0], lcd);
      return Partial(keys[0][..lcd]);
    }
    if count == 1 {
      return Full(keys[0]);
    }
    return Listing(keys);
  }

  /** The length of the longest common prefix, looked for from `n` down. */
  ghost function Longest(keys: seq<Text>, n: nat): (r: nat)
    requires |keys| >= 2 && forall m :: m > n ==> !Share(keys, m)
    ensures LongestCommon(keys, r)
  {
    if n == 0 || Share(keys, n) then n else Longest(keys, n - 1)
  }

  lemma NoLonger(keys: seq<Text>)
    requires |keys| >= 2
    ensures forall m :: m > |keys[0]| ==> !Share(keys, m)
  {
    forall m | m > |keys[0]| ensures !Share(keys, m) {
      assert !SamePrefix(keys[0], keys[0], m);
    }
  }

  /** The answer as a function of the keys. */
  ghost function AnswerFor(keys: seq<Text>, word: Text): Completion {
    if keys == [] then Unmatched
    else if |keys| == 1 then Full(keys[0])
    else
      NoLonger(keys);
      var n := Longest(keys, |keys[0]|);
      if |word| < n <= |keys[0]| then Partial(keys[0][..n]) else Listing(keys)
  }

  /** The answer for a line as a function. */
  ghost function TabAnswer(tree: Node, line: Text): Completion {
    var words := Words(line);
    if words == [] || HasPipe(words) then Nothing
    else match Base(tree, Finished(line, words))
         case None => Unmatched
         case Some(base) => AnswerFor(Offered(base, LastWord(line, words)), LastWord(line, words))
  }

  /** The function gives a right answer. */
  lemma TabCompletes(tree: Node, line: Text)
    ensures Completes(tree, line, TabAnswer(tree, line))
  {
    hide Answers, AnswerFor, Offered, Words, Base;
    var words := Words(line);
    match Base(tree, Finished(line, words))
    case None =>
    case Some(base) => AnswerRight(base, LastWord(line, words));
  }

  lemma AnswerRight(n: Node, word: Text)
    ensures Answers(AnswerFor(Offered(n, word), word), Offered(n, word), word)
  {
    hide Share;
    var keys := Offered(n, word);
    if |keys| >= 2 {
      NoLonger(keys);
      var m := Longest(keys, |keys[0]|);
      AllStartWith(n, word, keys);
      LongerThanWord(keys, word, m);
      assert m <= |keys[0]|;
    }
  }

  /** Only one answer is right. */
  lemma OneAnswer(n: Node, word: Text, c: Completion)
    requires Answers(c, Offered(n, word), word)
    ensures c == AnswerFor(Offered(n, word), word)
  {
    hide Share;
    var keys := Offered(n, word);
    if |keys| >= 2 {
      NoLonger(keys);
      var m := Longest(keys, |keys[0]|);
      if c.Partial? { OneLongest(keys, |c.key|, m); } else { OneLongest(keys, |word|, m); }
    }
  }

  lemma OneLongest(keys: seq<Text>, m: nat, n: nat)
    requires LongestCommon(keys, m) && LongestCommon(keys, n)
    ensures m == n
  {
    hide Share;
    assert !(m < n) && !(n < m);
  }

  lemma AllStartWith(n: Node, word: Text, keys: seq<Text>)
    requires keys == Offered(n, word)
    ensures forall i :: 0 <= i < |keys| ==> word <= keys[i]
  {
    forall i | 0 <= i < |keys| ensures word <= keys[i] {
      OfferedExact(n, word, Topics(n, word)[i]);
    }
  }

  /** A completed key starts with the word and is taken from a key on offer. */
  lemma CompletedKey(n: Node, word: Text, c: Completion)
    requires Answers(c, Offered(n, word), word) && (c.Full? || c.Partial?)
    ensures word <= c.key && |Offered(n, word)| > 0 && c.key <= Offered(n, word)[0]
  {
    var keys := Offered(n, word);
    AllStartWith(n, word, keys);
    assert word == keys[0][..|word|] && c.key == keys[0][..|c.key|];
  }

  /** Keys that start with the word share at least the word. */
  lemma LongerThanWord(keys: seq<Text>, word: Text, lcd: nat)
    requires |keys| >= 2 && LongestCommon(keys, lcd) && forall i :: 0 <= i < |keys| ==> word <= keys[i]
    ensures lcd >= |word|
  {
    assert Share(keys, |word|) by {
      forall i, j | 0 <= i < |keys| && 0 <= j < |keys| ensures SamePrefix(keys[i], keys[j], |word|) {
        assert keys[i][..|word|] == word == keys[j][..|word|];
      }
    }
  }

  /** The word that is being completed: the last one, or none behind a space. */
  function LastWord(line: Text, words: seq<Text>): Text {
    if line == [] || words == [] || line[|line| - 1] == 32 then [] else words[|words| - 1]
  }

  /** The words before the one that is being completed. */
  function Finished(line: Text, words: seq<Text>): seq<Text> {
    if line == [] || words == [] || line[|line| - 1] == 32 then words else words[..|words| - 1]
  }

  predicate HasPipe(words: seq<Text>) {
    exists i :: 0 <= i < |words| && words[i] != [] && words[i][0] == PIPE
  }

  /** Some word starts with a bar. */
  method StartsPipe(words: seq<Text>) returns (piped: bool)
    ensures piped == HasPipe(words)
  {
    var i := 0;
    while i < |words|
      invariant 0 <= i <= |words| && !HasPipe(words[..i])
    {
      if words[i] != [] && words[i][0] == PIPE {
        return true;
      }
      i := i + 1;
    }
    assert words[..i] == words;
    return false;
  }

  /** The answer for a line: from the keys at the node its finished words lead to. */
  ghost predicate Completes(tree: Node, line: Text, c: Completion) {
    var words := Words(line);
    var word := LastWord(line, words);
    if words == [] || HasPipe(words) then c == Nothing
    else match Base(tree, Finished(line, words))
         case None => c == Unmatched
         case Some(base) => Answers(c, Offered(base, word), word)
  }

  /** Completes a line against the node its finished words lead to. */
  method Complete(tree: Node, line: Text) returns (c: Completion)
    ensures Completes(tree, line, c) && c == TabAnswer(tree, line)
  {
    hide Base, Offered, Answers, AnswerFor;
    var words := LineArgs(line);
    var piped := StartsPipe(words);
    if piped {
      return Nothing;
    }
    if |words| == 0 {
      return Nothing;
    }
    assert line != [] by { NoWords(); }
    var wordc := |words|;
    if line[|line| - 1] != 32 {
      wordc := wordc - 1;
    }
    assert words[..wordc] == Finished(line, words);
    var base := FindBase(tree, words[..wordc]);
    if base == None {
      return Unmatched;
    }
    var word := if wordc < |words| then words[wordc] else [];
    c := GetComplete(base.value, word);
    OneAnswer(base.value, word, c);
  }

  lemma NoWords()
    ensures Words([]) == []
  {
  }

  // ----- The last word on the line -----

  /** The characters behind the last space. */
  function PureStart(line: Text): (p: nat)
    ensures p <= |line| && (p > 0 ==> line[p - 1] == 32)
    ensures forall k :: p <= k < |line| ==> line[k] != 32
  {
    if line == [] || line[|line| - 1] == 32 then |line| else PureStart(line[..|line| - 1])
  }

  lemma PureStartIs(line: Text, p: nat)
    requires p <= |line| && (p > 0 ==> line[p - 1] == 32) && forall k :: p <= k < |line| ==> line[k] != 32
    ensures PureStart(line) == p
  {
  }

  lemma PipeInFront(w: Text, rest: seq<Text>)
    ensures HasPipe([w] + rest) <==> (w != [] && w[0] == PIPE) || HasPipe(rest)
  {
    var all := [w] + rest;
    if HasPipe(rest) {
      var i :| 0 <= i < |rest| && rest[i] != [] && rest[i][0] == PIPE;
      assert all[i + 1] == rest[i];
    }
    if w != [] && w[0] == PIPE { assert all[0] == w; }
  }

  lemma {:induction false} NoBars(line: Text, p: nat)
    requires p <= |line| && PIPE !in line
    ensures !HasPipe(WordsFrom(line, p))
    decreases |line| - p
  {
    var start := SkipSpaces(line, p);
    if start < |line| {
      var e := WordEnd(line, start);
      NoBars(line, e);
      PipeInFront(line[start..e], WordsFrom(line, e));
    }
  }

  /** A line read off its text: what stands before the last space is finished, and what is
      behind it is the word to complete. */
  lemma LastSplit(front: Text, word: Text)
    requires (front != [] ==> front[|front| - 1] == 32) && PIPE !in front && (word == [] || IsWord(word))
    ensures var line, words := front + word, Words(front + word);
            && words == Words(front) + (if word == [] then [] else [word]) && !HasPipe(words)
            && Finished(line, words) == Words(front) && LastWord(line, words) == word && PureStart(line) == |front|
  {
    hide Words, WordsFrom, PureStart;
    var line, words := front + word, Words(front + word);
    LineConcat(front, word);
    NoBars(line, 0);
    WordsAt0(line);
    PureStartIs(line, |front|);
    if word == [] {
      assert line == front;
      NoWords();
    } else {
      OneWord(word, []);
      assert line[|line| - 1] == word[|word| - 1] && !EndsWord(word[|word| - 1]);
      assert (Words(front) + [word])[..|Words(front)|] == Words(front);
    }
  }

  lemma WordsAt0(line: Text)
    ensures Words(line) == WordsFrom(line, 0)
  {
    hide WordsFrom;
  }

  /** On a printable line without a bar the word to complete is what the cursor would
      step back over. */
  lemma {:induction false} LastWordIsPure(line: Text, p: nat)
    requires Printable(line) && p <= |line| && !HasPipe(WordsFrom(line, p)) && (0 < p < |line| ==> EndsWord(line[p]))
    ensures WordsFrom(line, p) != [] ==> LastWord(line, WordsFrom(line, p)) == line[PureStart(line)..]
    ensures WordsFrom(line, p) == [] && p < |line| ==> line[|line| - 1] == 32
    decreases |line| - p
  {
    hide PureStart;
    var words, start := WordsFrom(line, p), SkipSpaces(line, p);
    if start < |line| {
      PipeInFront(line[start..], []);
      var e := WordEnd(line, start);
      var rest := WordsFrom(line, e);
      PipeInFront(line[start..e], rest);
      LastWordIsPure(line, e);
      if e == |line| {
        assert rest == [];
        PureStartIs(line, start);
      } else if rest == [] {
        PureStartIs(line, |line|);
      }
    }
  }

  /** Writing a key that starts with the last word over it keeps the line as a prefix,
      however much of the key fits. */
  lemma OverwriteExtends(line: Text, key: Text, room: nat)
    requires line[PureStart(line)..] <= key && |line| <= room
    ensures var p := PureStart(line); var n := Min(|key|, room - p);
            line <= line[..p] + key[..n] && |line[..p] + key[..n]| <= room
  {
    var p := PureStart(line);
    var n := Min(|key|, room - p);
    assert line == line[..p] + line[p..];
    assert line[p..] <= key[..n];
  }
}
