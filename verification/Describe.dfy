/** Help on the last word of a line. */
module Descriptions {
  import opened Basics
  import opened CommandTrees
  import opened CommandSearches
  import opened Completions

  /** Nothing behind a bar, an unknown command, or the tokens that can follow and whether
      the line is complete as it is. */
  datatype Help = NoHelp | Unknown | Choices(topics: seq<Token>, cr: bool)

  /** The help on a line: the tokens at the node its finished words lead to.  The line is
      complete when that node has a handler and the last word is finished or one of the keys. */
  ghost function HelpFor(tree: Node, line: Text): Help {
    var words := Words(line);
    var word := LastWord(line, words);
    if HasPipe(words) then NoHelp
    else match Base(tree, Finished(line, words))
         case None => Unknown
         case Some(base) =>
           if Topics(base, word) == [] then Unknown
           else Choices(Topics(base, word), base.func.Some? && (word == [] || word in Offered(base, word)))
  }

  method Describe(tree: Node, line: Text) returns (found: bool, keys: seq<Text>, descs: seq<Text>, cr: bool)
    ensures match HelpFor(tree, line)
            case NoHelp => found && keys == descs == [] && !cr
            case Unknown => !found
            case Choices(topics, complete) => found && keys == KeysOf(topics) && descs == DescsOf(topics) && cr == complete
  {
    hide Base, Topics;
    var words := LineArgs(line);
    var piped := StartsPipe(words);
    if piped {
      return true, [], [], false;
    }
    WordsNonempty(line, 0);
    var wordc := |words|;
    if |words| > 0 {
      NoWords();
      if line[|line| - 1] != 32 {
        wordc := wordc - 1;
      }
    }
    assert words[..wordc] == Finished(line, words);
    var base := FindBase(tree, words[..wordc]);
    if base == None {
      return false, [], [], false;
    }
    var word := if wordc < |words| then words[wordc] else [];
    cr := wordc == |words| && base.value.func.Some?;
    found, keys, descs := GetDesc(base.value, word);
    if wordc < |words| {
      var i := 0;
      while i < |keys|
        invariant 0 <= i <= |keys| && word !in keys[..i] && !cr
      {
        if keys[i] == word {
          cr := base.value.func.Some?;
          break;
        }
        i := i + 1;
      }
    }
  }

  /** The tokens that start with the word, with their descriptions. */
  method GetDesc(n: Node, word: Text) returns (found: bool, keys: seq<Text>, descs: seq<Text>)
    ensures found <==> Topics(n, word) != []
    ensures keys == Offered(n, word) && descs == DescsOf(Topics(n, word))
  {
    var count := TokenCount(n.children, word);
    var more := TokenCount(n.keyword, word);
    if count + more <= 0 {
      return false, [], [];
    }
    keys, descs := CollectKeys(n.children, word);
    var lastKeys, lastDescs := CollectKeys(n.keyword, word);
    return true, keys + lastKeys, descs + lastDescs;
  }

  lemma {:induction false} WordsNonempty(line: Text, p: nat)
    requires p <= |line|
    ensures forall i :: 0 <= i < |WordsFrom(line, p)| ==> WordsFrom(line, p)[i] != []
    decreases |line| - p
  {
    var start := SkipSpaces(line, p);
    if start < |line| && line[start] != PIPE {
      WordsNonempty(line, WordEnd(line, start));
    }
  }

  /** The help on a line read off its text: the tokens behind its finished words that start
      with what stands behind the last space. */
  lemma HelpTopics(tree: Node, front: Text, word: Text)
    requires (front != [] ==> front[|front| - 1] == 32) && PIPE !in front && (word == [] || IsWord(word))
    ensures match HelpFor(tree, front + word)
            case NoHelp => false
            case Unknown => Base(tree, Words(front)) == None || Topics(Base(tree, Words(front)).value, word) == []
            case Choices(topics, _) => Base(tree, Words(front)).Some? && topics == Topics(Base(tree, Words(front)).value, word) != []
  {
    hide Words, Base, Topics;
    LastSplit(front, word);
  }

  // ----- What <cr> means -----

  predicate Runs(o: Option<Outcome>) {
    o.Some? && o.value.Reached?
  }

  lemma NoBar(words: seq<Text>)
    requires !HasPipe(words)
    ensures CommandPart(words) == |words| && words[..CommandPart(words)] == words
  {
    AllCommand(words);
  }

  /** Behind a finished line <cr> is offered exactly when Enter would call a handler. */
  lemma CrFinished(tree: Node, line: Text)
    requires line != [] && line[|line| - 1] == 32 && Words(line) != [] && HelpFor(tree, line).Choices?
    ensures HelpFor(tree, line).cr <==> Runs(LineOutcome(tree, line))
  {
    hide Words, Resolve, Topics, CommandPart;
    NoBar(Words(line));
  }

  /** Behind an unfinished word it is offered exactly when the word is one of the keys and the
      line without it would call a handler, or the root has one. */
  lemma CrUnfinished(tree: Node, before: Text, word: Text)
    requires (before != [] ==> before[|before| - 1] == 32) && PIPE !in before && IsWord(word)
    requires HelpFor(tree, before + word).Choices?
    ensures var h := HelpFor(tree, before + word);
            h.cr <==> (exists t :: t in h.topics && t.key == word) &&
                      if Words(before) == [] then tree.func.Some? else Runs(LineOutcome(tree, before))
  {
    hide Words, Resolve, Topics, CommandPart, KeysOf;
    var line, words := before + word, Words(before);
    assert !EndsWord(word[|word| - 1]);
    LineConcat(before, word);
    OneWord(word, []);
    assert Words(line) == words + [word] && (words + [word])[..|words|] == words;
    BarBefore(words, word);
    NoBar(words);
    KeysExact(HelpFor(tree, line).topics);
  }

  lemma BarBefore(words: seq<Text>, word: Text)
    ensures HasPipe(words) ==> HasPipe(words + [word])
  {
    if i :| 0 <= i < |words| && words[i] != [] && words[i][0] == PIPE { assert (words + [word])[i] == words[i]; }
  }
}
