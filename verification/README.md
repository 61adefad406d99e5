# Chaconne, verified

A Dafny model of the algorithms behind the Chaconne command-line terminal, with proofs.
`dafny verify dfyconfig.toml` checks all of it.

- **Regular expressions** (libregexp.c). Patterns and their language (`RegexSyntax`), an
  ordered reading of them with captures (`RegexOutcomes`, `RegexLanguage`), instructions and
  their bytes (`RegexCode`), the code of each pattern (`RegexGen`), the backtracking machine
  as a step function (`RegexVM`), and how runs compose (`RegexYields`). `RegexLoops`,
  `RegexQuant`, `RegexGreedy` and `RegexSim` prove that code simulates pattern,
  `RegexAdvance` that the advance scan is right, `RegexSearch` that runs end with the leftmost
  match, `RegexStack` and `RegexInvariant` that jumps and stack are well typed in every
  reachable configuration. `RegexFate` computes what becomes of a run, `RegexHalts` proves that
  it does, for every pattern, and `RegexDiverge` that runs that halt are right.
  `RegexDerivations` orders the derivations of a match by preference and proves that a search
  finds the most preferred one, `RegexPreference` what that is for greedy and lazy quantifiers.
  On top of that stands the program itself: the compiler that emits, inserts and patches bytes
  in one growing buffer (`DynBufs`, `RegexCompiler`, `RegexProgram`) and the matcher that runs
  on those bytes with arrays updated in place (`RegexExec`). `RegexProgram.Compile` followed by
  `RegexExec.Execute` is the whole path from pattern to answer.
- **Code-point sets** (libunicode.c, libunicode.h). `CharRanges`: merge by parity and
  compression in place. `UnicodeTables`: run-length tables with a block index.
- **Sorting and UTF-8** (cutils.c). `Permutations`, `HeapSorting`, `QuickSorting`, `Utf8`.
- **Line editor** (cli-term.c). `Screens` interprets echoed bytes on one row of unbounded
  width, `Histories` is the ring of old lines, `Listings` says where lists and help are
  displayed, `Terminals` is the editor: the meaning of the keys as a function (`Press`), and
  the terminal that follows it on every sequence of keys while its row stays in step.
  `Keystrokes` says what each key does to the text before and behind the cursor.
- **Command tree** (cli-tree.c). `CommandTrees` holds the tree and the best match,
  `CommandPlaces` paths in it and how it grows, `CommandStates`, `CommandParts`,
  `CommandHelps` and `CommandParsers` the parser of command lines, `CommandSearches` the search
  over trees of any form, `CommandMaps` what adding means for executing, `Completions` and
  `Descriptions` what TAB and the question mark answer.
- **Containers**. `Streams` (stream.c), `HashTables` (hashtable.c), `KeyPairs` (str-kpairs.c).

Conventions. Flags are 0 and subjects are 8-bit, as in the only callers (stream.c:342,
stream.c:357). Pointers into a buffer are offsets; a place in the command tree is a path from
its root. Bit operations whose operands do not overlap are written as arithmetic. Integers are
unbounded; where the width matters the wrap-around is written out (jump offsets and operands
modulo 2^32, loop counters modulo 2^64, the block count of a stream modulo 2^64). A line feed
returns the carriage, because the program leaves output processing on (main.c:222-224). What a
handler prints is a parameter of the key that calls it, and so is how many nodes can be
allocated for a stream. Two fields of a `Machine` belong to the proofs only: for how many
rounds of a lazy loop and for how many steps a run is looked at.

Some statements have an exact limit instead of holding always.

- The zero-advance check is left out for lazy loops, so a run over one may not halt.
  `RegexHalts.RunHalts` says for every pattern and line whether it does, by a function of the
  two (`RegexFate.SearchFate`) that a caller can evaluate before the run, and
  `RegexDiverge.EmptyBodyRunsForever` is a case where it does not. A run that does halt is
  right: `RegexDiverge.HaltedRunAnswers`.
- After a handler has printed, the row is in step exactly when its output has cleared it:
  `Terminals.Terminal.Read`, with `Listings.OpenRow` as an output that does not.
- The search of the command tree never goes back, so it can miss a command:
  `CommandSearches.SearchNeverGoesBack` is a line for which it does. It is exact on a tree if
  and only if the tree is clear, `CommandSearches.SearchExact`: siblings that share a word are
  equal, keywords that share one are equal or take no value, none shares one with a child, and
  so on below, but not behind a vararg that stands alone.
- A line spelled by a command calls its handler with the arguments its text gives if and only
  if no literal of the command sits in a group of another command:
  `CommandMaps.AddedRuns`, with `CommandMaps.SharedLiteral` as a case where one does.
- A value put into packed pairs is found again unless an empty key is involved:
  `KeyPairs.SetThenGet`.

Two places where the model follows the code to the letter: the last
entry of a table index is compared without masking its offset bits (libunicode.c:186), and
clearing a hash table leaves the per-bucket counts as they were (hashtable.c:306-324).

## Model

| member | source | states |
|---|---|---|
| `RegexLanguage.OutcomesExact` | libregexp.c:2089-2488 | for every pattern, line and position: the positions at which the ordered, backtracking reading of the pattern arrives are exactly the ends of its matches in the language of section 21.2.2 of ECMA-262 (no match missed, none invented) |
| `RegexLanguage.IteratedExact` | libregexp.c:1594-1689 | repeating a body min to max times with the machine's own rule for empty iterations reaches exactly the ends of between min and max repetitions in the language, lazily or greedily |
| `RegexSim.SimOutcomes` | libregexp.c:1502-1770 | compiler correctness for every sub-pattern: from any configuration and any stack of saved states its code hands the continuation exactly the outcomes of the pattern, in order, and then falls back to what was saved |
| `RegexQuant.SimPlain` | libregexp.c:1600-1690 | every split/loop encoding of a quantifier (optional, plus, counted, unbounded with and without the zero-advance check, with mandatory iterations) visits the iterated outcomes of its body in order |
| `RegexLoops.SimCheckedAt` | libregexp.c:1621-1635 | an unbounded loop with the push_char_pos/bne_char_pos check ends and yields the loop outcomes even when its body can match the empty string |
| `RegexLoops.SimUncheckedAt` | libregexp.c:1621-1637 | an unbounded loop without the check yields the loop outcomes when its body always advances |
| `RegexLoops.SimCountedAt` | libregexp.c:1638-1649 | push_i32/split/loop/drop yields up to n further iterations, and the counter never leaks onto the stack of the continuation |
| `RegexSim.SimLook` | libregexp.c:2106-2173 | a lookahead leaves no saved state of its body behind, keeps the cursor, and succeeds exactly when its body has an outcome (or has none, when negated) |
| `RegexSim.SimAlt` | libregexp.c:1738-1770 | alternatives are tried left to right, with all outcomes of the first before any of the second |
| `RegexSearch.FirstOutcome` | libregexp.c:2257-2262 | the whole pattern as group 0 has an outcome at a start exactly when the language has a match there, and its first outcome stores that start and an end the language allows |
| `RegexSearch.SearchAnswers` | libregexp.c:1851-1873 | the search result is none exactly when no start at or after the given one has a match; otherwise capture 0 is the leftmost such start and the end of a match |
| `RegexHalts.RunHalts` | libregexp.c:2089-2494 | for every pattern, line and start, exactly what becomes of the run: it halts with a match and these captures, halts without one, or never halts, as the fate of the search says, which is computed from pattern and line alone |
| `RegexHalts.CodeFates` | libregexp.c:2089-2494 | the code of every pattern, anywhere in a program and above any saved states, matches, falls back or runs for ever as the pattern does, given what happens behind it at each position |
| `RegexHalts.UncheckedFates` | libregexp.c:2192-2209 | a loop without the zero-advance check: an iteration that ends where it started is repeated for ever, whatever nested loops do meanwhile |
| `RegexHalts.CheckedFates` | libregexp.c:2292-2300 | a loop with the check: an iteration that ends where it started leaves the loop |
| `RegexHalts.LookFates` | libregexp.c:2106-2173 | a lookahead succeeds, fails or runs for ever with its body, from where it stands, and a run that succeeds inside goes on behind it |
| `RegexFate.FateOfOutcomes` | libregexp.c:2106-2173 | where lazy loops move on, the fate of a pattern is decided by the first of its ordered outcomes behind which the run does not fall back |
| `RegexFate.BeforeByPosition` | libregexp.c:2106-2173 | which way a run goes from a pattern does not depend on the captures so far, only on the position |
| `RegexDerivations.DerivationsExact` | libregexp.c:2089-2488 | derivations (which alternative, how each iteration) that end at a position exist exactly where the language has a match up to it |
| `RegexDerivations.Total` | libregexp.c:1594-1597 | of two derivations from the same place one is preferred: left before right alternative, first part before second, more iterations before fewer when greedy, fewer before more when lazy |
| `RegexPreference.Asymmetric` | libregexp.c:1594-1597 | the preference is never mutual and never of a derivation to itself |
| `RegexPreference.Transitive` | libregexp.c:1594-1597 | the preference is transitive |
| `RegexDerivations.FateFails` | libregexp.c:2106-2173 | where a run falls back from a pattern, it does behind every derivation of the pattern |
| `RegexDerivations.FateLeast` | libregexp.c:2106-2173 | where it succeeds, it is with a derivation to which only failing ones are preferred, and with the captures of that derivation |
| `RegexDerivations.SearchPreferred` | libregexp.c:1851-1873 | a search that ends has the captures of the most preferred derivation of the whole pattern from the first start that has any |
| `RegexPreference.OneAnswer` | libregexp.c:2499-2535 | there is only one such result |
| `RegexPreference.LazyMatchesNothing` | libregexp.c:1613-1649 | a lazy quantifier over anything that may match nothing does so where the search starts, and sets no inner group |
| `RegexPreference.AtomTakes` | libregexp.c:1566-1649 | an atom of one character takes as many characters of a run as it may when greedy, and as few when lazy |
| `RegexDiverge.RunEnds` | libregexp.c:2499-2535 | a run halts if and only if its fate is not to run for ever |
| `RegexDiverge.EndlessHalts` | libregexp.c:1594-1597 | in terms of the language: a lazy unbounded loop that has to be exhausted halts on a line if and only if its body matches the empty string nowhere in it |
| `RegexDiverge.LoopFalls` | libregexp.c:2192-2209 | at every position such a loop falls back or runs for ever, and it runs for ever where its body can match empty |
| `RegexDiverge.EmptyBodyRunsForever` | libregexp.c:1594-1597 | a concrete pattern and line on which the machine never halts |
| `RegexAdvance.CheckAdvanceSound` | libregexp.c:950-1030 | the advance scan is right: when it says a character is always consumed, every outcome of the pattern ends beyond its start |
| `RegexSim.GreedyRefinesPlain` | libregexp.c:1566-1589 | simple_greedy_quant refines the split loop it replaces: for any accepted atom, min and max, both hand the continuation the same cursor positions in the same order from every configuration |
| `RegexGreedy.SimGreedy` | libregexp.c:2137-2158 | the optimised instruction together with its pop rule visits the iterated outcomes of the atom, longest first down to min |
| `RegexStack.GenBalanced` | libregexp.c:1600-1689 | after all insertions and patches every jump of the code of every pattern lands on an instruction boundary with the depth the linear scan assigns to it, no pop underflows, every slot exists, and the code leaves the stack as it found it |
| `RegexStack.ProgramBalanced` | libregexp.c:1851-1873 | the same for the whole program with its search loop |
| `RegexInvariant.StepSound` | libregexp.c:2118-2300 | one machine step, also one that restores a saved state, keeps the runtime stack length equal to the scan depth at the pc, the cursor inside the line and all captures in place |
| `RegexInvariant.StackDiscipline` | libregexp.c:1773-1815 | in every configuration of every run the machine is not stuck and its stack is no longer than the maximum the scan computes |
| `RegexClass.ClassMatch` | libregexp.c:2367-2443 | for every compressed range and every code point below UINT32_MAX, the stored 16-bit or 32-bit intervals searched by the machine accept it exactly when it is in the set, including 0xffff as infinity |
| `RegexClass.BisectNoWrap` | libregexp.c:2383-2397 | the unsigned search index never wraps below 0, whatever the stored pairs are |
| `RegexClass.SearchRange` | libregexp.c:2367-2400 | the in-place binary search returns the verdict of the range test |
| `RegexCode.DecodeEncode` | libregexp.c:87-101 | every instruction the compiler emits is read back from its bytes as itself, wherever it is stored |
| `RegexEncode.GenEncodable` | libregexp.c:1600-1689 | operands of all generated instructions fit their fields for programs below 2 GB and at most 255 captures |
| `RegexEncode.ProgramFetched` | libregexp.c:2103-2106 | the machine that fetches from the bytes of a compiled program sees exactly its instructions |
| `RegexCompiler.Compiler.EmitGoto` | libregexp.c:409-416 | the stored offset is relative to the end of the instruction, modulo 2^32 |
| `RegexCompiler.CheckAdvanceScan` | libregexp.c:950-1030 | reading only bytes, steps from instruction to instruction and returns the verdict of the advance scan on the code they encode |
| `RegexCompiler.SimpleQuantifierScan` | libregexp.c:1034-1071 | reading only bytes, returns the number of characters of straight-line code, or -1 for any other code |
| `RegexCompiler.Compiler.EmitPairs` | libregexp.c:838-854 | appends the bytes of the intervals in the 16-bit or 32-bit form |
| `RegexCompiler.Compiler.EmitRange` | libregexp.c:821-857 | fails exactly with 65535 or more intervals; otherwise the appended bytes are the class instruction of the set |
| `RegexCompiler.Compiler.QuantifyGreedy` | libregexp.c:1573-1588 | the bytes from the start of the atom become those of simple_greedy_quant over it |
| `RegexCompiler.Compiler.InsertReset` | libregexp.c:1603-1612 | the group-reset instruction is put in front exactly when the atom has groups |
| `RegexCompiler.Compiler.QuantifyZero` | libregexp.c:1603-1649 | no mandatory iteration: reset instruction and optional iterations in front of everything emitted before |
| `RegexCompiler.Compiler.QuantifyTail` | libregexp.c:1613-1649 | insertions and patches turn the bytes of the atom into those of its optional iterations, greedy or lazy as asked |
| `RegexCompiler.Compiler.LoopInPlace` | libregexp.c:1621-1637 | the unbounded loop in place, with or without the zero-advance check, with the right jump offsets |
| `RegexCompiler.Compiler.CountInPlace` | libregexp.c:1638-1649 | the counted loop in place, with the right jump offsets |
| `RegexCompiler.Compiler.QuantifyMin` | libregexp.c:1654-1666 | the mandatory iterations, and where the atom is afterwards |
| `RegexCompiler.Compiler.QuantifyMore` | libregexp.c:1667-1689 | the optional iterations over a copy of the atom, greedy or lazy as asked |
| `RegexCompiler.Compiler.AppendLoop` | libregexp.c:1667-1680 | the unbounded loop behind the mandatory iterations, over a copy of the atom, with the right jump offsets |
| `RegexCompiler.Compiler.AppendCount` | libregexp.c:1681-1689 | the counted loop behind the mandatory iterations, over a copy of the atom, with the right jump offsets |
| `RegexCompiler.Compiler.QuantifyPlain` | libregexp.c:1600-1690 | the split and loop encodings in place, for every min and max, greedy or lazy |
| `RegexCompiler.Compiler.Unit` | libregexp.c:1227-1500 | a character, class or assertion becomes the bytes of its instruction; fails exactly for a class with too many intervals |
| `RegexCompiler.Compiler.Quantify` | libregexp.c:1563-1691 | any quantifier: everything before the atom is kept and the atom's bytes become those of the quantified atom |
| `RegexCompiler.Compiler.Capture` | libregexp.c:1336-1354 | numbers the group, fails exactly when the 255th capture would be exceeded |
| `RegexCompiler.Compiler.Lookahead` | libregexp.c:1302-1313 | the jump over the body, stored as 0 at first, is patched to the length the body turned out to have |
| `RegexCompiler.Compiler.Alternative` | libregexp.c:1738-1770 | a split goes in front of the first alternative and the jump behind it is patched once the second is there |
| `RegexCompiler.Compiler.Term` | libregexp.c:1215-1700 | compiling any pattern appends exactly the bytes of its code and counts its groups, and fails exactly when a class has too many intervals or there are too many groups |
| `RegexProgram.ComputeStackSize` | libregexp.c:1773-1815 | reading only bytes, returns the deepest point of the linear scan, or -1 exactly when it exceeds 255; its assertions hold |
| `RegexProgram.EmitProgram` | libregexp.c:1847-1873 | search loop, pattern as group 0 and final match, in one buffer |
| `RegexProgram.FillHeader` | libregexp.c:1891-1893 | capture count, stack size and length go into the header and nothing else changes |
| `RegexProgram.Compile` | libregexp.c:1821-1908 | returns the image of the pattern, or fails exactly for too large classes, too many groups or a too deep stack |
| `RegexExec.TestChar` | libregexp.c:2175-2256 | a character test accepts exactly the characters of the instruction |
| `RegexExec.TestPosition` | libregexp.c:2227-2322 | line start, line end and word boundary hold exactly where they should |
| `RegexSyntax.WordCharacters` | libregexp.c:1911-1922 | word characters are the letters, digits and underscore, line ends the four of the standard |
| `RegexExec.RunAtom` | libregexp.c:2450-2476 | the run without saved states returns the end of the atom or no match, and terminates |
| `RegexExec.Iterate` | libregexp.c:2462-2476 | iterates the atom as often as it goes, at most max times |
| `RegexExec.Executor.PushState` | libregexp.c:2050-2086 | copies cursor, stack and captures into a new saved state and keeps the older ones |
| `RegexExec.Executor.Restore` | libregexp.c:2125-2136 | copies a saved state back, the captures only when asked to |
| `RegexExec.Executor.ExecTest` | libregexp.c:2175-2256 | character tests and assertions: move on, or fail into the pop loop |
| `RegexExec.Executor.ExecControl` | libregexp.c:2192-2226 | jumps, splits, lookaheads and match: where the run goes on and which state is saved |
| `RegexExec.Executor.ExecCapture` | libregexp.c:2257-2276 | sets one slot, or clears the slots of a range of groups in place |
| `RegexExec.Executor.ExecStack` | libregexp.c:2277-2294 | push and drop, within the allocated stack |
| `RegexExec.Executor.ExecLoop` | libregexp.c:2285-2300 | loop counter and position check on top of the stack |
| `RegexExec.Executor.ExecGreedy` | libregexp.c:2450-2488 | the greedy quantifier instruction and the state it saves |
| `RegexExec.Executor.ExecOne` | libregexp.c:2103-2490 | one instruction in place is one step of the abstract machine |
| `RegexExec.Executor.PopOne` | libregexp.c:2113-2173 | one round of the pop loop in place is one step of the abstract machine |
| `CharRanges.CharRange.Compress` | libunicode.c:326-352 | in place: same members at every point, and the points become strictly increasing |
| `CharRanges.CharRange.Op` | libunicode.c:355-405 | for any two sorted even-length lists: exactly union, intersection or exclusive or of membership at every point, compressed |
| `CharRanges.CharRange.Union1` | libunicode.c:407-417 | replaces the range by its union with a point list |
| `CharRanges.CharRange.UnionInterval` | libunicode.h:91-97 | adds exactly the code points c1 to c2 |
| `CharRanges.CharRange.Invert` | libunicode.c:419-431 | exactly the complement below UINT32_MAX, compressed |
| `CharRanges.OddCount` | libunicode.c:380-398 | parity is membership: a point is in a sorted list exactly when an odd number of end points is at or below it |
| `CharRanges.Canonical` | libunicode.c:325-352 | compressed lists are canonical: equal sets have equal point lists |
| `CharRanges.CombinedUnique` | libunicode.c:355-405 | the list an operation leaves depends only on the two sets, not on how they were written |
| `CharRanges.SetAlgebra` | libunicode.c:380-398 | the three operations are union, intersection and symmetric difference of sets |
| `CharRanges.InvertTwice` | libunicode.c:419-431 | inverting twice restores a compressed list point for point |
| `CharRanges.DeMorgan` | libunicode.c:355-431 | complement of a union is the intersection of complements, list for list |
| `UnicodeTables.IndexPos` | libunicode.c:172-203 | returns a decode state with bit 0 that the decoder really passes and that is not beyond the code point, or nothing exactly when the code point is behind the table |
| `UnicodeTables.IsInTable` | libunicode.c:205-238 | for any run-length table and any index of true decode states: lookup through the index equals the scan from the start, terminates inside the table, and holds exactly for the code points in the odd runs of the groups the table is written in |
| `UnicodeTables.Expand` | libunicode.c:1129-1166 | the expanded range has exactly the members of the table, which are the code points in its odd runs, so it agrees with the indexed lookup at every code point |
| `UnicodeTables.ScanFrom` | libunicode.c:214-237 | decoding may start at any state it passes without changing the verdict for later code points |
| `UnicodeTables.ScanEnd` | libunicode.c:181-186 | a code point has no run exactly when it is at or behind the end code |
| `UnicodeTables.MemberRuns` | libunicode.c:205-238 | a table written group by group contains exactly the code points in its runs of odd index, counted on the list of run lengths |
| `UnicodeTables.TableGroups` | libunicode.c:214-237 | every complete table is written in such groups |
| `UnicodeTables.RunsEncoded` | libunicode.c:214-237 | every list of run lengths has a table that contains exactly its odd runs |
| `UnicodeTables.CaseIgnorableStart` | libunicode-table.h:191-192 | the first bytes of a table of the repository contain the apostrophe and the full stop and nothing else |
| `UnicodeTables.EntryNames` | libunicode.c:160-202 | an index entry names the decode state whose code and offset it packs |
| `QuickSorting.Sort` | cutils.c:512-629 | for every array and every total preorder: terminates with a sorted permutation |
| `QuickSorting.Descend` | cutils.c:539-621 | pushes never exceed the 50 entries because pending depths strictly increase within 1..50; what is pending still covers all disorder and the work left shrinks |
| `QuickSorting.Partition` | cutils.c:546-604 | smaller, equal and greater parts around a pivot, equal part not empty, by permuting the segment only |
| `QuickSorting.Gather` | cutils.c:551-574 | the two-ended scan leaves equal, smaller, greater, equal |
| `QuickSorting.GatherLeft` | cutils.c:556-565 | passes over elements up to the first one greater than the pivot, moving equal ones to the left border |
| `QuickSorting.GatherRight` | cutils.c:566-572 | passes over elements down to the last one smaller than the pivot, moving equal ones to the right border |
| `QuickSorting.MoveLeft` | cutils.c:582-591 | exchanges the equal elements at the left border with the smaller ones by swapping the shorter block |
| `QuickSorting.MoveRight` | cutils.c:592-600 | exchanges the greater elements with the equal ones at the right border by swapping the shorter block |
| `QuickSorting.Med3` | cutils.c:504-509 | one of the three positions, holding a median of the three elements |
| `QuickSorting.SwapBlock` | cutils.c:588-603 | exchanges two disjoint blocks element by element |
| `QuickSorting.InsertionSort` | cutils.c:622-626 | sorts a segment by permuting it only |
| `QuickSorting.SegmentSplit` | cutils.c:606-621 | a partitioned segment leaves two smaller pending ones and no other disorder |
| `QuickSorting.SegmentSorted` | cutils.c:531-545 | a sorted segment is no longer pending |
| `QuickSorting.DepthsSnoc` | cutils.c:514-542 | strictly increasing depths within 1..50 leave room for every push |
| `HeapSorting.SiftDown` | cutils.c:480-487 | restores the heap below a node |
| `HeapSorting.BuildHeap` | cutils.c:476-488 | turns any segment into a heap by permuting it only |
| `HeapSorting.HeapSort` | cutils.c:470-502 | sorts a segment by permuting it only |
| `HeapSorting.RootIsMax` | cutils.c:489-499 | the root of a heap is its maximum |
| `Utf8.Encode` | cutils.c:206-239 | writes the encoding of any code below 2^31, and nothing for larger values |
| `Utf8.KnownEncodings` | cutils.c:206-239 | an example of RFC 2279 and the last code of four bytes |
| `Utf8.Decode` | cutils.c:251-304 | returns the code whose encoding the bytes start with and its length, and fails exactly when there is no such code, so overlong and truncated forms are refused |
| `Utf8.PrefixFree` | cutils.c:206-304 | no two codes have encodings that start the same bytes |
| `Utf8.UniquelyDecodable` | cutils.c:206-304 | code sequences with equal encodings are equal |
| `Utf8.DecodeAll` | cutils.c:251-304 | decoding code after code returns a sequence whose encoding is the input, or fails exactly when no sequence has that encoding |
| `RegexLanguage.DropEmptyIterations` | libregexp.c:2292-2300 | any number of iterations has the same ends as some number of iterations that all move, so at most as many as there are characters |
| `RegexSearch.RunSearches` | libregexp.c:2089-2494 | every run of a compiled program ends with exactly the result of the search: always, for patterns whose lazy unbounded loops cannot match empty on the line; for all patterns, if it ends within the number of steps looked at |
| `RegexDiverge.HaltedRunAnswers` | libregexp.c:2089-2494 | for every pattern, line and start: a run that halts, however many steps it takes, has found the first outcome in order from the leftmost start with a match, or there is none; lazy loops over empty iterations included |
| `RegexLoops.SimLazyAt` | libregexp.c:1594-1637 | a lazy unbounded loop, which has no zero-advance check, visits its rounds one after the other as far as a run gets, and all of them when its body advances |
| `RegexDiverge.ScannedAnswers` | libregexp.c:1594-1637 | for every pattern whose lazy unbounded loops have bodies the advance scan accepts, and every line and start: the run halts and its result is the leftmost match, or none exactly when there is none |
| `RegexSim.AdvanceNeverEmpty` | libregexp.c:950-1030 | a body the advance scan accepts matches the empty string nowhere, on no line |
| `RegexExec.AdvancingHalts` | libregexp.c:2499-2535 | the run of every pattern halts on every line on which no lazy unbounded loop can match empty |
| `RegexExec.HaltsExactly` | libregexp.c:2499-2535 | the run of a compiled pattern over a line ends exactly when its fate is not to run for ever, and then with the captures of its fate |
| `RegexExec.Execute` | libregexp.c:2499-2535 | on the bytes of any accepted pattern and every line on which it does not run for ever: the matcher never leaves its stack or capture arrays and returns all captures of the most preferred derivation of a match from the leftmost start that has one, or none exactly when there is none |
| `RegexGreedy.StraightOutcomes` | libregexp.c:1034-1071 | an atom the scan accepts has at most one outcome, exactly as many characters on as the scan has counted |
| `DynBufs.DynBuf.Realloc` | cutils.c:104-123 | room for the requested size, growing by half at least, with all bytes kept |
| `DynBufs.DynBuf.Put` | cutils.c:137-146 | appends bytes in the array, enlarging it when they do not fit |
| `DynBufs.DynBuf.PutSelf` | cutils.c:148-157 | appends a copy of bytes in the array, also when the array has just been replaced |
| `DynBufs.DynBuf.Insert` | libregexp.c:114-121 | moves the end of the buffer up over itself inside the array: all bytes before and behind the gap are kept in order |
| `DynBufs.DynBuf.Write` | cutils.c:125-135 | stores bytes over others and keeps the rest |
| `Histories.History.Previous` | cli-term.c:141-159 | the ring shows the next older line of a list of lines, newest first, or nothing at its end |
| `Histories.History.Next` | cli-term.c:161-184 | one line newer, the empty line in front of the newest |
| `Histories.History.Add` | cli-term.c:186-214 | in the ring as in the list: a new line goes in front and the oldest of 32 is dropped; empty lines and repetitions of the newest are not stored |
| `Histories.RecentLines` | cli-term.c:186-214 | of non-empty lines entered one behind the other, no two neighbours equal, the last 31 are there, newest first |
| `Screens.TypeShows` | cli-term.c:458-599 | printing text over a row displays the new text there and leaves the other columns |
| `Screens.PrintShows` | cli-term.c:288-291 | prompt and line are all the row displays if and only if the output before them cleared the row |
| `Terminals.Terminal.constructor` | cli-term.c:368-430 | on any tree with printable keys the first prompt is displayed on its own row |
| `Terminals.Terminal.BackwardChar` | cli-term.c:450-456 | cursor one left; the row stays in step |
| `Terminals.Terminal.ForwardChar` | cli-term.c:458-464 | cursor one right; the row stays in step |
| `Terminals.Terminal.DeleteBackwardChar` | cli-term.c:466-489 | removes the character before the cursor; the row stays in step |
| `Terminals.Terminal.DeleteChar` | cli-term.c:491-510 | removes the character at the cursor; the row stays in step |
| `Terminals.Terminal.SelfInsert` | cli-term.c:512-539 | inserts a character unless the buffer is full; the row stays in step |
| `Terminals.Terminal.StoreChar` | cli-term.c:521-529 | the character is at the old cursor, everything behind it moved by one, and the buffer stays terminated |
| `Terminals.Terminal.ShiftLeft` | cli-term.c:474-479 | one character less, everything behind it moved by one, and the buffer stays terminated |
| `Terminals.Terminal.RedrawTail` | cli-term.c:481-486 | printing the tail, a blank and going back makes the row agree with the shortened line |
| `Terminals.Terminal.ExecuteCommand` | cli-term.c:541-553 | the outcome is that of the line in the tree; the history takes the line and a new one starts; the row shows the new prompt in every case in which no handler is called, and otherwise if and only if the output of the handler cleared it |
| `Terminals.Terminal.DescribeCommand` | cli-term.c:644-681 | prints exactly the help on the line in the tree and keeps the line; the row is in step whatever the help is |
| `Terminals.Terminal.PromptAfter` | cli-term.c:572-576 | prompt and line behind other output; all the row displays if and only if that output cleared the row |
| `Terminals.Terminal.CompleteCommand` | cli-term.c:601-642 | on any tree: the new line for each answer, the completed word in place of the last one, with a space behind an only key, clipped at capacity, or the line as it was; the old line is a prefix of the new one and the row stays in step |
| `Listings.ColumnsShow` | cli-term.c:627-634 | every listed key is displayed, with the keys before it on its row, at a column of its own |
| `Listings.ShortColumns` | cli-term.c:629-633 | that column is 16 times its place among the five of the row when no key is longer than 16 |
| `Listings.HelpRowShows` | cli-term.c:658-671 | every key of the help is displayed two columns in on a row of its own, and all descriptions start at one column, behind the widest key |
| `Listings.HelpClears` | cli-term.c:650-676 | help of any kind leaves the row blank |
| `Listings.ErrorClears` | cli-tree.c:973-998 | so does what is printed for a line that calls no handler |
| `Listings.OpenRow` | cli-tree.c:984-986 | a handler that prints one character does not |
| `Terminals.Terminal.InsertWordOverwrite` | cli-term.c:586-599 | replaces the rest of the line by as much of a word as fits |
| `Terminals.Terminal.BeginningOfLine` | cli-term.c:683-687 | cursor to the start, line kept |
| `Terminals.Terminal.EndOfLine` | cli-term.c:689-693 | cursor to the end, line kept |
| `Terminals.Terminal.KillLine` | cli-term.c:695-711 | drops the rest of the line and blanks it on the row |
| `Terminals.Terminal.KillLineFromBeginning` | cli-term.c:713-717 | empties line and row |
| `Terminals.Terminal.BackwardWord` | cli-term.c:719-730 | cursor over spaces and then over a word |
| `Terminals.Terminal.ForwardWord` | cli-term.c:732-741 | cursor over spaces and then over a word; `Keystrokes.WordRightIs` says where that is |
| `Terminals.Terminal.BackwardKillWord` | cli-term.c:743-752 | removes exactly what moving back by a word passes over |
| `Terminals.Terminal.ForwardKillWord` | cli-term.c:754-763 | removes exactly what moving forward by a word passes over |
| `Terminals.Terminal.HistoryPrint` | cli-term.c:765-777 | replaces line and row by a remembered line |
| `Terminals.Terminal.PreviousLine` | cli-term.c:790-799 | shows the line before in the history, if any |
| `Terminals.Terminal.NextLine` | cli-term.c:779-788 | shows the line after in the history, if any |
| `Terminals.Terminal.Read` | cli-term.c:801-870 | every key in every escape state: line, escape state and history are a function of what they were, the one that says what each key means; 0 <= cp <= len < max and the terminator are kept; and the row is in step unless the key called a handler that did not clear it |
| `Terminals.Terminal.ReadNormal` | cli-term.c:835-868 | control keys and printable characters |
| `Terminals.Terminal.ReadMeta` | cli-term.c:817-834 | keys after escape |
| `Terminals.Terminal.ReadAnsi` | cli-term.c:803-816 | cursor keys |
| `Keystrokes.WordRightIs` | cli-term.c:732-741 | from behind any text, over any spaces and over the word behind them, and no further |
| `Keystrokes.WordLeftIs` | cli-term.c:719-730 | the mirror image: back over spaces and then over a word to its first character |
| `Keystrokes.SplitRight` | cli-term.c:732-741 | behind every cursor the text has that form |
| `Keystrokes.SplitLeft` | cli-term.c:719-730 | and before every cursor |
| `Keystrokes.ForwardKeys` | cli-term.c:817-867 | M-f goes behind the next word; M-d and Ctrl-W take it together with the spaces in front of it |
| `Keystrokes.BackwardKeys` | cli-term.c:817-834 | M-b goes to the start of the last word; M-DEL takes it together with the spaces behind it |
| `Keystrokes.CursorKeys` | cli-term.c:803-847 | Ctrl-A, Ctrl-E, Ctrl-B, Ctrl-F and the arrows left and right, by the text before and behind the cursor |
| `Keystrokes.KillKeys` | cli-term.c:835-856 | Ctrl-K, Ctrl-U, backspace and Ctrl-D, by the text before and behind the cursor |
| `Keystrokes.TypeKey` | cli-term.c:866-867 | a printable character goes in at the cursor unless the line is full |
| `Keystrokes.HistoryKeys` | cli-term.c:803-816 | the arrows up and down do what Ctrl-P and Ctrl-N do |
| `Keystrokes.RecallTwo` | cli-term.c:779-799 | of two lines entered one behind the other Ctrl-P shows the newer and then the older, and Ctrl-N goes forward again to the empty line |
| `Keystrokes.TabKey` | cli-term.c:601-642 | Tab replaces what stands behind the last space by the only key that starts with it and a space, or by what all such keys have in common, as far as the line has room; the keys are those behind the words before |
| `Terminals.Terminal.Session` | cli-term.c:432-437 | the same over every sequence of keys |
| `Terminals.PressOk` | cli-term.c:801-870 | no key makes a line that does not fit or is not printable |
| `Terminals.TypeText` | cli-term.c:512-539 | printable text without a question mark, typed key by key, is what the line then holds |
| `Terminals.RecallLine` | cli-term.c:541-553 | a line that is typed and entered is brought back by the key for the previous line |
| `Terminals.GoBack` | cli-term.c:790-799 | going back k lines shows the line entered k lines ago |
| `Terminals.GoForth` | cli-term.c:779-788 | going forward again shows the lines in between and at last the empty one |
| `CommandTrees.NextKey` | cli-tree.c:94-117 | the next word of a line and what is left; a bar takes the rest |
| `CommandTrees.LineArgs` | cli-tree.c:761-808 | all words of a line |
| `CommandTrees.FindBestNode` | cli-tree.c:646-677 | the strongest match among all tokens of all siblings, and the first of equally strong ones; none exactly when nothing matches |
| `CommandTrees.Preference` | cli-tree.c:633-677 | a word goes to the first literal it spells, else to the first vararg, else to the first variable or option, and to nothing only when all are other literals |
| `CommandParsers.NextHelp` | cli-tree.c:119-137 | the next line of the help and what is left |
| `CommandParsers.HelpsOfLines` | cli-tree.c:119-137 | help written line by line is read back line by line |
| `CommandStates.FindNode` | cli-tree.c:139-191 | the first child that shares a token with a group of tokens, and how many it has; one token is found by name in any child |
| `CommandPlaces.Inserted` | cli-tree.c:207-220 | a new node is behind its siblings and every node, token and handler of the tree is where it was |
| `CommandParsers.Parser.ReadWord` | cli-tree.c:255-329 | enters a word with its line of help: the child of that name, or a new child or keyword, or one more token of a group; fails exactly without help |
| `CommandParsers.Parser.EndMultiple` | cli-tree.c:345-384 | the group becomes the child that has all its tokens, or a new one; fails exactly when it is empty or a child has some of them only |
| `CommandParsers.Parser.End` | cli-tree.c:430-443 | stores the handler where the command ends, and one node above behind a vararg |
| `CommandParsers.Parser.Advance` | cli-tree.c:456-482 | any token of a command line: the next stage, or failure exactly where the token is not allowed, with the tree unchanged |
| `CommandStates.NextExtends` | cli-tree.c:255-428 | every token keeps the parser sound, adds to the tree only nodes with typed tokens from the line, and gets on in the line or in its help |
| `CommandParts.NextParts` | cli-tree.c:255-428 | every token keeps the tree in step with the text: steps are children with all their words, alternatives of a block are keywords with their first value, unless a child has their name |
| `CommandParts.EndedHandles` | cli-tree.c:430-443 | the handler is stored where the parts of the line lead, and one node above behind a vararg |
| `CommandParsers.PlainParts` | cli-tree.c:255-329 | the parts of a line of words are its words |
| `CommandParsers.AddElem` | cli-tree.c:445-488 | any command line, with groups and blocks: ends, keeps every node, token and handler of the commands before but the handler where the new one ends, which is where the parts of its text lead; tokens stay typed and present and keys printable; a line of words is added word by word, and completely exactly when each has help; every token it adds has a name of the line with the line of help in the same place |
| `CommandHelps.NextInStep` | cli-tree.c:248-300 | along any command line as many lines of help are used as names are read, so each new token has its own |
| `CommandHelps.RootExplained` | cli-tree.c:221-300 | in a tree of one command every token has the line of help in its own place |
| `CommandParsers.PlainStep` | cli-tree.c:271-300 | entering one word leaves exactly the other words to be added |
| `CommandSearches.SearchBlock` | cli-tree.c:714-752 | one pass over a keyword block, with the pairs it stores |
| `CommandSearches.TakeWords` | cli-tree.c:692-710 | the words a node takes and which of them are arguments |
| `CommandSearches.Search` | cli-tree.c:679-759 | on any tree: node, arguments and keyword pairs of the search by best matches |
| `CommandSearches.SearchSound` | cli-tree.c:679-759 | on any tree the search only finds a node, arguments and pairs to which the words lead along matching tokens |
| `CommandSearches.SearchComplete` | cli-tree.c:679-759 | on clear trees, where words that match two siblings lead to the same, it finds every node, with its arguments and pairs, that words lead to |
| `CommandSearches.UnclearMisses` | cli-tree.c:646-677 | behind every node that is not clear there are words that lead to something the search misses |
| `CommandSearches.SearchExact` | cli-tree.c:679-759 | with blocks, variables and varargs: the search finds exactly what words lead to if and only if the tree is clear |
| `CommandSearches.SearchNeverGoesBack` | cli-tree.c:646-677 | a tree and a line on which the search fails although the words lead to a node |
| `CommandSearches.FoundBelow` | cli-tree.c:679-759 | what is found is a node of the tree |
| `CommandSearches.ExecuteWords` | cli-tree.c:978-987 | handler with its arguments, incomplete or unmatched, as the search says |
| `CommandSearches.ExecuteLine` | cli-tree.c:953-987 | the same for a line, whose command ends at the first bar |
| `CommandTrees.SpacedWords` | cli-tree.c:761-808 | words written with spaces between them are read back |
| `CommandTrees.LineConcat` | cli-tree.c:761-808 | behind a space words are read anew |
| `CommandSearches.SpacedExecutes` | cli-tree.c:953-987 | a line of words with spaces between them is executed as these words |
| `CommandSearches.BarIgnored` | cli-tree.c:953-987 | what is behind a bar does not matter, and a bar cannot start a line |
| `CommandMaps.BestIsChild` | cli-tree.c:139-160 | among literal siblings the best match and the node an added command goes through are the same child |
| `CommandMaps.SearchWalks` | cli-tree.c:679-759 | on a literal tree the search is a walk along the words |
| `CommandMaps.AddKeeps` | cli-tree.c:207-220 | adding literal commands keeps siblings distinct |
| `CommandMaps.ExecuteAdd` | cli-tree.c:255-300 | adding a command changes the outcome of that command and of its prefixes that led nowhere before, and of nothing else |
| `CommandMaps.TreeIsMap` | cli-tree.c:139-300 | after any sequence of literal commands: executing words gives the handler last added for exactly them, incomplete exactly when they only begin an added command, unmatched otherwise |
| `CommandMaps.BuildTree` | cli-tree.c:1401-1420 | the tree of any list of command lines has typed tokens at every node, printable keys if the lines are printable, and is the tree of the map statement if they are literal |
| `CommandMaps.SpelledFollows` | cli-tree.c:679-759 | every line spelled by the text of a command of any form, with the keywords of its blocks in any order and any number of times, leads to where its handler is stored, if no child has the name of a keyword beside it; the pairs found are those the text gives, and so are the arguments exactly when no literal of the command sits in a group of another one |
| `CommandMaps.AddedRuns` | cli-tree.c:978-987 | and on a clear tree executing such a line calls that handler with these pairs and, under exactly that condition, these arguments |
| `CommandMaps.BareRuns` | cli-tree.c:430-443 | behind a vararg so does every line that leaves it out |
| `CommandMaps.SharedLiteral` | cli-tree.c:692-699 | a literal that sits in a group of another command becomes an argument, which its own text does not make it |
| `CommandMaps.WordKinds` | cli-tree.c:221-237 | a second word with a dot in front takes any words, with a bracket or a capital any one word, and any other only itself |
| `Completions.OfferedExact` | cli-tree.c:1111-1121 | the keys on offer are exactly the child and keyword tokens that start with the typed word |
| `Completions.TokenCount` | cli-tree.c:611-624 | counts exactly the keys that are then collected |
| `Completions.CollectKeys` | cli-tree.c:1111-1121 | collects them in order, with their descriptions |
| `Completions.GetComplete` | cli-tree.c:1089-1137 | no key, the only key, a strictly longer common prefix, or the list when the word already is the longest common prefix |
| `Completions.Complete` | cli-tree.c:1139-1186 | on any tree: completes the last word against the node its finished words lead to |
| `Completions.OneAnswer` | cli-tree.c:1089-1137 | there is only one right answer for the keys on offer |
| `Descriptions.Describe` | cli-tree.c:1250-1309 | on any tree: the tokens that can follow with their descriptions, and whether the line is complete; unknown exactly when its finished words lead nowhere or nothing starts with the last |
| `Descriptions.GetDesc` | cli-tree.c:1208-1248 | keys and descriptions of exactly the tokens that start with the word |
| `Descriptions.HelpTopics` | cli-tree.c:1250-1309 | read off the text: the tokens behind the words before the last space that start with what is behind it, and no help exactly when there are none |
| `Descriptions.CrFinished` | cli-tree.c:1272-1272 | behind a finished line <cr> is offered exactly when Enter would call a handler |
| `Descriptions.CrUnfinished` | cli-tree.c:1276-1284 | behind an unfinished word exactly when it is one of the keys and the line without it would call a handler, or the root has one |
| `Completions.Lcd` | cli-tree.c:1059-1087 | the minimum over neighbours is the longest common prefix of all keys |
| `Completions.PairPrefix` | cli-tree.c:1072-1076 | the length of the common prefix of two keys, and no more |
| `Completions.LastWordIsPure` | cli-term.c:578-584 | on a printable line without a bar the word that is completed is what the cursor steps back over |
| `Completions.OverwriteExtends` | cli-term.c:586-599 | writing a key that starts with the last word over it keeps the line as a prefix, however much of the key fits |
| `Streams.Stream.Put` | stream.c:49-120 | appends all bytes, or fails exactly when the needed nodes cannot be allocated and then changes nothing; allocates exactly the nodes needed |
| `Streams.Stream.Consume` | stream.c:206-235 | drops exactly the requested prefix, freeing used-up nodes |
| `Streams.Stream.Get` | stream.c:242-274 | returns the prefix and leaves the rest |
| `Streams.Stream.Peek` | stream.c:256-269 | copies the prefix across nodes |
| `Streams.Stream.Fill` | stream.c:101-117 | spreads the bytes over the last node and the new ones, every node full before the next is used |
| `Streams.Stream.Attach` | stream.c:94-98 | links new nodes behind the last one without changing the contents |
| `Streams.Stream.Take` | stream.c:216-231 | takes bytes off the first node and unlinks it exactly when it is used up |
| `Streams.BlockCountExact` | stream.c:60 | the wrapping 64-bit formula gives the number of blocks needed, also when the request is smaller than the room left |
| `Streams.NeededExact` | stream.c:60 | one block fewer would not hold the bytes |
| `Streams.Allocate` | stream.c:68-92 | a chain of empty nodes of the requested length, or none |
| `HashTables.HashTable.constructor` | hashtable.c:125-158 | an empty table, for a positive number of buckets |
| `HashTables.HashTable.Get` | hashtable.c:160-180 | the value of the key in the map; the empty-bucket shortcut is sound because bucket counts are never below chain lengths |
| `HashTables.HashTable.Set` | hashtable.c:209-246 | changes the map at keys that compare equal and nowhere else, and the count stays within 80 percent of the buckets |
| `HashTables.HashTable.SetElem` | hashtable.c:219-230 | the new value of an element already there |
| `HashTables.HashTable.AddElem` | hashtable.c:232-240 | a new element at the end of its chain |
| `HashTables.HashTable.Grow` | hashtable.c:182-207 | rehashing into twice the buckets keeps every binding |
| `HashTables.HashTable.Delete` | hashtable.c:268-290 | removes the binding and no other |
| `HashTables.HashTable.Clear` | hashtable.c:306-324 | empties the map; per-bucket counts keep their stale values |
| `HashTables.RehashOne` | hashtable.c:189-202 | moving one element keeps the map of what has been moved so far |
| `KeyPairs.KeyPairs.Get` | str-kpairs.c:27-44 | the offset of the value of a key, or nothing exactly when no pair before the first empty key has it |
| `KeyPairs.KeyPairs.Set` | str-kpairs.c:46-89 | replaces the value in place or appends the pair, all other pairs byte for byte the same; fails exactly when key and value bytes with terminators would exceed the buffer, and then changes nothing |
| `KeyPairs.KeyPairs.Replace` | str-kpairs.c:51-75 | a new value of any length in place of the old one |
| `KeyPairs.KeyPairs.Append` | str-kpairs.c:76-87 | the pair behind all others |
| `KeyPairs.KeyPairs.Delete` | str-kpairs.c:91-108 | removes the pair and closes the gap, keeping order and all other pairs |
| `KeyPairs.LookupUpdate` | str-kpairs.c:46-89 | setting a key changes what a search finds at that key only, and there only if the key is settable |
| `KeyPairs.SetThenGet` | str-kpairs.c:27-89 | a value just set is found again if and only if the key had one before, or the key is not empty and no empty key is stored |
| `KeyPairs.EmptyKeyHides` | str-kpairs.c:32-33 | after an empty key is stored a new key takes up space and is never found |
| `KeyPairs.LookupRemove` | str-kpairs.c:91-108 | deleting a key changes the map at that key only |
| `KeyPairs.Replaced` | str-kpairs.c:59-75 | moving the tail and copying the new value leaves exactly the old bytes around it, for shorter, equal and longer values |

## Left out

- Back-references, lookbehind, ignore-case, UTF-16, multi-line and sticky flags, named groups: the callers pass flags 0 on 8-bit input.
- Pattern text (escapes, class syntax, Annex B forms): the model starts from the tree of the pattern and follows the order of emission.
- The reset of groups before every iteration that the standard asks for: the code resets them once before the loop, and `Execute` states the captures of that rule.
- Repetition counts that saturate at INT32_MAX in the text of a pattern.
- Execute: asks for a program below 2 GB and for a line on which it does not run for ever, because a method here has to end; `HaltsExactly` makes that the exact condition.
- Compile: does not model allocation failure, nor the text of the three errors.
- Realloc: allocation always succeeds.
- ExecTest: operands are decoded by a function of the bytes instead of by moving the pc through them.
- PushState: the saved states are a sequence of records; the growth of their array by half is not modelled.
- EndlessHalts: is about a lazy loop in front of a class that matches nothing, where the condition can be said of the language alone; `RunHalts` covers all patterns.
- Op: the target range is empty at the start, as in all callers; reallocation failure is not modelled.
- UnionInterval: asks for c2 below UINT32_MAX, where the end point c2 + 1 would wrap to 0.
- Expand: asks for a table that ends below 2^32, where the code would wrap.
- The Unicode data tables themselves, case conversion and normalisation: tables are arbitrary inputs.
- Element sizes and the exchange functions chosen by alignment in the sort: elements are values that are swapped whole.
- Sort: depth is bounded as in the code; the number of comparisons is not stated.
- AddElem: of the command parser gives a command that ends at the root an answer of its own, where the code reads a token the root does not have; the tree is a value that is rebuilt along the path of an addition, and sharing and freeing of nodes is not modelled.
- SearchExact: asks for a token at every node, which every tree that is built has; on trees that are not clear only `SearchSound` holds.
- AddedRuns: states the arguments under the condition that no literal of the command sits in a group of another one, and asks that no child on the way has the name of a keyword beside it, since such a keyword is taken for the child and not added.
- Search: the arguments are a sequence of any length, not an array.
- ExecuteLine: the part of a line behind a bar, the options of a command and its return value belong to the handler and are not modelled.
- TreeIsMap: is about literal commands; `AddedRuns` covers all others.
- Terminals and completion ask for printable keys in the tree, which `BuildTree` gives for printable command lines.
- HelpRowShows: asks for a printable description, where others would move the cursor.
- Line wrapping on the terminal, telnet negotiation, the event loop and flushing.
- Put: of a stream asks for fewer than 2^64 - 4095 bytes, where the block count would wrap.
- HashTable: chains are sequences of elements in an array of buckets; keys may be compared by any equivalence that hashes alike. A table of zero buckets is excluded.
- StrCpy: a source string inside the buffer is not modelled.
- stream_flush, stream_iovec, cmd_pipe, heap.c, range.c, vector.c, calc, mdio, cpuid: input and output, generated parsers or small wrappers that would only add easy members.
