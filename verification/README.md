# Verified model of the exact-match engine

This project models the license scanner's exact-match engine in Dafny and proves what its parts promise each other.

* **Token automaton.** Patterns are sorted into a trie, given failure and output links, and renumbered breadth-first.
  A ghost map sends every node to the token string it spells; links, edges and outputs are specified through it, and
  the search is proved to list exactly the patterns that end at each position.
* **Concurrent link builder.** The links are computed again from the stored trie, level by level, by workers that
  share the arrays. Every worker is a machine whose steps make at most one access to the shared cells; the result is
  the same for every schedule and every way of cutting a level.
* **Compact storage.** A bitmap-and-rank table for links and heads, 24-bit node numbers, and edge offsets rebuilt from
  exceptional nodes; and the corpus stream, which stores everything but the links.
* **Matching.** Occurrences of rules, the whole-input hash lookup, omitted words, the five-stage filter over sorted
  intervals, and the byte ranges of matched tokens.
* **SPDX tags, grouping and results.** The tag sweep, the grouping of matches by expression, continued texts, and one
  method from input bytes to the ordered result, with soundness and completeness of every match in it.
* **Reports.** The worker pool, and the fold of its outcomes into a report.

Modules follow the source files. Code that changes state step by step is a method with loops on arrays or fields,
proved against functions on values; `Automaton` and `MatchEngine` are classes. Pure code is functions and lemmas.

## Reading the model

* A pattern, rule or input is a `Word`, a sequence of token numbers of at most 2^32-1. No pattern begins with 2^32-1:
  the root table's length is its last token plus one in 32 bits (internal/aho/aho.go:520), which
  `AhoBuild.RootTableFits` shows to be the exact condition. `NONE` is the 32-bit sentinel.
* `Tries.TrieOk` ties flat edge arrays to the `Shape` of a trie: what each node spells, its parent, its incoming edge.
  `Tries.LinksOk` says what links must be: the longest proper suffix that the trie spells, and the longest that is a
  whole pattern. `Patterns.Hits` is the reference answer to a search.
* Sorting in the library is modelled by insertion into a sorted list; its result is proved sorted, a permutation and,
  where only equal elements tie, unique. Binary searches of the library are methods with their own loops.
* Machine words of the bitmap are modelled by the binary digits of a number, with every operation on them proved in
  terms of single bits.
* Overlap ratios are compared by integer cross-multiplication: a ratio of at least 0.9 reads `10 * overlap >= 9 * length`.
* What passes compute is stated a second time without their functions: `StreamFormat` on the stream's bytes, `SpdxVisits`
  and `SpdxOutcome` on tags and the result, `ReportContents` on the fields of outcomes, `TokenWords` on the words of the
  input, `OverlapFilter.Decided` on pairs of ranges. `Picking.Picks` says that a list holds what the chosen places give,
  each once and in order, which determines it (`Picking.PicksOnce`).
* The byte decoder, the vocabulary lookup, the rule hash and the SPDX parser are function parameters: results hold for
  every such function. Results about cut-out ranges assume of the decoder that widths stay inside the input and that a
  character reads the same in any cut that contains it (`Tokenize.Proper`, `Tokenize.Local`).
* Callbacks passed to the scanner are loops over the list of words that scanning yields.
* The link builder is specified for all arrays the readers accept, tries or not: `LinkCells.Settled` says what each
  node's cells must be, `LinkCells.Reached` which first nodes hang below the root, `LinkFold.Folded` what linking in edge
  order leads to, and `LinkTries` that on a trie this means the right links. `Automaton.Safe` is what any such arrays
  offer a search, and `Automaton.Valid` that they are a trie of patterns.
* Whether a license text goes on after its match (evidence.go:29-51) is a function parameter; so are the parser of tag
  expressions and whether a file is a root file.

Findings about the code:

* The edge-count readers check totals and padding only. They accept offsets that stop short of the last edge exactly
  when the last bit of the level-order string is set (`CorpusReader.OffsetsAccepted`, with a concrete stream in
  `CorpusReader.TrailingEdgeAccepted`); such a stream is turned away later, when its edge tokens are counted against
  its nodes (`CorpusReader.ReadDense`).
* A stream that is no trie can be accepted (`CorpusRoundTrip.TangledAccepted`), and then the links of nodes that cannot
  be reached from the root can depend on the number of workers (`LinkWorkers.WorkersDiffer`): one worker and several
  agree exactly when all nodes are reachable, or the root ends no pattern and none of its edges has the token of an edge
  beyond (`LinkWorkers.WorkersAgreeExactly`). No search shows it (`CorpusReader.WorkersSearchAlike`).
* A pattern that begins with the largest token passes validation but has no cell in the root table
  (`AhoBuild.LargestTokenAccepted`).
* The report depends on the order in which files arrive exactly when two files identify one expression differently
  (`ScanFold.OneReportExactly`).
* The result is in order even where the final sort of its matches is skipped (`ReportedOrder.PlacedInOrder`).
* Skipping the omitted-word filter when nothing was omitted and no strict rule has stopwords changes nothing
  (`Matching.DropSpanning`), and the first collection pass can never reach its own limit error
  (`Matcher.AddOutputs`).

## Model

| member | source | states |
|---|---|---|
| AhoSearch.ValuesEnding | internal/aho/aho.go:42-128 | Building from any pattern list whose first tokens leave room for the root table and stepping over any input lists exactly the values of the non-empty patterns that are suffixes of it, each once, longer first and larger values first among equal patterns; it fails exactly for unacceptable lists |
| AhoBuild.Build | internal/aho/aho.go:42-128 | Succeeds exactly for acceptable lists (value range, distinct values, no token zero, fewer tokens than node numbers); an error names a true reason; the result is a valid automaton for the sorted non-empty patterns, so no later pass can fail |
| AhoBuild.CheckPatterns | internal/aho/aho.go:43-68 | The validation loop accepts exactly the acceptable lists, keeps the non-empty patterns in order, and justifies each rejection |
| AhoBuild.RootTableFits | internal/aho/aho.go:516-526 | For the trie of any patterns, the root table, whose length is computed in 32 bits, has a cell for every root edge exactly when no pattern begins with the largest token; that token is harmless anywhere else |
| AhoBuild.LargestTokenAccepted | internal/aho/aho.go:43-68 | The validation loop accepts the one pattern that holds just the largest token, whose root table would have no cell |
| TrieRows.BuildRows | internal/aho/aho.go:81-109 | One node per distinct prefix, in lexicographic order, with parents before children; head chains list the values of each spelled pattern |
| TrieRows.AddPattern | internal/aho/aho.go:95-109 | Adding the next sorted pattern keeps all of that, sharing exactly the common prefix with the previous one |
| EdgeArrays.CompactEdges | internal/aho/aho.go:140-169 | The counting sort groups edges by parent in node order; it errs exactly when some siblings are not strictly sorted |
| EdgeArrays.EdgesMakeTrie | internal/aho/aho.go:140-169 | The grouped edges of sorted rows form a trie spelling the same strings |
| QueuePass.BuildFailures | internal/aho/aho.go:171-212 | The queue pass gives every node the failure and output link the trie requires |
| QueuePass.LinkChild | internal/aho/aho.go:183-208 | One child's cells become final from its parent's failure chain alone, leaving all other cells |
| BreadthFirst.VisitFinished | internal/aho/aho.go:454-501 | A finished breadth-first visit lists every node exactly once |
| BreadthFirst.ShallowerListed | internal/aho/aho.go:171-212 | Nodes spelling shorter strings are listed before longer ones |
| Renumber.RenumberedTrie | internal/aho/aho.go:454-501 | After renumbering, edge `e` leads to node `e+1` and the arrays are still the same trie |
| Renumber.RenumberedLinks | internal/aho/aho.go:480-501 | Copied and remapped links are the links the renumbered trie requires |
| AhoBuild.ReorderBreadthFirst | internal/aho/aho.go:454-505 | Renumbering and packing keep spelled strings, links, heads and patterns |
| Tries.SpellsDistinct | internal/aho/aho.go:454-501 | No two nodes of a trie spell the same string |
| Tries.LinksUnique | internal/aho/aho.go:171-212 | A trie and its heads determine all failure and output links |
| Tries.LinkRule | internal/aho/aho.go:204-208 | Taking the failure node if it has a head, else its link, gives the longest proper suffix that is a whole pattern |
| Suffixes.LongestStep | internal/aho/aho.go:528-543 | For a prefix-closed set, the longest member suffix after one more token depends only on the longest before |
| Suffixes.LongestThrough | internal/aho/aho.go:204-208 | The longest suffix in a subset is found through the longest suffix in the whole set |
| Outputs.HitsOfState | internal/aho/aho.go:614-623 | What ends after an input ends after its longest suffix that begins a pattern |
| Outputs.HitsExact | internal/aho/aho.go:614-623 | The reference answer holds exactly the values of non-empty patterns that are suffixes |
| Outputs.HitsOrdered | internal/aho/aho.go:614-623 | The reference answer lists longer patterns first, larger values first among equal ones, none twice |
| Automata.BuildRootTable | internal/aho/aho.go:516-526 | Entry `t` is the root's child under `t` or 0 for any rising root tokens, and tokens past the end have no root edge; the table is empty exactly without root edges |
| Automata.TableSpells | internal/aho/aho.go:516-526 | On a trie the root table finds exactly the one-token strings |
| Automata.DirectImplicitRange | internal/aho/aho.go:664-693 | The three-way lookup finds a token of a sorted range exactly when it is there |
| Automata.Automaton.DirectImplicit | internal/aho/aho.go:545-552 | For any safe arrays a lookup finds the node's edge under the token exactly when there is one; on a trie, exactly when it spells the extended string, and then that string's node |
| Automata.Automaton.Next | internal/aho/aho.go:528-543 | For any safe arrays a step ends, stays in range and goes where the first failure with an edge leads; on a trie, to the node spelling the longest suffix of the extended string that begins a pattern |
| StoredSearch.NextSpells | internal/aho/aho.go:528-543 | On a trie with its own links, where a step leads spells the longest suffix of the extended string |
| Automata.Automaton.AppendOutputs | internal/aho/aho.go:614-623 | For any safe arrays the walk ends and appends what the chain of links from the state reports, keeping what was there; on a trie of patterns, exactly the reference answer for the state's string |
| StoredSearch.OutputsAreHits | internal/aho/aho.go:614-623 | On a trie of patterns, following links and chains from a node reports the reference answer |
| Automata.Automaton.HasOutput | internal/aho/aho.go:626-637 | Whether a value is in what that walk reports; on a trie of patterns, in the reference answer |
| Automata.Automaton.CompactNodeIndexes | internal/aho/aho.go:554-564 | Packing happens exactly below the 24-bit limit and leaves all offsets, links and answers unchanged |
| Automata.Automaton.RootTable | internal/aho/aho.go:507-514 | Completes a linked automaton, changing only the root table |
| Automata.Automaton.DenseEdgeStarts | internal/aho/aho.go:566-571 | Edge offsets whichever way they are stored |
| LinkJobs.StepKeepsJob | internal/aho/aho.go:398-435 | Whatever its program point, a worker's own step keeps its job in order: finished children final, the rest untouched |
| LevelOrder.FirstLevel | internal/aho/aho.go:361-362 | On a trie, the level loop begins with the root's children |
| LevelOrder.NextLevel | internal/aho/aho.go:391 | After a round over the nodes of one depth comes a round over those of the next |
| LevelOrder.RoundIsDepth | internal/aho/aho.go:363-392 | A round of the level loop takes exactly the trie's nodes of its depth |
| LinkLevels.StepKeepsLevel | internal/aho/aho.go:348-390 | A step of any worker keeps the whole level in order, other workers' jobs included |
| LinkLevels.NoRace | internal/aho/aho.go:348-390 | Two workers of a level never access one cell at once unless both only read |
| LinkLevels.EveryRunKeepsLevel | internal/aho/aho.go:348-390 | Every interleaving of steps keeps the level in order and changes no cell outside the level's children |
| LinkLevels.StepShrinksWork | internal/aho/aho.go:398-435 | Every step of an unfinished worker brings it closer to the end |
| LinkLevels.ScheduleIndependent | internal/aho/aho.go:348-390 | Two complete runs over a level end with the same cells, however the level is cut and the workers scheduled |
| LinkBuilder.BuildFailureLinkRange | internal/aho/aho.go:398-435 | On any stored arrays the in-place loop leaves exactly the cells of linking the range's children one after another in the order of their edges, reachable or not |
| LinkFold.StagesProgress | internal/aho/aho.go:409-434 | Linking children in the order of their edges settles the reachable ones among them, whatever the arrays |
| LinkFold.StageFrame | internal/aho/aho.go:409-434 | Linking later children changes no cells but their own |
| LinkBuilder.DirectFailure | internal/aho/aho.go:437-452 | The root answers from its table and other nodes from their edges: the lookup finds the node's edge under the token exactly when there is one, for any stored arrays |
| LinkCells.ReachedMeans | internal/aho/aho.go:361-392 | The nodes the level loop gets to are closed under edges, and each of them but the root hangs below a smaller one |
| LinkCells.SettledUnique | internal/aho/aho.go:398-435 | Any arrays determine the settled cells of all reachable nodes: there is at most one choice |
| LinkTries.WalkSpells | internal/aho/aho.go:413-425 | On a trie, the chase along right failures ends at the longest proper suffix of the child's string that the trie spells |
| LinkTries.SettledIsLinked | internal/aho/aho.go:398-435 | On a trie whose root ends no pattern, settled cells are exactly the links the trie requires |
| LinkParallel.RunLevel | internal/aho/aho.go:361-390 | With the scheduler choosing freely among unfinished workers, the level ends with all its children final and everything else unchanged |
| LinkParallel.BuildLevels | internal/aho/aho.go:337-393 | All levels together settle every node reachable from the root and leave the others untouched, for any number of workers and any arrays |
| LinkParallel.BuildFailureLinksInto | internal/aho/aho.go:305-396 | Errs exactly on inconsistent lengths; otherwise, trie or not, every cell is determined: one worker links all children in edge order, several settle the reachable nodes and leave the others untouched; every failure is 0 or a smaller node, so no chain cycles |
| LinkWorkers.WorkersAgree | internal/aho/aho.go:320-396 | Two rebuilds of any arrays with any worker counts agree on every node reachable from the root |
| LinkWorkers.WorkersAgreeExactly | internal/aho/aho.go:320-396 | For any stored arrays, one worker and several rebuild the same cells if and only if all nodes are reachable, or the root ends no pattern and none of its edges has the token of an edge beyond the reachable nodes |
| LinkWorkers.SeveralAgree | internal/aho/aho.go:334-396 | All numbers of workers above one rebuild the same cells from any arrays |
| LinkWorkers.SomeRebuilt | internal/aho/aho.go:320-396 | For any arrays and any number of workers there are such cells |
| LinkWorkers.WorkersDiffer | internal/aho/aho.go:320-396 | Offsets 0, 1, 1, 2 with two equal tokens: whatever one worker rebuilds has failure 1 at node 2, its own parent there, and whatever several rebuild has 0 |
| CorpusRoundTrip.TangledAccepted | internal/corpus/format.go:860-934 | Some stream holding those offsets and tokens is accepted |
| LinkWorkers.RebuiltTrie | internal/aho/aho.go:305-396 | On a trie whose root ends no pattern, any worker count gives the links the trie requires |
| LinkParallel.RestoreCompact | internal/aho/aho.go:224-249 | Succeeds exactly when the lengths agree; the automaton holds the packed arrays with rebuilt links, and is valid when they are a trie of patterns |
| Sparse.NewSparseOutputs | internal/aho/sparse.go:21-36 | The table answers for every node what the dense arrays hold and stores no empty entry |
| Sparse.NewSparseTerminalHeads | internal/aho/sparse.go:39-58 | The table holds the given heads at the given nodes and nothing else |
| Sparse.WithOutputLinks | internal/aho/sparse.go:117-145 | New links at every node, every head kept |
| Sparse.LookupRank | internal/aho/sparse.go:95-108 | The stored rank plus the bits under the mask is the number of entries before the node, across word boundaries |
| Sparse.PopulateRanks | internal/aho/sparse.go:70-77 | Each word's rank counts the set bits before it |
| Sparse.Range | internal/aho/sparse.go:147-163 | Visits exactly the non-empty nodes, in order, with their entries |
| Sparse.PresentPicks | internal/aho/sparse.go:147-163 | These are the nodes with a link or a head, each once and in order |
| TerminalCodec.TerminalCount | internal/aho/sparse.go:84-93 | The number of stored entries that have a head |
| Packed.Set | internal/aho/packed.go:29-34 | Stores the low 24 bits of a number and leaves every other number alone |
| Packed.PackUint24 | internal/aho/packed.go:11-20 | Packing numbers below 2^24 keeps them all |
| Packed.Dense | internal/aho/packed.go:40-46 | Unpacks the stored numbers |
| Packed.NewCompactEdgeStartsFromCorrections | internal/aho/compact_edges.go:16-46 | Offsets are node plus the correction in force; succeeds exactly when nodes rise and all offsets are expressible |
| OutputChains.ValidateOutputChains | internal/aho/aho.go:744-766 | Reports a cyclic chain exactly when some chain does not reach its end; terminates |
| CorpusFormat.Validate | internal/aho/aho.go:695-741 | Accepts exactly the arrays with agreeing lengths, references in range, strictly sorted edges and chains that end |
| CorpusFormat.SearchableIsSound | internal/aho/aho.go:695-741 | No searchable automaton is turned away |
| Varint.UvarintRoundTrip | internal/corpus/format.go:485-493 | Every 64-bit integer is read back, consuming just its bytes |
| StreamFormat.UvarintBytes | internal/corpus/format.go:485-493 | An integer is written seven bits to a byte from the low end, the high bit set on all bytes but the last, in no more bytes than it needs |
| StreamFormat.UvarintRead | internal/corpus/format.go:1126-1135 | Reading succeeds exactly where at most ten such bytes stand, the tenth at most one, and gives the sum of their seven-bit groups and what follows |
| StreamFormat.ThreeHundred | internal/corpus/format.go:485-493 | 300 is stored as the bytes 172 and 2 |
| EdgeCounts.WriteEdgeCounts | internal/corpus/format.go:389-406 | Packs the level-order bits of the offsets with zero padding |
| EdgeCounts.ReadEdgeCounts | internal/corpus/format.go:1003-1034 | Gives exactly the offsets the bit string describes, or rejects it |
| EdgeCounts.ReadCompactEdgeStarts | internal/corpus/format.go:1036-1076 | Rejects exactly the streams the dense reader rejects and otherwise gives the same offset at every boundary |
| EdgeCounts.EdgeCountsRoundTrip | internal/corpus/format.go:389-406 | Any rising offsets from 0 to n-1 survive being written and read |
| StreamFormat.LevelBitsAre | internal/corpus/format.go:389-406 | Bit `v + e` is set for edge `e` of node `v` and clear at the end of each node but where the bits run out |
| CorpusReader.OffsetsAccepted | internal/corpus/format.go:1030-1032 | Accepted offsets rise from zero, and reach the last edge if and only if the last bit is clear |
| CorpusReader.TrailingEdgeAccepted | internal/corpus/format.go:1030-1032 | A stream of two nodes and one edge that no node owns is accepted |
| EdgeTokens.WriteEdgeTokens | internal/corpus/format.go:347-387 | Writes the narrowest width and all differences in edge order; WrittenBytes and WidthOfDeltas of StreamFormat say which bytes these are |
| EdgeTokens.ReadEdgeTokens | internal/corpus/format.go:959-1001 | Gives the tokens the differences add up to, or rejects a wrong width, a zero difference or a token past the limit; StreamFormat.EdgeTokensRead says from which bytes |
| EdgeTokens.DecodedTokensRise | internal/corpus/format.go:959-1001 | The tokens of any stream that decodes are positive, within the limit, and rise along each node's edges |
| EdgeTokens.EdgeTokensRoundTrip | internal/corpus/format.go:347-387 | Any per-node rising positive tokens survive being written and read, in two or four bytes |
| StreamFormat.WrittenBytes | internal/corpus/format.go:364-382 | Byte `i` of the difference of each edge is the difference divided by `256^i`, modulo 256, for both widths |
| StreamFormat.WidthOfDeltas | internal/corpus/format.go:348-363 | The width is 0 without edges, 16 bits when every difference is below 65536, and 32 bits otherwise |
| StreamFormat.EdgeTokensRead | internal/corpus/format.go:959-1001 | A section is accepted exactly when its width is allowed and, byte by byte, every edge has a positive number, low byte first, that leads from the token before to one within the limit; the tokens are those sums |
| StreamFormat.ShortToken | internal/corpus/format.go:983-989 | The bytes 16, 0x34, 0x12 for one edge are read as the token 0x1234 |
| TerminalCodec.WriteTerminalHeads | internal/corpus/format.go:408-430 | Writes the count and the gaps of exactly the nodes with a head |
| TerminalCodec.ReadTerminalHeads | internal/corpus/format.go:1078-1104 | Builds the table the pairs describe, or rejects gaps that are zero or too large |
| TerminalCodec.TerminalsRoundTrip | internal/corpus/format.go:408-430 | Any rising list of terminal nodes survives being written and read |
| TerminalCodec.TableOfTerminals | internal/corpus/format.go:1078-1104 | The table read back holds every head where it was |
| TerminalCodec.OptionalsRoundTrip | internal/corpus/format.go:432-437 | Any chain array survives being written and read |
| StreamFormat.TerminalsAre | internal/corpus/format.go:408-430 | Terminals are stored as their number, then for each the distance from the node before, counted from -1, and its head |
| StreamFormat.OptionalsAre | internal/corpus/format.go:432-437 | A chain end is stored as 0, any other value one larger |
| TerminalCodec.TerminalsPicks | internal/corpus/format.go:408-430 | The terminals are the nodes with a head, each once and in order |
| TerminalCodec.ReadOptionals | internal/corpus/format.go:1106-1124 | Reads exactly the values the stream holds or rejects it |
| CorpusFormat.WriteAutomaton | internal/corpus/format.go:324-345 | The stream is the encoding of the automaton's stored form, links left out |
| CorpusFormat.StoredRoundTrip | internal/corpus/format.go:324-345 | Decoding an encoding gives back the stored form and leaves the rest of the stream |
| StreamFormat.SmallStreamStored | internal/corpus/format.go:324-345 | Fourteen concrete bytes are the encoding of a trie of three nodes, section by section, and decode to it |
| CorpusReader.ReadDense | internal/corpus/format.go:860-934 | From any stream: accepts exactly those whose sections are well formed, whose tokens match the nodes and whose value chains end; the automaton holds the stored arrays with rebuilt links, and is valid whenever they are a trie |
| CorpusReader.ReadCompact | internal/corpus/format.go:860-921 | The same from any stream through packed arrays, with tokens of at most 16 bits |
| CorpusReader.LoadedIsSafe | internal/corpus/format.go:860-934 | Whatever an accepted stream describes, every step of a search on it stays in range and every walk over its failures, links and value chains ends |
| CorpusReader.WorkersSearchAlike | internal/aho/aho.go:528-543 | Whatever an accepted stream describes, every input leads to the same node with the same outputs, for any numbers of workers that rebuilt the links |
| CorpusRoundTrip.WrittenIsAccepted | internal/corpus/format.go:324-345 | What is written for a valid automaton is accepted, decodes to its stored form, and is a trie of its patterns again |
| CorpusRoundTrip.SaveAndLoad | internal/corpus/format.go:324-345 | Writing any valid automaton and reading it back restores every array and every link, though links are not stored |
| CorpusRoundTrip.SaveAndLoadCompact | internal/corpus/format.go:905-920 | The same numbers, tokens and links come back in packed arrays |
| CorpusRoundTrip.SameNext | internal/aho/aho.go:528-543 | Automata over one trie take the same steps from every state on every token |
| CorpusRoundTrip.SameLinks | internal/aho/aho.go:224-249 | Automata over one trie with the same heads have equal failures and output tables |
| EngineBuild.RebuildPatterns | internal/corpus/format.go:844-858 | Lists each non-empty rule under its number, and refuses exactly when the token total reaches the node limit |
| EngineBuild.NewMatchEngine | matcher.go:211-297 | With the automaton rebuilt from the rules: a valid engine exactly for usable rules |
| EngineStore.LoadMatchEngine | internal/corpus/format.go:860-934 | From any stream beside any rules: loaded exactly for accepted streams, then safe to search, and a valid engine when the stored automaton is that of the rules |
| EngineStore.SaveAndLoadEngine | matcher.go:211-297 | An engine saved and loaded again finds in every input what it found before |
| Matcher.BuildHashes | matcher.go:278-281 | Every non-empty rule is listed once under its hash, in order, and nothing else is |
| Occurrences.OccurrencesExact | matcher.go:533-569 | The collected triples are exactly the ranges whose tokens are some rule's tokens |
| Occurrences.OccurrencesOrdered | matcher.go:533-569 | They come in order of their ends, longer ones first, and none twice |
| Matcher.MatchEngine.CollectAhoMatches | matcher.go:533-569 | Returns all occurrences; fails exactly when there are more than a million; the switch to two passes changes nothing |
| Matcher.MatchEngine.CollectManyExactMatches | matcher.go:571-621 | The counting and the collecting pass give the same answer and the same failures |
| Matcher.AddOutputs | matcher.go:547-567 | Appends a position's candidates unless the threshold is reached, which always comes before the limit |
| Matcher.MatchEngine.HashMatches | matcher.go:631-651 | Returns exactly the rules whose tokens are the whole input, once each and in order, for every hash function |
| OmittedWords.MatchSpansOmittedWord | matcher.go:495-498 | One binary search decides whether an omitted word lies strictly inside the match |
| OmittedWords.StopwordsAlign | matcher.go:500-513 | Holds exactly when the stopwords strictly inside the match stand where the rule's do |
| OmittedWords.FilterOmittedSpanningMatches | matcher.go:469-493 | Compacts in place to exactly the survivors, in order |
| TokenWords.RangePositions | matcher.go:469-513 | The omitted words strictly inside a match are those its bytes hold when read on their own, counted from its first token |
| TokenWords.SurvivesInWords | matcher.go:469-513 | A match survives exactly when its rule allows the unknown words and stopwords of its bytes: a strict rule its own stopwords in their places and no unknown word, any other rule no unknown word unless it is a text or a notice of at least fifteen tokens |
| TokenWords.AnswersAllowed | matcher.go:380-464 | The rule of every reported match allows the omitted words its bytes hold |
| ContainedFilter.FilterContainedMatches | filter.go:141-168 | The one-pass sweep discards exactly the active ranges that an earlier active range reaches at least as far as, and nothing else changes |
| ContainedFilter.ContainedMeansContained | filter.go:141-168 | In filtering order that condition is containment, an equal range counting when it comes first |
| ContainedFilter.KeptContainer | filter.go:141-168 | Every discarded range lies inside one that was kept |
| OverlapFilter.RemovalMeaning | filter.go:265-302 | The six threshold tests come to: unless distant, the shorter goes, and of two equally long ones the later |
| OverlapFilter.FilterOverlappingMatches | filter.go:171-221 | The new states are the outcome of deciding every pair that meets: a range goes exactly when it gives way to a range still active, or is nine tenths covered by the one last kept before it together with a later one |
| OverlapFilter.ComparePair | filter.go:223-255 | In filtering order a comparison removes the later range exactly when it gives way, else the earlier exactly when it gives way or is covered by the kept predecessor and the later one together, else neither |
| OverlapFilter.OverlapsUnique | filter.go:171-221 | These decisions have only one outcome: rules, ranges and states on entry determine all states |
| OverlapFilter.ActiveAreDistant | filter.go:171-221 | Any two overlapping ranges left active that are not both false positives share less than 70% of the shorter, and less than 40% under one expression |
| OverlapFilter.NoneBridged | filter.go:245-254 | No range left active is nine tenths covered by the active range next before it and a later active one that are themselves apart |
| OverlapFilter.WhyDiscarded | filter.go:171-255 | A discarded range was active and gave way to an active range, or was covered by a range that stayed and a later one |
| FilterStates.OverlapCounts | filter.go:524-528 | The overlap of two ranges is the number of tokens they share |
| RestoreFilter.RestoreNonOverlapping | filter.go:305-340 | Reactivates exactly the discarded ranges that share no token with a range active on entry, and changes no other state |
| RestoreFilter.NextActiveMatchUnion | filter.go:342-377 | Gives the next maximal union of active ranges, holding exactly their tokens; later ones start beyond it |
| RestoreFilter.UnionDecides | filter.go:325-335 | One comparison with the current union decides the all-pairs test |
| FilterPipeline.SurvivorsRepresentAll | filter.go:56-138 | After the stages every candidate shares a token with a survivor, and with containment on survivors rise strictly in both ends |
| FilterPipeline.FilterExactMatches | filter.go:56-138 | The stages run in order on candidates sorted by start, longer first, then rule: containment, exact overlap decisions, false positives, and the restoring passes each say just what changes; the reportable survivors are reported in report order, rising strictly in both ends with containment on |
| FilterPipeline.ReportedInOrder | filter.go:540-553 | Reported ranges stand by start, then end, then the identifier of their rule |
| FilterPipeline.ActivePicks | filter.go:514-522 | What is reported is every active range, each once and in order |
| FilterPipeline.FoundOrderIrrelevant | filter.go:66-68 | The order in which candidates were found does not matter |
| FilterPipeline.FilterFalsePositiveMatches | filter.go:388-406 | Discards exactly the active false positives |
| LicenseLists.FilterLicenseListMatches | filter.go:409-458 | Compacts in place; below fifteen matches nothing changes, otherwise every maximal run of close candidates that is a list goes as a whole, and every other match stays, in order |
| LicenseLists.RunDecides | filter.go:441-455 | Runs do not overlap, so a match is dropped exactly when its own run is a list |
| LicenseLists.UnlistedRun | filter.go:421-433 | A run is kept whole or dropped whole |
| LicenseLists.FlushGroup | filter.go:421-433 | Moving a kept run down over the cells behind it loses no match and touches nothing after it |
| LicenseLists.GroupIsList | filter.go:469-500 | The binary searches decide length, distinct expressions and the share of words spanned |
| LicenseLists.MatchDistance | filter.go:480-506 | Counts the known words from one match to the next and every omitted word between them |
| LicenseLists.UnlistedPicks | filter.go:409-458 | What is left is every match in no dropped run, each once and in order |
| TokenWords.DistanceInWords | filter.go:480-506 | The distance of two matches is the number of words from the last word of one to the first of the next, whichever of the words between are known |
| TokenWords.SpanInWords | filter.go:491-512 | The span of a group is the number of words from its first to its last, both included |
| TokenWords.JoinedInWords | filter.go:436-467 | Neighbouring matches belong together exactly when both are short names of at most twenty tokens and the second begins at most ten words after the first ends |
| TokenWords.ListInWords | filter.go:421-478 | A group is a list exactly when it has fifteen matches of five expressions and reaches over at least half of the words of the input |
| TokenWords.ListInputOfWords | matcher.go:422-435 | The positions and the word count the lists are judged by are those of the words of the input |
| Tokenize.Scan | internal/tokenize/tokenize.go:299-331 | Yields the words of the input: disjoint, in order, holding every letter; each begins with a letter, holds letters and at most one plus sign, and ends only where neither goes on |
| Tokenize.WordsAreDisjoint | internal/tokenize/tokenize.go:299-331 | Words are non-empty, disjoint, in order and inside the input |
| Tokenize.WordsAreWords | internal/tokenize/tokenize.go:299-331 | A word runs from a letter over letters and at most one plus sign; behind it stands no letter, and a plus sign only if it holds one already |
| Tokenize.WordsDetermined | internal/tokenize/tokenize.go:299-331 | No other list of words meets those conditions, which speak of characters alone |
| Tokenize.ReadingsOfBytes | internal/tokenize/tokenize.go:299-342 | Below 128 just the digits and the letters of either case are letters, one byte each, and code 43 is the plus sign; from 128 on the decoder decides |
| Tokenize.CutWords | internal/tokenize/tokenize.go:299-331 | Cutting the input from one word to another leaves just the words between |
| Tokens.TokenizeIDs | internal/tokenize/tokenize.go:209-242 | Known tokens in order, for every omitted word the number of known tokens before it, and the span of the known words; TokensAreTold puts it in words of the input |
| TokenWords.TokensAreTold | internal/tokenize/tokenize.go:209-242 | Each list, place by place: the vocabulary numbers of the words that are known and no stopwords, and for the unknown words and the stopwords the number of known ones before |
| Tokens.KnownTokenOffsets | internal/tokenize/tokenize.go:261-284 | Recovers exactly the byte ranges of the known words from the two position lists |
| Tokens.NextWordOmitted | internal/tokenize/tokenize.go:271-281 | The two lists tell whether the next word is omitted although the order of unknown words and stopwords is lost |
| Tokens.TokenOffsets | internal/tokenize/tokenize.go:251-257 | All word ranges, which are the known ones when nothing is omitted |
| Tokens.RangeTokens | internal/tokenize/tokenize.go:209-242 | Tokenizing the bytes from one known token to another again gives just the known tokens between them |
| Matching.DropSpanning | matcher.go:380-386 | Keeps exactly the surviving candidates, also where the filter is skipped |
| Matching.Candidates | matcher.go:368-404 | Surviving whole-input matches exactly when every word is known and one survives, otherwise all surviving occurrences; fails if and only if the second case has more than a million occurrences |
| Matching.EveryCandidateAnswered | matcher.go:417-420 | Each candidate shares a token with a reported match, or with a survivor dropped as a false positive |
| Matching.DropLists | matcher.go:422-435 | Outside whole-input matches, with the false-positive filter on and enough matches, dense lists of license names go; otherwise every match stays |
| Matching.MatchRules | matcher.go:341-445 | Fails if and only if occurrences are looked for and exceed a million; every reported byte range reads, on its own, as exactly its rule's tokens, and the ranges are those of the filter's survivors without license lists |
| Grouping.AddExactMatches | matcher.go:712-798 | One detection per expression in order of first appearance, with the identification of its first match and all its matches in order; clues apart |
| Grouping.NothingLost | matcher.go:712-798 | No detection is empty, expressions are distinct, and every match that is no clue is in its expression's detection |
| Grouping.StatingPicks | matcher.go:778-796 | A detection holds every match stating its expression, each once and in order |
| Grouping.CluesPicks | matcher.go:773-776 | The clues are every match of a clue rule, each once and in order |
| Grouping.IdentifiedFirst | matcher.go:779-787 | An expression is identified as the first match that states it |
| RuleMatches.CopyIdentifiers | matcher.go:745-766 | Copying the identifier lists one after another into one array leaves each list whole in a slice of its own that no later copy touches |
| RuleMatches.MakeItems | matcher.go:692-775 | Every placed match carries its own rule, range, identifiers, relevance and method, the one category its flags name, and its expression with identification, read back after all lists were copied |
| RuleMatches.ItemIsItem | matcher.go:688-711 | Those properties determine the reported match |
| RuleMatches.KindNamed | matcher.go:800-824 | A match has the category its flags name if they name exactly one, and no known category otherwise |
| RuleMatches.DowngradeContinuedText | evidence.go:5-26 | Exactly the license texts that continue leave their detections, which go when empty, and follow the clues as clues |
| RuleMatches.DowngradedPicks | evidence.go:5-26 | The new clues are just the texts that continue, each once and in order |
| ResultOrder.SortResult | matcher.go:914-946 | Detections stand by first match and expression, none lost or doubled; when the result changed, all matches and clues are put in order as well, each kept with its multiplicity |
| ResultOrder.AppendOrderIrrelevant | spdx.go:202-205 | The map order in which pending expressions were appended does not show in the sorted result |
| ResultOrder.SortedResult | matcher.go:914-946 | Read off the fields: matches and clues by start, end, rule identifier and method, detections by first start and expression |
| Strings.StringOrder | matcher.go:914-946 | The order of strings: one is a prefix, or the first character that differs is smaller |
| ReportedOrder.PlacedInOrder | matcher.go:418-464 | Placed matches are already in the order of a result, so it need not be sorted again when nothing was replaced |
| ReportedOrder.RemovedInOrder | spdx.go:250-264 | Removing matches from detections leaves the rest in that order |
| SpdxText.IndexSPDXAnchor | spdx.go:268-284 | The first place from an offset on where the letters SPDX begin, or none |
| SpdxText.NextSPDXTag | spdx.go:287-294 | The first tag from an offset on, or the end |
| SpdxText.TagIsAnchor | spdx.go:298-308 | Every tag begins at an anchor, so looking only at anchors misses none |
| SpdxText.ExpressionSpanWithin | spdx.go:318-348 | The expression up to the first line end or comment close within the limit, trimmed of blanks only, and whether it was cut off |
| SpdxText.TagsSpelled | spdx.go:298-308 | A tag is one of two spellings, letter by letter in either case, with its colon, and ends behind it |
| SpdxText.AnchorsSpelled | spdx.go:268-284 | An anchor is the four letters spdx in either case |
| SpdxText.EndsSpelled | spdx.go:325-345 | An expression ends at a line feed, a carriage return, `*/` or `-->`; blanks are the space and the tab |
| SpdxText.SpanOnce | spdx.go:318-348 | The text determines the trimmed expression and whether it was cut off |
| SpdxSweep.Advance | spdx.go:145-149 | The running end of the spans seen reaches the expression's end exactly when a single span covers it |
| SpdxSweep.SweepTags | spdx.go:119-187 | Ends; visits tags in order and apart; every tag is visited or lies inside one that was; records exactly what each visit calls for, which SpdxOutcome reads off the result |
| SpdxSweep.RecordedRises | spdx.go:119-187 | Declared and cut-off tags have disjoint increasing ranges |
| SpdxVisits.CompleteIsSwept | spdx.go:128-148 | Each visited tag lies behind the tag and expression visited before, and every other tag lies inside such a one |
| SpdxVisits.SweptOnce | spdx.go:128-148 | The text determines the visits: their places, expressions, and which were cut off |
| SpdxOutcome.RecordedMembers | spdx.go:145-187 | A visited tag is recorded as declared exactly when its expression is non-empty, normalizes, and is whole or spanned by a match; as a match exactly when it is declared and not spanned; as cut off exactly when neither whole nor spanned |
| SpdxOutcome.RecordedInOrder | spdx.go:119-187 | Declared tags and tag matches are listed in the order of the tags, none twice |
| SpdxResult.SpanContains | spdx.go:233-236 | The binary search decides whether an offset lies in some span |
| SpdxResult.SupersededBySPDX | spdx.go:219-230 | The binary searches decide exactly whether some declaration contains the match or some cut-off tag its start |
| SpdxOutcome.SupersededMeans | spdx.go:219-230 | A match goes exactly when some visited tag displaces it: a cut-off tag it starts in, or a declaring tag it lies in unless it spans that whole expression of a spanned tag |
| SpdxOutcome.SpanningMatchStays | spdx.go:219-230 | A detected match inside a tag that spans the whole expression and ends with it stays, whatever other tags say |
| SpdxResult.RemoveMatches | spdx.go:250-264 | Each expression keeps exactly its matches that are not superseded, and no empty detection stays |
| SpdxResult.MergePending | spdx.go:196-205 | Each expression's tag matches follow its own, whatever order the pending map yields |
| SpdxMatch.MatchSpans | spdx.go:239-248 | A span of the list covers a range exactly when some detected match does |
| SpdxMatch.MatchSPDXTags | spdx.go:119-206 | Per expression, the matches no declaration replaces and then its uncovered tags with their identifiers and identification; cut-off tags become clues; declarations are appended; TagsAreDecided says for every tag and match what becomes of it |
| SpdxOutcome.TagsAreDecided | spdx.go:119-206 | On the result alone: a tag match stands under an expression if and only if a visited tag declares it and no match spans that tag; a rule match stays if and only if no tag displaces it; a tag is listed as declared if and only if it declares; clues likewise for cut-off tags |
| SpdxOutcome.TagsShownOnce | spdx.go:119-206 | No tag is shown twice |
| SpdxOutcome.TagsIdentified | spdx.go:176-205 | A detection keeps its identification while a rule match is left in it, and else has that of the first tag showing its expression |
| MatchInput.MatchBytes | matcher.go:341-464 | From bytes to the result through every stage; it fails if and only if occurrences are looked for and exceed a million, and every result is sound, accounts for each placed match and each tag of the input, holds only matches whose rules allow their omitted words, and is in order whether or not it was sorted again |
| MatchInput.ResultSound | matcher.go:341-464 | Detections are non-empty with distinct expressions, and each of their matches reads as the tokens of a rule stating that expression, with its identifiers, score and category, or is a visited tag that declares it; every clue is such a match, a text that continues, or a cut-off tag |
| MatchInput.NothingDropped | matcher.go:341-464 | Every placed match is in the detection of its expression, or among the clues if it is one or continues, unless a visited tag displaces it |
| MatchInput.TagsOfResult | matcher.go:436-464 | Every tag of the input is visited or inside a visited one and decided in the final result: shown once or not at all, listed, and displacing what it displaces |
| MatchInput.StoryAllowed | matcher.go:368-464 | Every placed match allows the omitted words of its bytes |
| ScanWorkers.StepKeepsAccount | scan.go:713-751 | Whichever worker runs, every task stays accounted for exactly once: sent, being scanned or queued |
| ScanWorkers.StepComesCloser | scan.go:713-751 | Every step uses up one of finitely many |
| ScanWorkers.StuckIsClosed | scan.go:713-751 | As long as the stream is open some worker or the closer can take a step: the pool never deadlocks |
| ScanWorkers.EveryRunSendsAll | scan.go:713-751 | For any number of workers a run has boundedly many steps, it cannot go on exactly when its stream is closed, and then one outcome per task was sent |
| ScanWorkers.ScanFiles | scan.go:713-755 | The outcomes, in arrival order, are a permutation of one outcome per task |
| ScanFold.AddExpressionRecords | scan.go:1315-1330 | Records count files and matches per expression, remember the root, and keep the identification stated first |
| ScanFold.FoldOutcomes | scan.go:348-430 | Counters, lists and records add up all outcomes with what discovery found, records keep their bytes' hash, encoding, text and coverage, and lists are sorted; ReportContents.ReportTells reads it off the outcomes' fields |
| ReportContents.ReportTells | scan.go:348-430 | On the fields of outcomes alone: a file is listed, as often as it came, if and only if it has no error, is neither binary nor too large, was scanned, and has a detection, a clue or, with legal files, a role; which outcomes are errors and which are skips with which reason; what each counter counts; what each expression record sums up and who identified it first; and the order of every list |
| ScanFold.ReportOfAnyOrder | scan.go:348-430 | A report of outcomes in one order is a report of them in any other, given distinct paths and files that agree on identifications |
| ScanFold.ReportIndependentOfOrder | scan.go:348-430 | Two reports of the same outcomes in any two orders are equal, given distinct paths and files that agree on identifications |
| ScanFold.DisagreementShows | scan.go:1315-1330 | Two files that identify one expression differently give two orders of arrival with different reports |
| ScanFold.TwoFilesDisagree | scan.go:1315-1330 | Two concrete files whose report depends on the order they arrive in |
| ScanFold.OneReportExactly | scan.go:348-430 | Given distinct paths, the report is the same for every order of arrival if and only if all files that state an expression first identify it alike |
| ScanFold.ScanTasks | scan.go:342-430 | With any number of workers the report is that of some order of arrival, and the one of task order when files agree on identifications |
| TextCoverage.CoveredBytes | scan.go:1018-1065 | The merging sweep counts each input byte inside some text or notice match exactly once |
| TextCoverage.LicenseTextCoverage | scan.go:1018-1065 | The percentage is a hundred times the share of input bytes inside some text or notice match, each counted once, and is 100 exactly when all are; 0 for an empty input |
| Sorting.SortIsSortedPermutation | internal/aho/aho.go:69-79 | Sorting orders a list and keeps every element with its multiplicity |

## Left out

- LinkParallel.RestoreCompact: fills the failures as numbers and packs them afterwards, where the source writes the
  24-bit store cell by cell; that one packed write changes just its number is Packed.Set.
- AhoBuild.Build: a pattern that begins with token 2^32-1 is excluded; what the source does with the table that is then
  too short is not modelled.
- CorpusReader.ReadDense: a stream whose last root token is 2^32-1 is excluded, for the same reason.
- CorpusReader.ReadCompact: edge tokens are read with offsets unpacked first, where the source reads them through a
  packed view.
- CorpusFormat.WriteAutomaton: the order and framing of the other corpus sections (rules, strings, identifier maps) and
  write errors are not modelled.
- EngineStore.LoadMatchEngine: what matching finds with an automaton that is not the rules' own is not specified beyond
  that searching it is safe.
- LicenseLists.GroupIsList: the coverage ratio of at least one half is compared by integers.
- TextCoverage.LicenseTextCoverage: the percentage is a real number; rounding of floating-point division is left out.
- RuleMatches.MakeItems: the copied text of a match, which its range determines, and the constant coverage are left out.
- SpdxMatch.MatchSPDXTags: normalization of an expression is a function parameter, empty for a rejected one.
- ScanFold.FoldOutcomes: whether a file is a root file is a function parameter, and a file's matches come sorted.
- Cancellation, buffer reuse, slice capacities, compression and files are assumed away; only complete runs are modelled.
- Vocabulary construction, case folding, UTF-8 decoding and the character tables are function parameters.
- Path classification, directory walking, manifest licenses, block-boundary and continued-clause heuristics, and the
  command-line tools are single-branch policy or formatting.
- The memory model below the steps of the concurrent builder, each of which makes one access to a shared cell, is not
  modelled, nor is the size at which a level is worth splitting; neither affects the result.
