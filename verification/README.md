# symfind: a verified model

symfind walks a directory tree, parses the symbol tables of the libraries and object files it finds, stores them in a
compressed, trigram-indexed database and answers symbol queries from that database.  This project models the parts
where a fast or stateful form has to equal a simple meaning, and proves that it does.

* **Index and query** (`Trigrams`, `OpenAddressing`, `TrigramIndex`, `DatabaseFormat`, `DatabaseHeader`,
  `DatabaseStore`, `FileStore`, `DatabaseImage`, `DatabaseLayout`, `DatabaseReader`, `QueryScan`, `FileScanner`,
  `FormatLimits`, `Pipeline`, `FreeRun`).
  Names become posting lists, then a linearly probed power-of-two table, then packed records, then sections of
  a file written with writes that may be short or interrupted; the reader undoes all of it.
  `Pipeline.WalkAndBuild` and `Pipeline.FindSymbol` meet in `Pipeline.DatabaseOf`: a query on the database of a walk
  prints exactly what comparing every symbol of every file found would print, in the same order.
  `Pipeline.BuildThenFind` puts the two together for every walk that is small enough for the 32-bit format, a
  condition on the walk alone.  `FreeRun.RunAll` proves the same of the mode that uses no database, so the two modes
  agree.
* **Parallel build** (`SymbolTables`, `ParallelBuild`).  Workers are a system of interleaved steps.  Whatever the
  chunks, the thread count and the schedule, the merged table is that of one sequential pass, including the order of
  the names, which decides the symbol ids.
* **Extension matching** (`SuffixTheory`, `FiniteSets`, `TrieIndex`, `AutomatonStates`, `HashMapAutomaton`,
  `ArrayAutomaton`, `ReverseAutomaton`, `Extensions`).  Three Aho-Corasick automata and the backward matcher, each
  against substring and suffix occurrence, and against each other.
* **Mounts and paths** (`Mounts`, `MountField`, `MountLine`, `MountInfo`, `PathOrder`, `PathCursor`).  Memoised
  pruning, elimination of bind mounts, decoding of mountinfo lines, the directory order and the cursor into sorted
  lists. `MountInfo.ListingToBindMounts` goes from the escaped lines of a listing to the bind mounts in it.

Objects whose methods update fields are classes here, loops are loops with invariants, and each is proved against a
function of its inputs or of the old state.  What those functions mean is stated by the lemmas, down to bytes,
numbers, fields and positions: what a query prints (`Pipeline.ExpectedInOrder`), what the file holds
(`DatabaseLayout`), which names are taken (`Extensions.TakenName`), which mounts remain (`Mounts.VisibleInOrder`).
`Sequences` and `Bytes` hold what all components use of sequences and strings.

Results of the kind "this does not hold in general", each with its exact condition:

* The automata answer the substring question for every text if and only if no empty pattern was inserted
  (`SuffixTheory.CorrectIffNoEmptyPattern`, `ReverseAutomaton.ReverseCorrectIffNoEmptyExtension`).
* The backward automaton of an extension list misses no file that the production matcher accepts if and only if it
  accepts the extensions themselves (`Extensions.NothingMissedIffExtensionsAccepted`); in terms of strings, if the
  stem of every extension holds some extension of the list (`Extensions.NothingMissedIffStemsHold`).  For a list of
  one that means that the extension holds no separator and ends in neither a digit nor a dot
  (`Extensions.NothingMissedIffSuitable`).
* A query equals the scan exactly unless it is empty and a defined symbol with an empty name was stored
  (`QueryScan.QueryIsExactUnlessEmptyNameStored`); the parser skips such symbols, so over the databases of this code
  every query is exact.
* Reader and scanner agree on the path of a file if and only if its directory was stored with a trailing slash
  (`QueryScan.PathsAgreeIffSlashed`); the scanner always stores it so (`FileScanner.CollectFiles`).
* Octal decoding brings back every string if and only if blank and tab are escaped, and the backslash or all of the
  digits 0 to 3 (`MountField.EveryStringSurvivesIffEnoughEscaped`).
* The comments in the reader announce a comparison of each candidate with the query.  That comparison is commented out
  in the code, and the model follows the code.  Leaving it out lets no other name through exactly when the query is
  one byte and no letter (`QueryScan.CandidatesAreEqualIffOneNonLetter`, and up to case
  `QueryScan.CandidatesAreTheNameIffOneByte`); a candidate with another name yields an entry without references, so
  what is printed is still right.
* The automata accept only what the production matcher accepts exactly when there is nothing they could accept, for
  lists with and without an empty extension (`Extensions.ForwardAutomataExactIffNothingToMatch`,
  `Extensions.BackwardAutomatonExactIffNothingToMatch`).
* The search for a pruned ancestor returns for every id if and only if no unpruned chain of parents runs into itself
  (`Mounts.SearchReturnsIffAcyclic`); a mount that is its own parent, as mountinfo lists the root of a namespace, is
  such a chain (`Mounts.OwnParentNeverReturns`).
* The list of bind mounts is never filled as the code stands: the guard behind opening mountinfo
  (src/filesystem/BindMount.cpp:171) returns when the file was opened, not when it could not be
  (`MountInfo.BindMount.Rebuild`), so no directory is ever taken for a bind mount (`MountInfo.BindMount.IsBindMount`).
  The answers are right if and only if no bind mount is asked for (`MountInfo.NeverFilledIsRightIffNoneAsked`).  The
  code behind the guard is modelled and proved on its own.
* A lookup in a sorted list moves its cursor to the end of the list on a miss, which its documentation does not say.
  Used as documented, with questions in increasing order, its answers are right if and only if no listed path is asked
  for after one that is not listed (`PathCursor.CursorIsRightIffNoHitAfterMiss`).
* Bind-mount elimination leaves roots that lie apart if and only if the mount ids are distinct
  (`Mounts.ApartIffDistinctIds`).
* The doubling loop for the table size ends if and only if 2^63 slots are enough (`Trigrams.SomeCapacityIffLargest`).

## Model

| member | source | states |
|---|---|---|
| SuffixTheory.LongestStep | benchmark/extension_matching/aho_corasick.h:86-94 | the state after one more byte depends on the state before it only: longest-suffix computation is incremental |
| SuffixTheory.MissGoesToFail | benchmark/extension_matching/aho_corasick.h:62-66 | a missing transition may be answered from the failure state |
| SuffixTheory.FailOfChild | benchmark/extension_matching/aho_corasick.h:58-67 | the failure link of a child is reached from the failure state of its parent over the same byte |
| SuffixTheory.FlagMeansSuffix | benchmark/extension_matching/aho_corasick.h:69-71 | with no empty pattern, a propagated flag holds exactly when some pattern of its kind is a suffix of the state's label |
| SuffixTheory.LongestKeepsPatterns | benchmark/extension_matching/aho_corasick.h:81-105 | looking only at the longest suffix in the trie loses no pattern |
| SuffixTheory.AcceptsIsMatches | benchmark/extension_matching/aho_corasick.h:78-105 | what the scanning loops compute is "some mid pattern occurs or some end-anchored pattern is a suffix", given no empty pattern |
| SuffixTheory.MatchesCutsTheText | benchmark/extension_matching/aho_corasick.h:78-105 | the question itself: the text is something before a mid pattern, the pattern and something behind it, or something before an end-anchored pattern and the pattern |
| SuffixTheory.EmptyPatternTakesNothing | benchmark/extension_matching/aho_corasick.h:78-105 | an inserted empty pattern can add answers but takes none away |
| SuffixTheory.CorrectIffNoEmptyPattern | benchmark/extension_matching/aho_corasick.h:78-105 | that holds for every text if and only if no empty pattern was inserted |
| TrieIndex.ShallowStatesEnqueued | benchmark/extension_matching/aho_corasick.h:53-75 | when a state is dequeued, every state at its depth or above was enqueued before |
| TrieIndex.EverythingHandled | benchmark/extension_matching/aho_corasick.h:53-75 | an empty queue means every state was handled |
| AutomatonStates.ChildStep | benchmark/extension_matching/aho_corasick.h:58-74 | linking one child gives it its final failure link and flags and keeps the whole breadth-first invariant |
| HashMapAutomaton.AhoCorasickHashMap.BuildPath | benchmark/extension_matching/aho_corasick.h:108-126 | walking a pattern adds exactly its prefixes to the trie and ends in the state it labels |
| HashMapAutomaton.AhoCorasickHashMap.InsertEndAnchored | benchmark/extension_matching/aho_corasick.h:31-35 | the trie holds the prefixes of all patterns, now including this end-anchored one |
| HashMapAutomaton.AhoCorasickHashMap.InsertMid | benchmark/extension_matching/aho_corasick.h:37-41 | the same for a mid pattern |
| HashMapAutomaton.AhoCorasickHashMap.Goto | benchmark/extension_matching/aho_corasick.h:90-94 | failure hops end at the longest suffix in the trie, and every hop is paid for by lost depth |
| HashMapAutomaton.AhoCorasickHashMap.Build | benchmark/extension_matching/aho_corasick.h:43-76 | every failure link names the longest proper suffix in the trie, every flag is propagated, every non-root state is pushed exactly once |
| HashMapAutomaton.AhoCorasickHashMap.Scan | benchmark/extension_matching/aho_corasick.h:81-105 | the answer is substring or suffix occurrence of the patterns, with at most as many failure hops as bytes |
| ArrayAutomaton.FillStep | benchmark/extension_matching/aho_corasick.h:193-206 | completing one entry of a row keeps all finished rows longest-suffix rows and all others plain trie nodes |
| ArrayAutomaton.FailRowIsComplete | benchmark/extension_matching/aho_corasick.h:198-201 | the failure state of a dequeued state has a finished row already |
| ArrayAutomaton.AhoCorasickArray.BuildPath | benchmark/extension_matching/aho_corasick.h:231-249 | walking a pattern adds exactly its prefixes |
| ArrayAutomaton.AhoCorasickArray.InsertEndAnchored | benchmark/extension_matching/aho_corasick.h:166-169 | the trie holds the prefixes of all patterns, now including this end-anchored one |
| ArrayAutomaton.AhoCorasickArray.InsertMid | benchmark/extension_matching/aho_corasick.h:170-173 | the same for a mid pattern |
| ArrayAutomaton.AhoCorasickArray.Build | benchmark/extension_matching/aho_corasick.h:175-208 | the trie becomes a total automaton: from every state over every byte to the longest suffix in the original trie; every non-root state is pushed once |
| ArrayAutomaton.AhoCorasickArray.Scan | benchmark/extension_matching/aho_corasick.h:210-228 | the same answers as the hash-map automaton, hence substring or suffix occurrence |
| ReverseAutomaton.ContainsMirrored | benchmark/extension_matching/aho_corasick.h:287-306 | a reversed extension occurs in the reversed text exactly when the extension occurs in the text |
| ReverseAutomaton.ReverseAhoCorasickArray.Insert | benchmark/extension_matching/aho_corasick.h:288-306 | the automaton holds the reversed extensions |
| ReverseAutomaton.ReverseAhoCorasickArray.Build | benchmark/extension_matching/aho_corasick.h:308-340 | the reversed trie becomes a total automaton with propagated flags |
| ReverseAutomaton.ReverseAhoCorasickArray.Scan | benchmark/extension_matching/aho_corasick.h:352-387 | true exactly when an extension occurs between the last separator and the trailing run of digits and dots |
| ReverseAutomaton.ReverseCorrectIffNoEmptyExtension | benchmark/extension_matching/aho_corasick.h:352-387 | that holds for every file name if and only if no empty extension was inserted |
| Extensions.IteratorsAreTheSame | src/filesystem/FSUtils.cpp:102-123 | the backward comparison tests an occurrence of the extension at one position |
| Extensions.ForeignByteIsFinal | src/filesystem/FSUtils.cpp:153-161 | giving up at the rightmost dot-followed occurrence loses no later success |
| Extensions.FilenameHasExtension | src/filesystem/FSUtils.cpp:125-167 | true exactly when the extension stands somewhere after the first byte, at the end or before a dot and version bytes only |
| Extensions.NameWithExtension | src/filesystem/FSUtils.cpp:142-145 | every name of something in front and the extension at its end is taken |
| Extensions.NameWithVersion | src/filesystem/FSUtils.cpp:146-162 | so is every name that goes on with a dot and any digits and dots, such as libc.so.6 |
| Extensions.TakenName | src/filesystem/FSUtils.cpp:125-167 | and every name that is taken is put together in one of these two ways |
| Extensions.FilenameHasAnyOfExtensions | src/filesystem/FSUtils.cpp:169-174 | true exactly when one of the extensions is found so |
| Extensions.BuildMatcherHashMap | benchmark/extension_matching/aho_corasick.h:130-140 | the automaton of the extensions at the end and of the dotted extensions anywhere |
| Extensions.BuildMatcherArray | benchmark/extension_matching/aho_corasick.h:252-262 | the same for the array automaton |
| Extensions.BuildMatcherArrayReverse | benchmark/extension_matching/aho_corasick.h:390-399 | the backward automaton of the extensions |
| Extensions.ForwardAnswer | benchmark/extension_matching/aho_corasick.h:81-140 | for a list without an empty extension the forward automata answer whether some extension stands at the end of the name or anywhere in front of a dot |
| Extensions.StemOfName | benchmark/extension_matching/aho_corasick.h:352-387 | what the backward automaton looks at: the name without its trailing digits and dots, from the last separator on |
| Extensions.PartsOfName | benchmark/extension_matching/aho_corasick.h:352-387 | every name is put together so |
| Extensions.FoundBackward | benchmark/extension_matching/aho_corasick.h:352-399 | it takes every name that holds one of its extensions there |
| Extensions.OnlyFoundBackward | benchmark/extension_matching/aho_corasick.h:352-399 | and no other, for lists without an empty extension |
| Extensions.AcceptedByForwardAutomata | src/filesystem/FSUtils.cpp:125-173 | whatever the production matcher accepts, the forward automata accept |
| Extensions.AcceptedByReverseAutomaton | src/filesystem/FSUtils.cpp:125-173 | and the backward one, for extensions without separator that end in neither digit nor dot |
| Extensions.NothingMissedIffExtensionsAccepted | benchmark/extension_matching/aho_corasick.h:352-399 | for every list: the automaton built from it misses no file that the matcher accepts exactly when it accepts the extensions themselves |
| Extensions.NothingMissedIffStemsHold | benchmark/extension_matching/aho_corasick.h:352-399 | for a list without an empty extension: it misses nothing exactly when the stem of every extension holds some extension of the list |
| Extensions.NothingMissedIffSuitable | benchmark/extension_matching/aho_corasick.h:352-387 | for a list of one: exactly when the extension holds no separator and ends in neither digit nor dot |
| Extensions.ForwardAutomataExactIffNothingToMatch | benchmark/extension_matching/aho_corasick.h:81-105 | the converse, that the forward automata accept only what the matcher accepts, holds for every file name exactly when the extension list is empty; lists with an empty extension included |
| Extensions.BackwardAutomatonExactIffNothingToMatch | benchmark/extension_matching/aho_corasick.h:352-387 | for the backward automaton the converse holds exactly when it accepts nothing at all: every extension that is not empty holds a separator, and, if there is an empty one, every other byte ends some extension |
| Extensions.CompareMatchers | benchmark/extension_matching/main.cpp:17-73 | the four matchers side by side on every list: the forward automata always agree and accept what the production matcher accepts, and so does the backward one if it accepts the extensions themselves |
| Trigrams.ForEachTrigram | include/symfind/core/TrigramUtils.h:57-86 | emits the window codes of the padded, folded word, n + 2 of them, none for an empty word |
| Trigrams.CodesOfPadded | include/symfind/core/TrigramUtils.h:57-86 | the k-th code is the k-th window of three bytes of the lower-cased word with two zeros in front and behind, the first byte times 65536, the second times 256, the third |
| Trigrams.FoldedAlike | include/symfind/core/TrigramUtils.h:57-86 | two words fold alike exactly when they are equally long and differ at most by 32 between A to Z and a to z |
| Trigrams.TrigramsDetermineWord | include/symfind/core/TrigramUtils.h:57-86 | two words emit the same codes exactly when they are equal up to ASCII case |
| Trigrams.ShiftsAddUp | src/core/TrigramUtils.cpp:8-11 | on bytes, shifting and or-ing is positional addition, so codes are 24-bit and injective |
| Trigrams.EncodeTrigram | src/core/TrigramUtils.cpp:8-11 | no code reaches the sentinel of a free slot |
| Trigrams.EncodeIsInjective | src/core/TrigramUtils.cpp:8-11 | a code determines its three bytes |
| Trigrams.HomeSlot | src/core/TrigramUtils.cpp:24-32 | the top bits of the wrapped 64-bit product always name a slot of the table |
| Trigrams.HomeSlotIsTopBits | src/core/TrigramUtils.cpp:18-32 | the home slot is the product with the golden ratio constant modulo 2^64, divided by what the shift cuts off |
| Trigrams.ShiftedIsSmall | src/core/TrigramUtils.cpp:31 | shifting a word right by n places leaves n bits less |
| Trigrams.CapacityForCount | src/core/TrigramUtils.cpp:34-42 | for every 64-bit count for which there is one: the least power of two from 16 on whose load in double precision is at most 0.7; for codes of 24 bits, 16 or a capacity of which half would be too full; a slot stays free; at most 2^25 for 24-bit codes |
| Trigrams.SomeCapacityIffLargest | src/core/TrigramUtils.cpp:34-42 | there is one exactly when 2^63 is enough; otherwise the capacity wraps to zero and the loop never ends |
| Trigrams.DoubleGuardIsExact | src/core/TrigramUtils.cpp:37 | for counts below 2^53 and capacities up to 2^51 the comparison in double precision is that of ten times the count with seven times the capacity |
| Trigrams.ToDoubleIsNear | src/core/TrigramUtils.cpp:37 | converting a count to double precision moves it by less than the distance of neighbouring doubles |
| Trigrams.ToDoubleIsNearest | src/core/TrigramUtils.cpp:37 | it goes to the nearest multiple of that distance, and of two equally near ones to the even one |
| Trigrams.UlpLeaves53Bits | src/core/TrigramUtils.cpp:37 | the distance is one below 2^53 and else the power of two that leaves 53 bits |
| Trigrams.TrailingZerosOfPow2 | src/database/DatabaseReader.cpp:435-438 | the exponent of a power of two is recovered from it |
| Trigrams.MaskWraps | src/database/DatabaseBuilderUtils.cpp:350 | masking with capacity - 1 is the cyclic step |
| Trigrams.NextSlotIsCyclic | src/database/DatabaseBuilderUtils.cpp:350 | which is the next number modulo the capacity |
| Trigrams.SortUnique | src/core/Trigram.cpp:27-28 | strictly increasing, with the same members |
| Trigrams.IncreasingIsUnique | src/database/DatabaseBuilderUtils.cpp:327-329 | an increasing list is determined by its members, so sorting and deduplicating a posting list changes nothing |
| OpenAddressing.ProbeReaches | src/database/DatabaseBuilderUtils.cpp:347-351 | every slot lies on every probe path within one round |
| OpenAddressing.FindFree | src/database/DatabaseBuilderUtils.cpp:347-351 | the probe loop ends at the first free slot of the path |
| OpenAddressing.PlaceCode | src/database/DatabaseBuilderUtils.cpp:352-355 | filling it extends the table by the code and breaks no other code's path |
| OpenAddressing.NotFoundBeforeFree | src/database/DatabaseReader.cpp:451-458 | a free slot before the code proves the code absent |
| TrigramIndex.PostingsAreTheHolders | src/database/DatabaseBuilderUtils.cpp:312-317 | the posting list of a code lists exactly the ids of the names holding it |
| TrigramIndex.TrigramBuilder.AddWord | src/core/Trigram.cpp:18-36 | the id is appended once to the list of every code of the word and to no other; empty words are not counted |
| TrigramIndex.NonEmptyCountIs | src/core/Trigram.cpp:18-36 | the words counted are those with a byte |
| TrigramIndex.CollectPostings | src/database/DatabaseBuilderUtils.cpp:312-319 | the collected map holds the posting list of every code that occurs and nothing else |
| TrigramIndex.ListEntries | src/database/DatabaseBuilderUtils.cpp:321-332 | one entry per code in whatever order the hash map yields, and their total length |
| TrigramIndex.PostingTotalIsCount | src/database/DatabaseBuilderUtils.cpp:321-332 | the lists hold together one posting for every name and every distinct code of it |
| TrigramIndex.PostingCountIsSmall | include/symfind/core/TrigramUtils.h:57-86 | a name of n bytes costs at most n + 2 postings |
| TrigramIndex.Insert | src/database/DatabaseBuilderUtils.cpp:345-356 | one round of the insertion loop extends table and postings by one code |
| TrigramIndex.InsertAll | src/database/DatabaseBuilderUtils.cpp:342-356 | whatever the order of the entries, the result answers for exactly the collected map |
| TrigramIndex.FillTable | src/database/DatabaseBuilderUtils.cpp:334-356 | the table has the least power of two of slots that the load allows, holds the map, and keeps a slot free |
| SymbolTables.StoreOne | src/database/DatabaseBuilder.cpp:39-44 | storing one more symbol gives the table of one more event |
| SymbolTables.KeysInOrder | src/database/DatabaseBuilder.cpp:39-44 | the names of a table are all names stored, each once, in the order of their first callback |
| SymbolTables.RefsInOrder | src/database/DatabaseBuilder.cpp:39-44 | under a name stand the references of all its callbacks, in their order |
| SymbolTables.MergeFirstKeys | src/database/DatabaseBuilder.cpp:262-289 | merging appends the new names in their order and keeps the old ones |
| SymbolTables.MergeFirstRefs | src/database/DatabaseBuilder.cpp:262-289 | merging appends the references under every name |
| SymbolTables.MergeIsAppend | src/database/DatabaseBuilder.cpp:262-289 | merging two tables gives the table of one event sequence after the other |
| SymbolTables.EveryEventStoredOnce | src/database/DatabaseBuilder.cpp:39-44 | no symbol is lost and none is stored twice |
| ParallelBuild.ComputeFileIdChunks | include/symfind/utils/Threading.h:40-68 | with fewer than 2^32 files, consecutive chunks that together list every file once, larger ones first, each the whole quotient of files by threads or one more; in any case only files that are there |
| ParallelBuild.ProperThreadCount | include/symfind/utils/Threading.h:26-38 | unless the files per thread overflow 32 bits: no more threads than the hardware offers, at least twenty files for each of several threads, and fewer than the hardware offers only if one more would leave a thread with fewer than twenty files |
| ParallelBuild.PassInOrder | src/database/DatabaseBuilder.cpp:46-63 | a sequential pass reports every symbol of every file exactly once, file by file, in the order of the parser |
| ParallelBuild.StepKeepsInvariant | src/database/DatabaseBuilder.cpp:33-64 | every step of a worker keeps its table equal to that of the symbols it was given so far |
| ParallelBuild.RunsKeepTables | src/database/DatabaseBuilder.cpp:93-111 | in every state of every run this holds for every worker |
| ParallelBuild.RunsAreBounded | src/database/DatabaseBuilder.cpp:46-63 | every step uses up one unit of work, and no work is left exactly when all workers are done |
| ParallelBuild.MergeAllTables | src/database/DatabaseBuilder.cpp:262-289 | the merged tables are the table of the chunks one after the other |
| ParallelBuild.ParallelEqualsSequential | src/database/DatabaseBuilder.cpp:79-111 | for all chunkings, thread counts and schedules, the merged result of a finished run is the sequential table |
| ParallelBuild.LaunchThreads | src/database/DatabaseBuilder.cpp:67-112 | an arbitrary scheduler ends with the table of its chunk in every worker |
| ParallelBuild.DatabaseBuilder.MergeOne | src/database/DatabaseBuilder.cpp:266-288 | one table merged; exactly the first new names become dictionary samples |
| ParallelBuild.DatabaseBuilder.MergeSymtables | src/database/DatabaseBuilder.cpp:262-289 | all tables merged in thread order; the dictionary samples are the first names of the result |
| ParallelBuild.DatabaseBuilder.BuildTable | src/database/DatabaseBuilder.cpp:299-314 | the built table is the sequential one |
| Packing.FromLEOfLE | src/database/DatabaseBuilderUtils.cpp:12-17 | a number that fits its field is read back |
| Packing.UnpackOfPack | src/database/DatabaseBuilderUtils.cpp:12-17 | the fields of a packed record are read back |
| Packing.FlattenAt | src/database/DatabaseBuilderUtils.cpp:32-45 | rows tile their blob: each stands between two consecutive prefix sums |
| Packing.WideAt | src/database/DatabaseReader.cpp:100-101 | record i of a block stands at i times the record size |
| DatabaseFormat.FileRoundTrip | src/database/DatabaseReader.cpp:359-363 | a file record names the slice of the name blob that is the file's name, and its directory |
| DatabaseFormat.PathRoundTrip | src/database/DatabaseReader.cpp:366-372 | a path record names the slice of the blob that is the path |
| DatabaseFormat.SymbolRoundTrip | src/database/DatabaseReader.cpp:325-341 | a symbol record names the slices that are its name and its references |
| DatabaseFormat.RefRoundTrip | src/database/DatabaseReader.cpp:339-347 | the references of a slice are read back |
| DatabaseFormat.SlotRoundTrip | src/database/DatabaseReader.cpp:453 | a table slot is read back |
| DatabaseFormat.PostingRoundTrip | src/database/DatabaseReader.cpp:460-463 | a posting is read back |
| DatabaseHeader.HeaderRoundTrip | include/symfind/database/Database.h:101-137 | the header decoded is the header written |
| DatabaseLayout.NumberBytes | include/symfind/database/Database.h:40-137 | a 32-bit number on disk: four bytes, lowest first |
| DatabaseLayout.LongNumberBytes | include/symfind/database/Database.h:40-137 | a 64-bit number on disk: two of those, the lower half first |
| DatabaseLayout.FileLayout | include/symfind/database/Database.h:154-158 | a file record: the directory id, where the name starts behind the names of the files before, its length |
| DatabaseLayout.PathLayout | include/symfind/database/Database.h:160-163 | a path record: where the path starts behind the paths before, its length |
| DatabaseLayout.SymbolLayout | include/symfind/database/Database.h:165-171 | a symbol record: start and length of the name, start and length of the references, thirteen bytes each |
| DatabaseLayout.RefLayout | include/symfind/database/Database.h:175-178 | a reference: the file id, one byte each for defined or not, section, type, binding and visibility in this order, the offset |
| DatabaseLayout.SlotLayout | include/symfind/database/Database.h:188-192 | a slot: code, first posting, number of postings; a free one holds 2^32 - 1 and zeros |
| DatabaseLayout.SlotCount | src/core/TrigramUtils.cpp:34-42 | at most seven tenths of the slots are taken, one for each code that occurs; there are 16 slots, or half of them would be too few |
| DatabaseLayout.SlotLists | src/database/DatabaseBuilderUtils.cpp:342-356 | a taken slot points to the ids of exactly the names that hold its code, in increasing order |
| DatabaseLayout.CodeIsMet | src/database/DatabaseBuilderUtils.cpp:345-356 | every code of a name is met going on from its home slot, round the end of the table, before any free slot |
| DatabaseLayout.HeaderLayout | include/symfind/database/Database.h:40-137 | the header: every field of the packed structures, in their order and width |
| DatabaseLayout.FileStarts | src/database/DatabaseBuilder.cpp:128-163 | the first twelve bytes of a database |
| DatabaseLayout.BlocksInOrder | src/database/DatabaseBuilder.cpp:128-243 | configuration, dictionary and the nine blocks stand one behind the other from byte 220 to the end of the file, where the header says |
| DatabaseLayout.CountsInHeader | src/database/DatabaseBuilder.cpp:208-240 | the header counts files, directories, symbols, slots, postings, codes and non-empty names, and adds up the compressed lengths |
| DatabaseLayout.BlocksHoldTables | src/database/DatabaseBuilderUtils.cpp:19-388 | each block is what the library makes of its table, the three blobs of names with the dictionary and the others without |
| FileStore.WriteInTwo | src/filesystem/FileWrapper.cpp:175-193 | two adjacent writes are one write |
| FileStore.WriteByBytes | src/filesystem/FileWrapper.cpp:163-196 | a write puts the data at the offset byte for byte, leaves every other byte and fills a gap with zeros |
| FileStore.OverwriteHead | src/database/DatabaseBuilder.cpp:239-243 | rewriting the header changes nothing behind it |
| FileStore.DatabaseFile.Write | src/filesystem/FileWrapper.cpp:163-196 | succeeds exactly when the file is open and no system call fails; then the whole buffer stands at the offset, however the writes were split, and otherwise a prefix of it |
| FileStore.WriteDatabaseBuffer | src/database/DatabaseWriter.cpp:8-37 | the offset moves behind the data on success and stays on failure |
| FileStore.Commit | src/database/DatabaseWriter.cpp:20-25 | sections written so far tile the file without gap or overlap, and one more is appended |
| DatabaseStore.BuildFileTable | src/database/DatabaseBuilderUtils.cpp:19-68 | the compressed blocks of the file records and names; fails only if compression fails |
| DatabaseStore.BuildPathTable | src/database/DatabaseBuilderUtils.cpp:106-149 | the same for paths |
| DatabaseStore.BuildSymbolBlocks | src/database/DatabaseBuilderUtils.cpp:194-223 | the three symbol blocks, with running offsets equal to prefix sums |
| DatabaseStore.BuildSymbolIndex | src/database/DatabaseBuilderUtils.cpp:187-256 | their compressed forms |
| DatabaseStore.BuildTrigramIndex | src/database/DatabaseBuilderUtils.cpp:307-388 | the compressed slots and postings of a table for the names |
| DatabaseStore.CommitTable | src/database/DatabaseBuilderUtils.cpp:70-104 | both blocks follow each other and the header part says where and how long they are |
| DatabaseStore.CommitSymbolIndex | src/database/DatabaseBuilderUtils.cpp:258-305 | the same for three blocks |
| DatabaseStore.CommitTrigramIndex | src/database/DatabaseBuilderUtils.cpp:390-427 | the same for slots and postings |
| DatabaseStore.WritePreamble | src/database/DatabaseBuilder.cpp:128-163 | placeholder header, configuration and dictionary follow each other |
| DatabaseStore.CommitAll | src/database/DatabaseBuilder.cpp:208-234 | nine blocks follow each other and the headers tell where |
| DatabaseStore.CommitPhase | src/database/DatabaseBuilder.cpp:208-243 | the final rewrite leaves header, configuration, dictionary and blocks with no gap and no overlap |
| DatabaseStore.StoreDb | src/database/DatabaseBuilder.cpp:114-246 | with the trigram table of the names: succeeds exactly when the file is open, no system call fails and every block can be compressed, and then leaves, within the limits of the format, exactly the image of the content and its compressed blocks |
| DatabaseImage.BlockBack | src/database/DatabaseReader.cpp:480-500 | cutting a stored block out and decompressing it gives the block |
| DatabaseImage.ImageHeaderFits | src/database/DatabaseBuilder.cpp:208-240 | within the limits no header field loses a byte |
| DatabaseImage.ImageReadsBack | src/database/DatabaseReader.cpp:81-246 | the header of an image is recognised and all nine blocks come out as they went in |
| DatabaseReader.DatabaseReader.ReadHeader | src/database/DatabaseReader.cpp:28-54 | accepts exactly the magic number 0x73796D66696E6400 and version 0x100 |
| DatabaseReader.DatabaseReader.ReadFileTable | src/database/DatabaseReader.cpp:81-117 | both blocks decompressed, or failure exactly when one does not decompress |
| DatabaseReader.DatabaseReader.ReadPathTable | src/database/DatabaseReader.cpp:119-155 | the same for paths |
| DatabaseReader.DatabaseReader.ReadSymbolIndex | src/database/DatabaseReader.cpp:157-206 | the same for the three symbol blocks |
| DatabaseReader.DatabaseReader.ReadTrigramIndex | src/database/DatabaseReader.cpp:208-246 | the same for slots and postings; the capacity is narrowed to 32 bits |
| DatabaseReader.DatabaseReader.DecompressDatabase | src/database/DatabaseReader.cpp:248-253 | succeeds exactly on a recognised header with nine blocks that decompress |
| DatabaseReader.DatabaseReader.LookupTrigram | src/database/DatabaseReader.cpp:440-467 | ends for every 32-bit code and returns exactly the increasing list of ids of names holding it |
| DatabaseReader.ProbeSlots | src/database/DatabaseReader.cpp:449-466 | the probe loop over the raw block stops at the code or at a free slot |
| DatabaseReader.CountingIsExact | src/database/DatabaseReader.cpp:275-309 | an id is counted once per query code exactly when its name holds them all |
| DatabaseReader.DatabaseReader.CandidateIds | src/database/DatabaseReader.cpp:275-313 | the candidates are exactly the ids whose names hold every trigram of the query, each once |
| DatabaseReader.DatabaseReader.ResolveSymbol | src/database/DatabaseReader.cpp:318-384 | a candidate's name and its filtered references are those of the table |
| DatabaseReader.KeptInOrder | src/database/DatabaseReader.cpp:343-384 | the references kept are exactly those to files that are there and that pass the filter, in their order, each with its metadata and the path of its file |
| DatabaseReader.DatabaseReader.FindSymbolReferences | src/database/DatabaseReader.cpp:275-394 | one answer per candidate, under its own name; none exactly for an empty query or no candidate |
| QueryScan.PathsAgreeIffSlashed | src/filesystem/FSScanner.cpp:349-352 | reader and scanner name a file alike exactly when its directory was stored with its slash |
| QueryScan.OnlyTheNameCounts | src/database/DatabaseReader.cpp:317-387 | of all candidates only the queried name contributes references |
| QueryScan.QueryEqualsScan | src/core/SymFinder.cpp:17-83 | for a non-empty query the printed references are those of the linear scan, in its order |
| QueryScan.QueryIsExactUnlessEmptyNameStored | src/database/DatabaseReader.cpp:278-283 | a query prints the scan exactly unless it is empty and a defined symbol with an empty name was stored, which the parser never stores |
| QueryScan.ExactForEveryDatabaseIffNonEmpty | src/database/DatabaseReader.cpp:278-283 | over symbol tables of any kind, including ones with empty names that the parser never fills, exactly the non-empty queries always print the scan |
| QueryScan.NothingToFindIffNoEmptyName | src/elf/ElfParser.cpp:175-178 | the empty query, which is never answered, misses nothing exactly when no defined symbol has an empty name |
| QueryScan.FoldedEqualIsCandidate | src/database/DatabaseReader.cpp:285-309 | every name equal to the query up to ASCII case is a candidate |
| QueryScan.CandidatesAreTheNameIffOneByte | src/database/DatabaseReader.cpp:285-309 | every candidate is the queried name up to ASCII case exactly when the query has one byte; a longer query has itself written twice as a candidate |
| QueryScan.CandidatesAreEqualIffOneNonLetter | src/database/DatabaseReader.cpp:331-335 | every candidate equals the query, so that the comparison left out changes nothing, exactly when the query is one byte and no letter |
| FileScanner.StringCache.StoreString | src/filesystem/FSScanner.cpp:51-77 | a string is stored once, looking its id up gives it back, and ids given out before keep their strings |
| FileScanner.CollectFiles | src/filesystem/FSScanner.cpp:219-230 | the recorded directories are those of the walk, each once, in the order met; every file keeps its name and gets the id of its directory |
| FileScanner.WithSlash | src/filesystem/FSScanner.cpp:138 | the directory itself, or with one separator added, and then it ends in one |
| FileScanner.FullPath | src/filesystem/FSScanner.cpp:349-352 | the directory, one separator unless it ends in one, and the name |
| FileScanner.PlacedPath | src/filesystem/FSScanner.cpp:349-352 | what is recorded gives that path back for every file |
| FormatLimits.ContentFits | src/database/DatabaseBuilderUtils.cpp:19-388 | what is recorded for a walk with few enough files, names and symbols keeps every 32-bit limit of the format, however little the compressor achieves |
| FormatLimits.MillionsFit | src/database/DatabaseBuilderUtils.cpp:19-388 | in figures: five million files and thirty million references with names of some hundred megabytes are few enough |
| Pipeline.LoadedImageShows | src/database/DatabaseReader.cpp:248-253 | a reader that loaded an image shows exactly its files, paths, symbols and trigram table |
| Pipeline.BuildDatabase | src/database/DatabaseBuilder.cpp:291-318 | stores the image of the sequential table with the trigram table of its names, and says exactly when it succeeds |
| Pipeline.ScanIsExpected | src/filesystem/FSScanner.cpp:349-352 | scanning the recorded files is scanning the files met |
| Pipeline.ExpectedInOrder | src/core/SymFinder.cpp:17-83 | the scan word for word: one line with name, full path and metadata for every defined symbol of that name in every file found, file by file and in the order of the parser, and no other line |
| Pipeline.WalkAndBuild | src/database/DatabaseBuilder.cpp:291-318 | succeeds exactly when the file is open, no system call fails and every block can be compressed, and then leaves the database of the walk, for every thread count, schedule and splitting of writes, if no build of the walk outgrows the format |
| Pipeline.SmallWalksFit | src/database/DatabaseBuilder.cpp:291-318 | no build of a small walk outgrows the format: a condition on what was found, the configuration and the dictionary only |
| Pipeline.FindSymbol | src/database/DatabaseReader.cpp:256-394 | looking a name up in the database of a walk prints exactly what comparing every symbol of every file found would, in the same order |
| Pipeline.BuildThenFind | src/database/DatabaseReader.cpp:256-394 | building from any small walk and asking later: if no system call fails and the compressor takes every block, the answer is the linear scan of what was found |
| FreeRun.ScanOfFile | src/core/SymFinder.cpp:33-48 | the scan of one file is what its parser accepted, under the file's path |
| FreeRun.StepPrinter | src/core/SymFinder.cpp:28-82 | the loop of a thread: writes the next piece of what it has parsed, or parses its next file and filters it |
| FreeRun.WholeEntries | src/core/SymFinder.cpp:45-79 | if entries cannot be torn apart, what is written is the entries themselves |
| FreeRun.SchedulesKeepInv | src/core/SymFinder.cpp:16-83 | in every state of every schedule each thread has written a beginning of the scan of its files, in order, wherever the text of an entry may be torn apart |
| FreeRun.FinishedSchedulesPrintTheScan | src/core/SymFinder.cpp:85-99 | whatever the schedule, the terminal ends up with exactly the text of the scan of all files, that of each thread in order |
| FreeRun.StepCostsEffort | src/core/SymFinder.cpp:17-83 | every step uses up one unit of effort, so no schedule goes on for ever |
| FreeRun.RunThreads | include/symfind/utils/Threading.h:70-93 | an arbitrary scheduler runs the threads over the dealt chunks to the end |
| FreeRun.RunAll | src/core/SymFinder.cpp:85-99 | for every thread count, schedule and tearing of entries the terminal holds exactly the pieces of what a lookup in the database of the same walk prints |
| PathOrder.Mismatch | src/filesystem/FSUtils.cpp:22 | the length of the longest common prefix |
| PathOrder.CmpByRank | src/filesystem/FSUtils.cpp:20-48 | the comparison is the lexicographic order in which the separator comes before every byte and the end before the separator |
| PathOrder.CmpInBytes | src/filesystem/FSUtils.cpp:20-48 | in terms of bytes: after a common beginning the first string ends and the other goes on, or it alone has the separator, or both have other bytes and its own is smaller |
| PathOrder.CmpIsAntisymmetric | src/filesystem/FSUtils.cpp:20-48 | zero exactly on equal strings, and swapping the arguments swaps the sign |
| PathOrder.CmpIsTransitive | src/filesystem/FSUtils.cpp:20-48 | the order is transitive |
| PathOrder.ComparatorIsStrictWeakOrder | src/filesystem/FSUtils.cpp:50-55 | the comparator meets the demands of the library sort |
| PathOrder.StringListDirPathSort | src/filesystem/FSUtils.cpp:50-55 | sorted in place, same elements |
| PathOrder.SortedIsUnique | src/filesystem/FSUtils.cpp:50-55 | a list can be sorted in one way only |
| PathOrder.NothingBetween | src/filesystem/FSUtils.cpp:38-47 | nothing else comes between a directory and what is below it |
| PathOrder.BelowInBytes | src/filesystem/FSUtils.cpp:38-47 | below a directory is what starts with it and goes on with a separator |
| PathOrder.SubtreesAreContiguous | src/filesystem/FSUtils.cpp:50-55 | in a sorted list everything below a directory stands directly behind it |
| PathCursor.StringListContainsDirPath | src/filesystem/FSUtils.cpp:57-71 | finds the first occurrence of the path from the cursor on; a hit moves the cursor behind it, a miss to the end of the list |
| PathCursor.CursorIsRightIffNoHitAfterMiss | include/symfind/filesystem/FSUtils.h:34-46 | a run of increasing questions to a sorted list is answered rightly exactly when no listed path is asked for after one that is not listed |
| Mounts.UnderPrunedByParent | src/filesystem/BindMount.cpp:160-163 | a mount is under a pruned one if it is pruned for its type or its path, or if its parent is under a pruned one |
| Mounts.UnderPrunedByChain | src/filesystem/BindMount.cpp:160-163 | in other words: a chain of parent links, none of them zero, leads from it to a mount that is pruned for its type or its path |
| Mounts.ReturnsAtOnce | src/filesystem/BindMount.cpp:144-166 | the search needs no second call exactly for a mount that is not there, is pruned for its type or path, or has no parent |
| Mounts.RankingExistsIffAcyclic | src/filesystem/BindMount.cpp:161-163 | the mounts can be ranked, parents below children, exactly when no unpruned chain runs into itself |
| Mounts.SearchReturnsIffAcyclic | src/filesystem/BindMount.cpp:144-166 | the search returns for every id exactly when no unpruned chain runs into itself |
| Mounts.OwnParentNeverReturns | src/filesystem/BindMount.cpp:161-163 | from an unpruned mount that is its own parent the search never returns |
| Mounts.FindWhetherUnderPruned | src/filesystem/BindMount.cpp:144-166 | for every acyclic parent relation and whatever the cache held, the answer is whether the mount or an ancestor is pruned, and the cache stays right |
| Mounts.MountTable.Propagate | src/filesystem/BindMount.cpp:215-228 | marks exactly the mounts that are pruned or under a pruned one, sharing one cache |
| Mounts.MountTable.EraseMarked | src/filesystem/BindMount.cpp:233-243 | erasing while iterating leaves exactly the unmarked mounts in order |
| Mounts.MountTable.RemovePruned | src/filesystem/BindMount.cpp:215-243 | exactly the mounts with no pruned ancestor or self remain, in order |
| Mounts.VisibleInOrder | src/filesystem/BindMount.cpp:215-243 | the mounts that remain are those from which no such chain leads to a pruned one, in their order |
| Mounts.VisibleParents | src/filesystem/BindMount.cpp:215-228 | a mount that remains keeps its parent |
| Mounts.MatchBindMounts | src/filesystem/BindMount.cpp:92-134 | lists the mount point of every duplicate or child mount once, in order |
| Mounts.PointsInOrder | src/filesystem/BindMount.cpp:92-134 | one mount point for every bind mount, in the order of the table |
| Mounts.UnlistedIffTopAndLowest | src/filesystem/BindMount.cpp:92-134 | with unique ids a mount is not listed exactly if no other of its device shows its root or more, save mounts of the same root with a higher id |
| Mounts.RebuildBindMountPaths | src/filesystem/BindMount.cpp:72-142 | behind the guard: pruned, matched and sorted |
| Mounts.RemainingRootsAreApart | src/filesystem/BindMount.cpp:92-134 | with unique ids, the roots of two mounts left on a device are not prefixes of one another |
| Mounts.BindMountIffShownElsewhere | src/filesystem/BindMount.cpp:92-134 | with unique ids, a mount is listed exactly when an unlisted mount of its device shows its root |
| Mounts.ApartIffDistinctIds | src/filesystem/BindMount.cpp:99-104 | the mounts left on a device lie apart, for all mounts with given ids, exactly when the ids are distinct |
| MountField.ParseMountString | src/filesystem/BindMount.cpp:248-312 | decodes one field and leaves the cursor on its separator or end; fails exactly when only blanks are left, without moving |
| MountField.Decode | src/filesystem/BindMount.cpp:260-303 | the copying loop: escapes become bytes, octal numbers above 255 stay literal |
| MountField.TokenByBytes | src/filesystem/BindMount.cpp:260-303 | a field ends at a NUL, tab or blank, and every other byte but a backslash stands for itself |
| MountField.TokenOfOctal | src/filesystem/BindMount.cpp:271-296 | a backslash and three octal digits stand for the byte 64 a + 8 b + c if that is below 256; if not, the backslash stands for itself |
| MountField.TokenOfBackslash | src/filesystem/BindMount.cpp:271-296 | a backslash without three such digits behind it stands for itself |
| MountField.ParseBehindBlanks | src/filesystem/BindMount.cpp:250-258 | blanks and tabs in front of a field are skipped, and with nothing behind them there is no field |
| MountField.ParseOfEscaped | src/filesystem/BindMount.cpp:248-312 | parsing inverts octal escaping for every non-empty NUL-free string, leading blanks and anything behind |
| MountField.KernelEscapes | src/filesystem/BindMount.cpp:268-296 | the four bytes that the kernel escapes are enough |
| MountField.EveryStringSurvivesIffEnoughEscaped | src/filesystem/BindMount.cpp:282-296 | exactly which escape sets bring every string back |
| MountLine.ReadMountEntry | src/filesystem/BindMount.cpp:334-357 | reads the fields of a line behind the numbers, failing as soon as one is missing |
| MountLine.SeekSeparator | src/filesystem/BindMount.cpp:340-349 | skips optional fields up to the first that is a lone dash before any NUL in it |
| MountLine.LineRoundTrip | src/filesystem/BindMount.cpp:314-358 | root, mount point, type and source of any escaped line are read back, whatever optional fields it has |
| MountLine.LineReadIffComplete | src/filesystem/BindMount.cpp:314-358 | a line of any fields is read exactly if three fields, any others and a lone dash stand in front of three more; then the first two and the first two behind the first lone dash are returned |
| MountInfo.ReadEntry | src/filesystem/BindMount.cpp:180-194 | one line: numbers, root and mount point as they stand there, pruned for its type exactly if the configuration names the type in capitals, letter by letter, and for its path exactly if it names the mount point |
| MountInfo.ReadMountEntries | src/filesystem/BindMount.cpp:178-211 | the mounts of all lines before the first that cannot be read, ordered by device and then as read |
| MountInfo.StopsAtUnreadable | src/filesystem/BindMount.cpp:178-211 | the lines up to the first that cannot be read give their mounts, field by field, and nothing behind it matters |
| MountInfo.ByDeviceIsOrdered | src/filesystem/BindMount.cpp:194 | the table is ordered by major and then minor device number |
| MountInfo.ByDeviceKeepsOrder | src/filesystem/BindMount.cpp:194 | and keeps the mounts of each device in the order of the lines |
| MountInfo.ByDevicePermutes | src/filesystem/BindMount.cpp:194 | ordering by device loses no mount and adds none |
| MountInfo.ListBindMounts | src/filesystem/BindMount.cpp:72-246 | behind the guard: the sorted list of the mount points that are bind mounts among those not pruned |
| MountInfo.BindMount.Rebuild | src/filesystem/BindMount.cpp:72-142 | the list stays as it was whenever the file can be opened, because the guard at line 171 is inverted |
| MountInfo.BindMount.IsBindMount | src/filesystem/BindMount.cpp:60-69 | the answer is whether the path stands in the list from the cursor on; as long as the file can be opened, no path is ever found |
| MountInfo.NeverFilledIsRightIffNoneAsked | src/filesystem/BindMount.cpp:168-174 | a list that is never filled answers rightly exactly when no bind mount is asked for |
| MountInfo.OrderDoesNotMatter | src/filesystem/BindMount.cpp:213-243 | with unique ids the order of the table changes nothing about which mounts are listed |
| MountInfo.ListingIsRead | src/filesystem/BindMount.cpp:314-358 | mount i of what is read back from a listing with sufficient escapes has the id, parent, device, root and mount point of mount i of the listing, and is pruned for its type exactly if the configuration names that in capitals and for its path exactly if it names the mount point |
| MountInfo.ListingToBindMounts | src/filesystem/BindMount.cpp:72-246 | from the escaped lines of a listing exactly the bind mounts in it are collected |

## Left out

- Compression: the library is a pair of functions with one law, decompression undoes compression; where sizes matter, a second one bounds the output by the buffer it is given (src/database/ZSTDCompressor.cpp:56; k is 64 for that library in `FormatLimits.Bounded`).  An empty dictionary stands for none.  Training a dictionary is left out; the dictionary is a parameter.
- Limits of the format: blobs, records and the file must stay below 4 GiB (`DatabaseStore.FormatFits`).  Nothing in the code checks this; `FormatLimits.SmallEnough` is a condition on the walk that suffices.  Beyond the limits fields and offsets wrap as modelled and no round trip is promised.
- Malformed database files: the reader checks no bounds, so the model reads only files whose header stays inside the file (`DatabaseImage.Readable`), and queries only images.
- Opening and mapping files, directory walking, `stat`, reading `/proc`, polling, printing and timers: a walk is a list of directories and names, a file is a list of symbols, the mount table is a list of mounts.
- The message about a changed configuration block and the error texts.
- ELF parsing and demangling: what a file reports is a parameter; a file that cannot be parsed reports nothing, since the parser fails before the first symbol.
- The words and colours of a printed entry: how its text falls into pieces is a parameter of `FreeRun`.
- A hardware thread count of zero, which the library may report: the division in the source is undefined then, and the model asks for at least one.
- FileStore.DatabaseFile.Write: an interrupted call is one of a bounded number of signals, because otherwise no write loop need end; a zero-length write with a stale interrupted status is not modelled.
- Text lengths beyond 2^31 in the matchers, and `isdigit` on negative characters: bytes are 0 to 255.
- ReverseAutomaton.ReverseAhoCorasickArray.Build: uses the array automaton with its mid flag as the single flag, since the two builds are the same loop.
- Mounts.FindWhetherUnderPruned: asks for an acyclic parent relation, because on any other the source does not return (`Mounts.SearchReturnsIffAcyclic`).
- Trigrams.CapacityForCount: asks for a count for which 2^63 slots are enough, because with any other the source does not return (`Trigrams.SomeCapacityIffLargest`).
- More than 2^32 files: ids wrap as modelled; the chunks then name only files that are there, and nothing more is promised.
- PathOrder.StringListDirPathSort: the library sort is modelled by insertion; `PathOrder.SortedIsUnique` says that no other result is possible.
- Regular expressions and fuzzy comparison: the trigram step makes them different from a full scan.
- Configuration and option parsing, symbol-to-string tables, hexadecimal conversion: simple branches.
- Splitting mountinfo into lines, and the numbers at the start of a line, which the C library reads: the model starts from the numbers and the text behind them.
- What the C library yields for a mountinfo stream that could not be opened: the lines are a parameter then.
- Committing file and path tables: the two functions differ in names only and are modelled once (`DatabaseStore.CommitTable`).
- The commented-out builder in src/core/Trigram.cpp and the copy of the production matcher in the benchmark directory.
