# Terminal manager: a verified model

The repository is a desktop terminal manager. This project models the parts of it in which state is
kept consistent by more than one function, and proves what those parts are for:

- the **file explorer**: a cached directory tree that asynchronous workers fill in, with stale results
  rejected, deleted subtrees pruned, rows computed, a file revealed and type-ahead moving the selection;
- the **command palette** and the **quick-open index**: a greedy fuzzy matcher, scores in tiers, groups,
  a bounded walk over a directory tree, and a ranker with a prefilter;
- the **terminal pipeline** and the **reader registry**: a bounded channel between a reader and a
  consumer that batches and paces its output, and readers handed over by generation;
- the **lock-free sampler** and the **rotating log** of the renderer's telemetry;
- the **Markdown preview**: events to an arena of drafts to a capped tree of blocks;
- the **saved layout**: transient panes taken out in place, and files replaced by rename;
- the **daemon upgrade**: which running daemon an installed release may retire.

Code that works step by step is modelled by methods and classes over the same fields. Each is proved
against a function on values, and the properties are proved of that function. Code that runs on several
threads, in several processes, or that may stop at any point, is modelled as a system of steps, and its
properties hold in every run, whatever the interleaving.

## Where things are

| files | source |
|---|---|
| `ExplorerState`, `ExplorerInvariant`, `ExplorerVisible`, `ExplorerTypeahead`, `ExplorerReveal`, `ExplorerRuns`, `ExplorerPlaces`, `ExplorerObject` | `src/explorer.rs` |
| `PaletteQuery`, `Fuzzy`, `PaletteScore`, `PaletteRank` | `src/command_palette.rs` |
| `FileWalk`, `FileIndex`, `QuickOpen` | `src/file_index.rs` |
| `PtyPipeline`, `Readers` | `src/bridge.rs` |
| `Sampler` | `src/renderer_telemetry.rs` |
| `RotatingLog`, `LogLines` | `src/telemetry_sink.rs`, `src/renderer_telemetry.rs` |
| `MarkdownArena`, `MarkdownBlocks`, `MarkdownPreview`, `MarkdownMeaning`, `MarkdownReading`, `MarkdownText` | `src/markdown.rs` |
| `Absorption`, `Layout`, `AtomicSave` | `src/persist.rs` |
| `Daemon` | `src/daemon.rs` |
| `Options`, `Modular`, `Ordering`, `Sequences`, `Text`, `TextWords` | used by all |

## Where the code does less than its comments or its design suggest

- **Reader hand-over.** `build_subscriptions` drains the pending readers before it takes the state lock.
  A pane that is mounted and registered in between gets an identity-only stub, and its reader may then be
  refused by the next build: `Readers.RaceExample` is such a run. `Readers.StubForPendingIffRace` says
  when the stub is emitted, and `Readers.RaceLosesReader` what becomes of the reader at the next build,
  whatever happens in between: superseded if its pane is registered again before that build drains, else
  lost if it raced and the stub's stream has not ended, else started. Without the race, and so whenever a
  build is one step, every reader that no longer waits was superseded or started exactly once.
- **Log size.** After an append the live file is shorter than the limit plus the record exactly when
  the limit is not zero (`RotatingLog.NewestIsLastAndFits`). What is written is whole records exactly when
  no write is cut in the middle (`RotatingLog.WholeRecordsIffClean`). A fragment shares its line with the
  record after it, so the files read as the last completed records exactly when no fragment is still in
  them (`LogLines.ReadsRecordsIffNoFragment`).
- **Preview cap.** The preview is cut when the conversion comes to more than 512 drafts, which says the
  same as the number of all drafts, except exactly when the conversion comes to at most 512 although
  there are more (`MarkdownPreview.CapIsExact`). That cannot be when no block begins within a heading, a
  paragraph or a code block, which a caller can read off the events (`MarkdownPreview.Preview`). It does
  happen for a balanced stream of paragraphs within paragraphs (`MarkdownPreview.ParagraphHidesDrafts`).
  CommonMark has no such paragraphs; whether the parser can emit such a stream is not part of this model.
- **Text in the preview.** Text is shown that stands in headings, paragraphs, code and items. Where it
  stands anywhere else it is lost, and `MarkdownText.NothingIsLostIff` counts it: nothing is lost exactly
  when there is no such text. What is shown is in the order of the document when the own text of every item
  comes before the blocks in it (`MarkdownText.PreviewSaysAllInOrder`). Otherwise it need not be: a text
  that comes after a block is joined to the text before that block, without so much as a space
  (`MarkdownText.LateTextIsMoved`, for any words). The condition on the order is sufficient only: texts
  that are moved may hold the same words as those they pass. Whether the parser emits such a stream is not
  part of this model.
- **Retirements.** If the program itself lies in a release folder of another install, its sibling daemon
  counts as a release there. Then there can be one retirement more than releases are installed
  (`Daemon.NestedRetiresOneMore`), and a daemon of the other install can be retired
  (`Daemon.StrangersStay` says when). Otherwise neither happens in any run: both bounds hold exactly when
  the program does not lie there (`Daemon.BoundHoldsIffNotNested`, `Daemon.StrangersAlwaysStayIffNotNested`).

## Model

| member | source | states |
|---|---|---|
| ExplorerObject.Explorer.CancelPendingReveal | src/explorer.rs:105-108 | drops a pending restore and makes any reveal under way stale, changing nothing else |
| ExplorerObject.Explorer.CollapseAll | src/explorer.rs:110-118 | only the root stays expanded and selected; listings, generation and saved locations stay |
| ExplorerObject.Explorer.SetRoot | src/explorer.rs:120-139 | the whole new state after a switch, or the same state when the workspace is the same; what it means over runs is said by `ExplorerPlaces` below |
| ExplorerObject.Explorer.Refresh | src/explorer.rs:141-151 | forgets all listings under a new generation, leaving the root expanded and selected |
| ExplorerObject.Explorer.ClearTypeahead | src/explorer.rs:153-156 | the type-ahead starts over |
| ExplorerObject.Explorer.TypeToSelect | src/explorer.rs:158-201 | the whole new state after a key: extends, repeats or restarts the search and moves to the first match in cyclic order |
| ExplorerObject.Explorer.VisiblePaths | src/explorer.rs:203-221 | the recursive walk yields the rows defined on the tree |
| ExplorerObject.Explorer.Append | src/explorer.rs:204-215 | appends exactly the rows of one subtree, and ends although only expansion bounds the depth |
| ExplorerObject.Explorer.IsDirectory | src/explorer.rs:223-237 | the root, or a directory entry of the parent's listing |
| ExplorerObject.Explorer.Accept | src/explorer.rs:239-254 | applies a result of the current generation for a directory or a loading listing, else changes nothing |
| ExplorerObject.Explorer.DirectoryVisible | src/explorer.rs:256-266 | walks the ancestors up to the root and asks each to be expanded |
| ExplorerObject.Explorer.RefreshTargets | src/explorer.rs:270-278 | exactly the listings that are loaded and visible, each with its object |
| ExplorerObject.Explorer.UpdateListing | src/explorer.rs:282-343 | applied exactly over the snapshotted object in the current generation when something changed; the whole new state |
| ExplorerObject.Explorer.Prune | src/explorer.rs:297-340 | forgets exactly what lies under children the new entries do not offer, and moves the selection up |
| ExplorerObject.Explorer.FindRemoved | src/explorer.rs:302-327 | the loop over all remembered paths finds exactly the children that must go |
| ExplorerInvariant.UpdateKeepsInv | src/explorer.rs:282-343 | applying a result leaves no ghosts |
| ExplorerInvariant.AcceptKeepsInv | src/explorer.rs:239-254 | accepting a result leaves no ghosts |
| ExplorerInvariant.RefreshKeepsInv | src/explorer.rs:141-151 | a refresh leaves no ghosts |
| ExplorerInvariant.SetRootKeepsInv | src/explorer.rs:120-139 | a switch leaves no ghosts, although it restores paths saved long ago |
| ExplorerInvariant.CollapseAllKeepsInv | src/explorer.rs:110-118 | collapsing leaves no ghosts |
| ExplorerInvariant.DeletedLiesBelowRemovedChild | src/explorer.rs:329-340 | the test on ancestors deletes a path exactly when the child it goes through was removed |
| ExplorerVisible.VisibleRows | src/explorer.rs:203-221 | the rows are the root, then in preorder without repetition exactly the paths all of whose ancestors are open and listed |
| ExplorerVisible.SiblingsKeepOrder | src/explorer.rs:210-212 | siblings, with all below them, keep the order of their listing |
| ExplorerVisible.DirectoryVisibleAgrees | src/explorer.rs:256-266 | where all ancestors have been read, a directory is visible exactly when it is a row and is the root or expanded |
| ExplorerVisible.TargetsAreOpenRows | src/explorer.rs:268-278 | a refresh re-reads a directory exactly when its listing is loaded and its row is open |
| ExplorerTypeahead.TypingKeepsInv | src/explorer.rs:158-201 | typing leaves no ghosts |
| ExplorerTypeahead.CyclicOrderIsEveryHitOnce | src/explorer.rs:179-189 | the cyclic order is every match once: those below the current row, then those up to it |
| ExplorerTypeahead.PressesMove | src/explorer.rs:158-201 | presses of a repeated letter move the selection from match to match, whatever the pauses |
| ExplorerTypeahead.RepeatedLetterCycles | src/explorer.rs:158-201 | the k-th press selects the k-th match in cyclic order, and after the last the first again |
| ExplorerTypeahead.RepeatedLetterStays | src/explorer.rs:158-201 | with no match the selection never moves |
| ExplorerTypeahead.LetterNarrowsSearch | src/explorer.rs:158-201 | a letter within a second of another is added to what was typed; the selection stays on its row while that matches, else goes to the next row that does |
| ExplorerTypeahead.LetterStartsOver | src/explorer.rs:163-189 | after a second, or for the same letter again, the search is for that letter alone and begins at the row below |
| ExplorerTypeahead.CurrentRowMeans | src/explorer.rs:174-178 | a search starts from the row of the selection, or from the first when that is no row |
| ExplorerReveal.RevealPath | src/explorer.rs:35-63 | the loop over the components computes the recursive descent, with the same errors |
| ExplorerReveal.DescendArrives | src/explorer.rs:44-62 | a successful descent arrives at the target and has read one directory for each component |
| ExplorerReveal.RevealShowsTarget | src/explorer.rs:33-63 | whenever the lookup succeeds, expanding and accepting its listings puts the target among the rows, from any ghost-free state |
| ExplorerReveal.RevealSucceedsIff | src/explorer.rs:33-63 | the lookup succeeds exactly when both paths resolve, the file is in the workspace and every directory on the way can be read and offers the next component; then it has read that chain |
| ExplorerReveal.RevealSaysWhy | src/explorer.rs:37-59 | otherwise it gives the reason: what did not resolve, that the file is outside, or what became of the first directory that does not lead on |
| ExplorerRuns.StepKeepsInv | src/explorer.rs:101-344 | every operation and every arriving result keeps the tree free of ghosts |
| ExplorerRuns.ReachableIsGhostFree | src/explorer.rs:295-340 | in every reachable state, what is remembered below a read directory goes through an entry of its listing, a directory where one is needed |
| ExplorerRuns.AppliedMeansNothingIntervened | src/explorer.rs:268-296 | a result is applied only if generation, root and the listing object were the same in every state since its snapshot |
| ExplorerRuns.AppliedAtMostOnce | src/explorer.rs:289-296 | at most one result is ever applied over a snapshotted object |
| ExplorerRuns.OldGenerationNeverLands | src/explorer.rs:141-151 | after a refresh or a switch no result from before is applied |
| ExplorerRuns.LandedChangesOnlyItsSubtree | src/explorer.rs:297-343 | a result changes its own listing and nothing outside removed children |
| ExplorerRuns.LandedForgetsOnlyOrphans | src/explorer.rs:302-340 | what it forgets lay below a child that the new listing does not offer |
| ExplorerRuns.LandedForgetsExactlyOrphans | src/explorer.rs:297-340 | an expanded or listed path stays unless its child has no room in the new entries for something remembered; a selection there moves up to the directory that was re-read |
| ExplorerRuns.FreshResultStands | src/explorer.rs:282-343 | over runs: a result whose snapshot is still current is what the directory then lists, and any other changes nothing |
| ExplorerRuns.DeliveredListingStands | src/explorer.rs:239-254 | over runs: a loaded listing stands when it comes in the same generation for the root, a directory its parent lists or a listing awaited, and otherwise changes nothing |
| ExplorerPlaces.ReturningRestoresPlace | src/explorer.rs:120-139 | in every run that leaves a workspace and comes back to it, what was expanded and selected is so again, to be restored, with no old listing and under a new generation |
| ExplorerPlaces.FirstVisitStartsAtRoot | src/explorer.rs:120-151 | in every run a workspace entered for the first time has its root alone expanded and selected |
| ExplorerPlaces.StayingOrClosing | src/explorer.rs:120-131 | switching to the same workspace changes nothing, and after closing it nothing is remembered |
| ExplorerPlaces.RefreshShowsRoot | src/explorer.rs:141-151 | after a refresh the root is the only row and is selected, under a new generation |
| ExplorerPlaces.CollapseShowsRootAndEntries | src/explorer.rs:110-118 | after collapsing, the rows are exactly the root and, where it has been read, its entries |
| ExplorerPlaces.NavigationMakesRevealStale | src/explorer.rs:102-118 | a reveal begun before the user navigates by hand finds another revision ever after |
| PaletteQuery.Sanitize | src/command_palette.rs:579-608 | the loop with its early exits computes the cleaned, squeezed and cut text |
| PaletteQuery.ParsedQueryIsClean | src/command_palette.rs:610-624 | whatever was typed, the query has at most 256 characters, no control or bidi characters, single inner spaces, and is trimmed |
| PaletteQuery.SanitizeKeepsWords | src/command_palette.rs:579-608 | the cleaned text has the words of what can be seen in the first 1024 characters, and is cut after 256 |
| PaletteQuery.FirstCharacterChoosesMode | src/command_palette.rs:610-624 | the first character that is no space chooses the mode, and everything but that sign stays in the query |
| TextWords.TextIsWordsAndGaps | src/command_palette.rs:1253 | a text is its words, none of which holds white space, with nothing but white space between them |
| Fuzzy.MatchNeedle | src/command_palette.rs:713-746 | the loop computes score and places of the greedy match |
| Fuzzy.MatchesExactlySubsequences | src/command_palette.rs:704-753 | succeeds exactly on case-insensitive subsequences, with the pointwise earliest places |
| Fuzzy.ScoreBounds | src/command_palette.rs:725-750 | a match of n bytes scores from 70n - 10 to 165n - 25 |
| Fuzzy.ScoreIsOfPlaces | src/command_palette.rs:725-750 | the score in terms of the places alone: 100 each, 25 at the start of a word, 15 at the start of the text, 40 when adjacent, less up to 30 for what is skipped and up to 40 for the first place |
| Fuzzy.SuffixMatchesWhole | src/command_palette.rs:704-753 | what matches the end of a text matches the text |
| PaletteScore.SumWords | src/command_palette.rs:1262-1277 | the loop sums each word's best field and fails with the first word that matches nowhere |
| PaletteScore.Score | src/command_palette.rs:1252-1283 | the score of an item, as a value |
| PaletteScore.FuzzyPartBounds | src/command_palette.rs:1252-1283 | the fuzzy part of a match is positive and below 250,000 |
| PaletteScore.TierDominates | src/command_palette.rs:1285-1306 | an item with the phrase in its label or id outranks every item without; among the rest so does one with it in its keywords, and among those left one with it in its description, however well the other matches; and it is found |
| PaletteScore.BestFieldOfItem | src/command_palette.rs:1264-1273 | the best field of a word has the largest score among all texts of the item, each with its boost |
| PaletteScore.BestFieldIsLast | src/command_palette.rs:1264-1273 | of several with that score the last counts |
| PaletteScore.ScoreIsSumOfBest | src/command_palette.rs:1252-1283 | an item scores the sum over the words of their largest scores, and the bonus of the phrase |
| PaletteScore.ReportedPlacesAreOfWords | src/command_palette.rs:1262-1281 | the places reported are those of the words in their best fields, word by word |
| PaletteScore.FoundIffEveryWordMatches | src/command_palette.rs:1252-1277 | an item is found exactly when every word of the query is in one of its texts |
| PaletteScore.PhraseHitIsKept | src/command_palette.rs:1252-1306 | an item in which the phrase occurs is never filtered out |
| PaletteScore.RunningSumIsSmall | src/command_palette.rs:1262-1277 | the running sum is within 0 and 250,000 after every word, also for items that fail at a later one |
| PaletteScore.MatcherSumIsSmall | src/command_palette.rs:725-750 | so is the matcher's own sum after every byte, also of matches that fail later, and a field's score with its boost |
| PaletteScore.SumsFitInt32 | src/command_palette.rs:1252-1278 | for anything typed and any item, found or not: all these sums and the result with its bonus are far within 32 bits |
| PaletteRank.Rank | src/command_palette.rs:1217-1250 | filters, scores and sorts to the ranking defined on values |
| PaletteRank.RankedInOrder | src/command_palette.rs:1232-1247 | scores never rise along the results; among equal ones the folded labels never fall, and among equal ones of those neither do the ids |
| PaletteRank.RankedMembers | src/command_palette.rs:1222-1230 | the results are exactly the matching items, each with its own score |
| PaletteRank.RankedByTier | src/command_palette.rs:1217-1306 | hits in the name come before all other items, then hits in the keywords, then hits in the description, and every hit is there |
| PaletteRank.BlankQueryKeepsItems | src/command_palette.rs:1217-1220 | a blank query shows all items as they come |
| PaletteRank.GroupingConserves | src/command_palette.rs:1329-1359 | grouping shows every item exactly once |
| PaletteRank.GroupsAreWhole | src/command_palette.rs:1329-1347 | there is a group for each kind of item there is, with all items of that kind |
| PaletteRank.GroupKeepsOrder | src/command_palette.rs:1333-1337 | the items of a group stand in the order in which they came |
| PaletteRank.GroupsInOrder | src/command_palette.rs:1349-1376 | with scores the group with the better best score comes first, and of equals and without scores the one first in the menu |
| PaletteRank.BestScoreIsLargest | src/command_palette.rs:1378-1385 | the best score of a group is the largest in it, and 0 without scores |
| PaletteRank.FirstRowIsBest | src/command_palette.rs:1329-1385 | the first row of the first group has the best score of all |
| PaletteRank.FirstRowHasBestTier | src/command_palette.rs:1217-1385 | from typed text to rows: no item whatever has a better hit than the first row |
| PaletteRank.GroupRankIsPosition | src/command_palette.rs:1361-1376 | a group's rank is its place in the order of groups |
| FileWalk.ReadNode | src/file_index.rs:363-434 | what one directory entry does: stored, pushed, skipped, declined, or the end of the walk |
| FileWalk.WalkEntries | src/file_index.rs:338-438 | stores at most as many files as allowed; truncated exactly when a folder was too deep or files did not fit; else all files within the depth |
| FileWalk.NothingDeclinedNothingLost | src/file_index.rs:398-418 | where no folder is declined the depth limit loses nothing |
| FileWalk.UntruncatedWalkIsComplete | src/file_index.rs:338-438 | an untruncated walk found exactly the files and links to files not below a skipped folder |
| FileWalk.AllFilesAreAtPaths | src/file_index.rs:338-438 | the files there are to find are exactly the files and links to files at paths of names, through readable folders that are not skipped |
| FileWalk.FoundWithinDepth | src/file_index.rs:398-418 | nothing found lies deeper than the limit |
| FileWalk.NameStart | src/file_index.rs:451-456 | one past the last slash |
| FileWalk.NameIsLastComponent | src/file_index.rs:130-132 | an entry's name is the last component of its path |
| FileWalk.NormalizedIsSlashed | src/file_index.rs:463-469 | however a path is written, with slashes, backslashes or both, it becomes the same names with slashes |
| FileIndex.GitEntries | src/file_index.rs:296-326 | keeps the first paths that fit, and reports truncation exactly when there are more |
| FileIndex.KeptPathsAreOfFiles | src/file_index.rs:296-316 | the paths kept are those of the records that are not empty and do not end in a separator, each, in their order, with slashes |
| FileIndex.SortedIndex | src/file_index.rs:216-221 | the sorted and deduplicated entries ascend strictly and have the same members |
| FileIndex.BuildIndex | src/file_index.rs:203-233 | the index of the listing or of the walk, with its source and whether it was cut |
| FileIndex.IndexOfWalk | src/file_index.rs:203-233 | after a complete walk the index has exactly the tree's files, each once, ascending |
| QuickOpen.IsSubsequence | src/file_index.rs:564-574 | the one-pass prefilter accepts exactly what the matcher accepts |
| QuickOpen.PrefilterIsSound | src/file_index.rs:518-522 | what the prefilter rejects has no score |
| QuickOpen.BasenameMatchImpliesPathMatch | src/file_index.rs:518-538 | a basename match is a path match too, and the score is the better of the two |
| QuickOpen.ScoreEntry | src/file_index.rs:524-541 | the shortcut for files in the root gives the same score |
| QuickOpen.EntryScoreIsBetter | src/file_index.rs:524-541 | an entry matches exactly when its path contains the query as a subsequence, and scores as its path or as its last component and 60, whichever is better |
| QuickOpen.RankCounted | src/file_index.rs:488-557 | with prefilter and shortcut, the result of the naive ranker |
| QuickOpen.RankedAreTheBest | src/file_index.rs:545-555 | true matches only, as many as fit, with scores that never rise and paths that never fall among equals; no match left out is better than one shown |
| QuickOpen.BlankQueryBrowses | src/file_index.rs:488-507 | a blank query shows the first entries in the order of the index and counts them all |
| QuickOpen.CountIsExact | src/file_index.rs:542-555 | the reported number is that of the matching entries |
| PtyPipeline.ProcessBatch | src/bridge.rs:209-226 | processes the first chunk and the next ones in order, at most 32, counts their bytes, and stops early only at an empty queue |
| PtyPipeline.StepsDoBatch | src/bridge.rs:260-320 | however the reader thread is interleaved, the consumer's steps from look-up to end of batch process, count and stop as the batch does |
| PtyPipeline.ChunkingDoesNotMatter | src/bridge.rs:209-226 | a terminal that reads bytewise ends up the same however its input is chunked and batched |
| PtyPipeline.SnapshotDelay | src/bridge.rs:197-207 | no wait for the first grid nor once 8,333 microseconds have passed since the last; otherwise until exactly then; a whole interval when the clock went back |
| PtyPipeline.RunKeepsInvariants | src/bridge.rs:258-492 | in every interleaving: no chunk lost or reordered, batches exact, grids spaced |
| PtyPipeline.StreamIsIntact | src/bridge.rs:258-320 | while mounted: bytes read are bytes processed, then hand, channel (at most 8 chunks), and chunk being sent |
| PtyPipeline.EndedStreamIsComplete | src/bridge.rs:260-320 | at the end of the stream the terminal has seen every byte, in order |
| PtyPipeline.InFlightIsBounded | src/bridge.rs:258-275 | no more than 40,960 bytes are ever on their way |
| PtyPipeline.BatchesAreExact | src/bridge.rs:187-226 | a batch has at most 32 chunks and 128 KiB, and its count is exact |
| PtyPipeline.SnapshotsAreSpaced | src/bridge.rs:300-303 | any two published grids are an interval apart for every step between them |
| PtyPipeline.SleeperWakesOnTime | src/bridge.rs:300-303 | in every run a chunk that waits does so until exactly one interval after the last published grid |
| PtyPipeline.WaitsOnlyWithinInterval | src/bridge.rs:300-303 | in every run a chunk waits exactly when a grid was published less than one interval ago |
| PtyPipeline.GridsAreThoseOfSteps | src/bridge.rs:489-492 | the grids of a run are those of the steps that publish one, each at its own time |
| PtyPipeline.LookUpDecides | src/bridge.rs:304-325 | the chunk in hand is processed exactly when there is a terminal, and otherwise dropped |
| Readers.ReaderRegistry.RegisterReader | src/bridge.rs:162-172 | a fresh generation replaces the pane's pending reader and becomes its active one |
| Readers.ReaderRegistry.TakeAllReaders | src/bridge.rs:182-185 | takes all pending readers and leaves none |
| Readers.ReaderRegistry.EmitSubscriptions | src/bridge.rs:930-960 | one subscription a pane: its reader if drained, else a stub with its generation |
| Readers.ReaderRegistry.BuildSubscriptions | src/bridge.rs:909-962 | what an undisturbed build emits, whatever order the maps are walked in |
| Readers.StepKeepsAccounted | src/bridge.rs:162-185 | every reader is pending, drained, started once, superseded or lost: exactly one of these |
| Readers.StubForPendingIffRace | src/bridge.rs:924-960 | a stub for a pending identity is emitted exactly when a mounted pane was registered after the drain and not drained |
| Readers.RaceLosesReader | src/bridge.rs:924-960 | over any run from one build to the next: a reader registered in the window is superseded, lost or started, and exactly when each |
| Readers.RaceExample | src/bridge.rs:924-960 | a run in which a reader is lost |
| Readers.BuildDecidesWhatRuns | src/bridge.rs:924-960 | in every run exactly these streams run after a build: those of the readers it drained and, for other mounted panes, the one of the newest generation |
| Readers.EveryReaderStartsOnce | src/bridge.rs:909-962 | without the race, a reader that no longer waits was superseded or started exactly once |
| Readers.NoStubForPending | src/bridge.rs:939-960 | without the race, no stub stands for an identity whose reader is pending |
| Readers.AtomicRunIsClear | src/bridge.rs:924-942 | a build that is one step has no such window |
| Readers.AtomicBuildIsNewest | src/bridge.rs:909-962 | a build that is one step emits one identity a pane, with the pane's newest generation: no later one was registered for it |
| Readers.BuildStartsAllPending | src/bridge.rs:924-937 | after such a build every reader registered so far was superseded or has been started once |
| Sampler.SymbolFallbacks.Record | src/renderer_telemetry.rs:447-477 | one call reports all that is pending exactly when there is something to count and 250 ms have passed, and otherwise keeps what it counts |
| Sampler.StepConserves | src/renderer_telemetry.rs:447-477 | every atomic step of every thread keeps the total |
| Sampler.NothingIsLost | src/renderer_telemetry.rs:440-477 | recorded is pending, held between swap and report, or reported, under every interleaving |
| Sampler.StepKeepsSpacing | src/renderer_telemetry.rs:453-466 | successful exchanges are at least 250 ms apart, even with stale loads and clocks that go back |
| Sampler.ReportsAreSpaced | src/renderer_telemetry.rs:440-477 | any two reports carry times at least 250 ms apart |
| Sampler.WinnersTakeAll | src/renderer_telemetry.rs:453-476 | in every run a thread wins exactly when the timestamp is the one it loaded and 250 ms past; a winner takes all that is pending and reports that |
| Sampler.CallRefinesSteps | src/renderer_telemetry.rs:447-477 | uninterrupted, the steps of a thread do what the call does |
| RotatingLog.LogFiles.AppendRotating | src/telemetry_sink.rs:26-53 | both files after an append stopped between any two of its file operations, or within the write |
| RotatingLog.LogIsASuffix | src/telemetry_sink.rs:26-53 | after any appends, stopped anywhere, the two files are the end of what was written, all of it or at least the limit |
| RotatingLog.WholeRecordsIffClean | src/telemetry_sink.rs:49-52 | what was written is the completed records exactly when no write was cut in the middle |
| RotatingLog.CleanLogIsWholeRecords | src/telemetry_sink.rs:1-6 | stopped only between operations, the files hold the last completed records, whole and in order |
| LogLines.ReadsAsWritten | src/telemetry_sink.rs:49-52 | split at line breaks, a file reads as the pieces written to it exactly when none but the last is a fragment |
| LogLines.ReadsRecordsIffNoFragment | src/telemetry_sink.rs:26-53 | after any appends, stopped anywhere, the bytes of both files read as the last completed records, whole and in order, exactly when no fragment of a cut write is still in them |
| RotatingLog.NewestIsLastAndFits | src/telemetry_sink.rs:24-53 | a completed append ends with its record; the live file is below limit plus record exactly when the limit is not zero |
| RotatingLog.FilesStayBounded | src/renderer_telemetry.rs:562-588 | both files stay below the limit plus the longest record |
| MarkdownArena.Arena.StartTag | src/markdown.rs:145-188 | one draft more, as the last child of its parent, or none for inline tags |
| MarkdownArena.Arena.AppendInline | src/markdown.rs:202-212 | the text of one draft grows |
| MarkdownArena.Arena.Parse | src/markdown.rs:77-124 | the event loop builds the fold of the events |
| MarkdownArena.TakeKeepsArena | src/markdown.rs:89-118 | whatever the events, the arena is one tree in document order and the stack a path in it from the root |
| MarkdownArena.ArenaIsForward | src/markdown.rs:181-187 | children come after their parents, so the conversion ends |
| MarkdownArena.HeadingLineIsExact | src/markdown.rs:84-101 | counted piecemeal, a heading's line is the number of line breaks before it |
| MarkdownBlocks.NormalizeSpace | src/markdown.rs:295-310 | the words of the text with single spaces between them |
| MarkdownBlocks.Converter.AppendChildren | src/markdown.rs:214-285 | the blocks within the budget, the new count, and whether more was to come |
| MarkdownBlocks.Converter.AppendItems | src/markdown.rs:258-275 | the same for the entries of a list |
| MarkdownBlocks.CapIsRender | src/markdown.rs:214-285 | within the budget the blocks are those of the conversion without a cap |
| MarkdownBlocks.CappedIsPrefix | src/markdown.rs:222-227 | beyond it, every block but the last is |
| MarkdownBlocks.PreviewSize | src/markdown.rs:222-227 | nested ones included, there are no more blocks than the budget |
| MarkdownPreview.CutText | src/markdown.rs:66-76 | cuts an over-long text at the last boundary within the limit |
| MarkdownPreview.BoundaryKeepsCharacters | src/markdown.rs:67-72 | what is kept up to a boundary is a whole number of characters |
| MarkdownPreview.Preview | src/markdown.rs:63-140 | from events to blocks; truncated exactly when the input was or the conversion comes to more than 512 drafts, which for streams in which no block begins in a leaf are all drafts but the root |
| MarkdownPreview.CapIsExact | src/markdown.rs:222-227 | the conversion comes to at most all drafts, and to all exactly when it sees all; the number of drafts decides on the cut except exactly when the conversion comes to at most 512 of more |
| MarkdownPreview.GrammaticalCapIsExact | src/markdown.rs:222-227 | where no block begins in a leaf, that is all drafts but the root |
| MarkdownPreview.SeesAllIffGrammatical | src/markdown.rs:222-253 | where only items begin directly in lists, the conversion comes to all drafts exactly when no block begins in a leaf |
| MarkdownPreview.ParagraphHidesDrafts | src/markdown.rs:222-253 | a balanced stream of any number of paragraphs within paragraphs, of which the conversion comes to one |
| MarkdownMeaning.ArenaIsDocument | src/markdown.rs:77-124 | for the events of any document the stack ends at the root and the arena is the document's tree of blocks, with texts and lines |
| MarkdownMeaning.PreviewIsDocument | src/markdown.rs:63-140 | up to 512 blocks the preview is the document's tree converted directly |
| MarkdownMeaning.PreviewFits | src/markdown.rs:222-227 | however large the document, at most 512 blocks in all |
| MarkdownMeaning.PreviewBeginsAsDocument | src/markdown.rs:214-285 | however large the document, all top-level blocks but the last are the document's |
| MarkdownReading.PreviewSaysDocument | src/markdown.rs:214-293 | for any document the words of the blocks, read in order, are the beginning of the words of the texts that are shown, and all of them up to 512 blocks |
| MarkdownReading.CapIsBeginning | src/markdown.rs:214-285 | what is said under the cap is the beginning of what is said without |
| MarkdownReading.BlocksComeByElement | src/markdown.rs:77-124 | the blocks of a document come element by element; inline events give none, and other tags those within them |
| MarkdownReading.BlockShowsTag | src/markdown.rs:145-285 | every tag gives one block of its kind: a heading its level and line, code the first word after the fence, a list whether it is ordered, quotes and lists the blocks within; text with the same words and single spaces, code up to trailing line breaks |
| MarkdownReading.EntryShowsItem | src/markdown.rs:258-275 | an item of a list gives an entry: its own text, if any, as first paragraph, then the blocks within |
| MarkdownText.NothingIsLostIff | src/markdown.rs:63-293 | up to 512 blocks: characters shown and characters lost are the characters of the text, and nothing is lost exactly when no text stands where none is shown |
| MarkdownText.PreviewSaysAllInOrder | src/markdown.rs:63-293 | for a document in which everything is in its place, the words of the preview are the words of all its events, in order, as far as the cap goes |
| MarkdownText.LateTextIsMoved | src/markdown.rs:202-240 | text of an item after a block in it is moved before that block and joined to the text there |
| Layout.CloseShare | src/persist.rs:241-249 | a closed share goes to the left neighbour or, without one, to the next |
| Layout.StripRow | src/persist.rs:237-253 | in place, a row's lasting panes and their shares |
| Layout.Tab.StripRows | src/persist.rs:235-269 | in place, the lasting rows with all shares, for any shapes of the share lists |
| Layout.Tab.StripTransientPanes | src/persist.rs:234-276 | the whole new tab, and whether anything is left |
| Layout.StrippingKeepsLasting | src/persist.rs:228-276 | exactly the lasting panes remain, in order, in rows none of which is empty |
| Layout.StrippingKeepsShape | src/persist.rs:234-276 | shares that match the panes still do |
| Layout.StrippingKeepsSums | src/persist.rs:241-265 | a surviving row holds its lasting panes, and row shares and its pane shares add up to what they did |
| Layout.ActivePaneSurvives | src/persist.rs:270-275 | a lasting pane stays active, and for a transient one the first lasting pane takes over; so the active pane is one of the remaining exactly when it was transient or one of the tab's panes |
| Layout.StripTransientTabs | src/persist.rs:281-300 | the surviving tabs in order, each stripped in place, and the new active index |
| Layout.ActiveTabIsNearest | src/persist.rs:290-298 | the active tab if it survived, else the nearest survivor to its left |
| Layout.NoTabToTheLeft | src/persist.rs:290-298 | else the first |
| Layout.ActiveTabAfterStripping | src/persist.rs:289-299 | the new index holds that very tab |
| Absorption.AbsorbStep | src/persist.rs:241-265 | closing one by one from the left is closing all marked at once |
| Absorption.SumIsPreserved | src/persist.rs:241-265 | while one survives, the shares add up to what they did |
| Absorption.EdgesStay | src/persist.rs:241-265 | every survivor but the first begins where it did |
| AtomicSave.Directory.AtomicWrite | src/persist.rs:457-525 | with a fault anywhere: the temporary file is gone, the destination is old or complete, the fault says which, and success means complete |
| AtomicSave.SaveRefinesSteps | src/persist.rs:457-525 | undisturbed, the steps of a writer leave the destination and the temporary files as the save does, for every fault |
| AtomicSave.WritersNeverShareTemps | src/persist.rs:475-480 | writers at work never share a temporary file |
| AtomicSave.StepKeepsSound | src/persist.rs:457-525 | every step of every writer, failure and crash keeps names distinct, temporary files intact and the destination whole |
| AtomicSave.DestinationIsWhole | src/persist.rs:457-525 | at every point of every run the destination is the original or one writer's complete bytes |
| AtomicSave.RunNeverSharesTemps | src/persist.rs:475-480 | also when process ids come round again |
| AtomicSave.RenameIsComplete | src/persist.rs:503-517 | a rename finds its file, complete, however the others are interleaved |
| AtomicSave.FinishedRunLeavesNoTemps | src/persist.rs:517-524 | when all writers have returned, no temporary file is left that was not there before |
| Daemon.PrecedesIsTotal | src/daemon.rs:503-515 | of two different versions exactly one precedes the other |
| Daemon.PrecedesTransitive | src/daemon.rs:503-515 | precedence is transitive |
| Daemon.PrecedesByFirstDifference | src/daemon.rs:503-515 | the first of major, minor and patch number that differs decides; then pre-release identifiers by their first difference: numbers as numbers, below texts, those bytewise, a beginning before the longer list, none at all last |
| Daemon.PendingIffOlder | src/daemon.rs:479-516 | a release may retire a running daemon exactly when that is an older one of the same install |
| Daemon.ReleaseRetiresByFirstDifference | src/daemon.rs:479-516 | of two releases of an install the second may retire the first exactly when both folder names are versions and the first comes before, by that first difference |
| Daemon.OnlyReleasesRetire | src/daemon.rs:485-493 | what may retire something is laid out as a release |
| Daemon.OlderIsStrictOrder | src/daemon.rs:479-516 | on the daemons of one install the decision is a strict order |
| Daemon.ReleasesAreOrdered | src/daemon.rs:503-515 | of two releases of different versions exactly one may retire the other |
| Daemon.ReleaseNeverGoesBack | src/daemon.rs:285-300 | while no daemon exits the running release never goes back, whatever mix of versions is launched |
| Daemon.LaunchBringsForward | src/daemon.rs:285-315 | what a launch does: start the daemon of its version or its sibling, replace an older one that is willing, or leave what runs; one told to use another daemon retires nothing |
| Daemon.RetirementsAreBounded | src/daemon.rs:350-388 | between two exits there are at most as many retirements as installed releases, and one more if the program lies in another install's release folder |
| Daemon.NestedRetiresOneMore | src/daemon.rs:481-498 | for every program that lies there, a run with one retirement and no release installed |
| Daemon.BoundHoldsIffNotNested | src/daemon.rs:350-388 | in every run at most as many retirements as installed releases, if and only if the program does not lie there |
| Daemon.StrangersStay | src/daemon.rs:479-502 | a running daemon that is not of the install stays, except exactly when the program is not told otherwise, its own version is not installed, and it lies in a release folder of that daemon's install under which the daemon is an older one |
| Daemon.StrangersAlwaysStayIffNotNested | src/daemon.rs:479-502 | no launch ever retires a daemon that is not of its install, if and only if the program does not lie in another install's release folder |

## Left out

- Counters and generations are natural numbers: wrapping of 64-bit integers is not modelled.
- The explorer's `active` and `keyboard_focus` fields, its row ids and clipboard paths: no other field depends on them.
- Reading directories, canonical paths and the order in which a directory lists its entries: the results are parameters, of the shape a directory read gives.
- What user actions do outside `src/explorer.rs` (expanding, collapsing, starting a load, selecting a row) is modelled as steps of a run, each allowed only where a current row shows it; a click on rows rendered before the last change is not modelled.
- The character tables behind lower-casing and `is_control` in type-ahead, and behind the label order of the palette, are parameters.
- ExplorerObject.Explorer.RefreshTargets: gives the targets as a map; the order of the list is not stated.
- The palette's tables of actions, its row builders, display labels, empty states and group titles.
- PaletteRank.FirstRowHasBestTier: is about the modes that `filter_and_rank` ranks; rows of Files mode come ranked by the file index.
- QuickOpen.RankCounted: sorts by a functional stable sort; sorting in place is not modelled. The same holds for the palette's ranking and the index's sort and dedup.
- Running `git` and reading the file system for the index: the records and the tree are parameters; lossy decoding of names is taken as done.
- The terminal emulator: processing a chunk is any function of the state and the chunk; `PtyPipeline.ChunkingDoesNotMatter` assumes it reads bytewise. Cancelling a stream and the titles, bells, replies and notifications of a batch are left out.
- While a pane's terminal is not mounted the consumer drops the chunk it holds; the runs include this and the stream properties say where they exclude it.
- Readers.ReaderRegistry.RegisterReader: registrations of one pane are taken one at a time, as callers that hold the state lock make them; the framework's keeping, starting and cancelling of streams is as the comments in `build_subscriptions` describe it.
- The samplers of slow frames and of dropped glyphs: they space their records by the same exchange, but keep no count.
- A telemetry queue that is full or gone drops the report; that is outside `Sampler.NothingIsLost`.
- Creating the log's directory, file permissions, and failures to tell one file operation from a stop at it.
- The Markdown parser itself: events are a parameter, with headings in the order of the text.
- Heading anchors in the preview: the code does not keep them unique, and nothing else depends on them.
- MarkdownBlocks.Converter.AppendItems: an item's blocks are held in an entry block of the list instead of a nested list.
- Layout.StripRow: edits the panes and shares of a row as local values which are then put back; shares are real numbers, so rounding is not modelled.
- AtomicSave.Directory.AtomicWrite: file permissions, the durability that syncing gives, and the two system calls of the other platform are one atomic replacement here.
- Daemon.PendingIffOlder: build metadata is abstracted, so versions that differ in nothing else are one version; parsing a folder's name is a parameter.
- Uninstalling a release while daemons run: installed releases only grow in a run.
- Retries, timeouts and two launchers at once in `connect_or_spawn` and `probe_daemon`: launches are taken one at a time.
