# Verified model of the video analytics stack

This project models, in Dafny, the parts of the repository whose correctness is hardest to see from the code: the
Jonker-Volgenant assignment solver and the ByteTrack tracker that rests on it, the TOML text layer, the buffer ownership
of the msgpack unpacker, the blocking queue between pipeline threads, and the compositor's tile grid. Every theorem is
stated for all inputs, all runs or all interleavings. `dafny verify dfyconfig.toml` checks the whole project.

## How the source is modelled

* **Assignment solver.** The three phases keep their loops and their shared arrays `x`, `y`, `v`, `free_rows`, `pred`,
  `cols`, `d`. Costs and prices are reals. What carries the proof is `y`: it is injective and `x` agrees with it on every
  assigned row, while `x` of a displaced row may be stale (`Assignment.Consistent`); the rows still on the free list are
  exactly those no column points to (`Assignment.FreeRows`); and assigned rows sit on the minimum of cost minus price
  (`Assignment.RowsMinimal`). The permutation results hold for every matrix. Optimality is proved for matrices the
  sentinel `LARGE` is safe for (`Assignment.WithinSentinel`); the tracker's costs are among them, because `calcIoU` lies
  in [0, 1]. That bound turns out to need no assumption on box sizes.
* **Loops and their functions.** Each phase is also a function of what it starts from (`ColumnReduction.Reduced`,
  `RowReduction.RowsReduced`, `PathSearch.PathOf`, `Augmentation.AugmentAll`, together `Lapjv.Solved`), ties included: which
  of two equal rows or columns the code prefers decides whether it throws. The methods are proved equal to these functions,
  and what the solver is for is proved about the functions.
* **The check of line 302 of lapjv.cpp.** `throw` is an outcome, fixed by the cost matrix: it is raised exactly when the
  last augmenting path uses all n columns. That path is legal: the assignment the exception throws away is complete and,
  within the sentinel, optimal. `ThrowingInput.OptimalYetThrown` follows a 4x4 matrix through all three phases to the throw.
  On the other side, a matrix with two equal rows or two equal columns never throws, and neither does any with two rows;
  every matrix the tracker builds is of one of these kinds, so the tracker's assignments never throw while its limit is
  moderate (`Association.Moderate`).
* **Tracker.** `STrack` and `BYTETracker` are classes; tracks are shared objects. A detection carries the index of the
  object it came from, which is how "one detection, one track" is stated. The Kalman filter is left out: `update` and
  `activate` may leave any box behind. (`predict` touches the filter's mean only, not the box the distances are computed
  from.) `STrack.h` gives `reActivate` a negative default id, so a revived track keeps its own. A frame's account of who was
  matched with what is about a snapshot of all boxes and objects as the frame begins (`Tracker.Plan`); distances of all
  three rounds are distances of those boxes, since a round only changes tracks that no later round looks at.
  What a frame does to the lists is one predicate over sets (`Tracker.Carried`); whole runs are sequences of frames that
  hand their lists on (`Turns.Successive`), about which the retention of lost tracks is proved.
* **TOML strings.** The combinators are one interpreter (`Combinators.Invoke`) over a mutable location, proved against a
  mathematical meaning of grammars; the lexer's terms are values of that grammar type. Strings are byte sequences. A
  second account, from the writer's side and without the lexer, says what may be spelled how (`StringSpelling.Piece`);
  the two are proved to agree.
* **TOML tables.** Tables are objects, arrays are values inside their entries. Statements about what is defined are about
  snapshots of the heap and paths through it; whether an insertion succeeds is a function of the snapshot and of the
  region texts (`TableInsertion.Verdict`). Where no table is shared, as when values are copied, an insertion changes
  nothing but what lies on or below its own path.
* **msgpack.** Memory is explicit: a map from addresses to counted buffers and one from addresses to zones. An object's
  pointer records the bytes it was created for, so "no dangling pointer" is "the bytes can still be read there".
* **Queue.** A state machine over the atomic steps of any number of threads around one mutex and two condition variables,
  with spurious wake-ups, and with a separate step between changing the queue and notifying.
* **Grid.** The drawing loop writes into a two-dimensional frame; a pixel records which camera it shows.

Where a proof would otherwise drown in definitions, `hide` statements keep them folded; the lemma called next says what
is needed of them.

## Model

| member | source | states |
|---|---|---|
| Permutations.SumOfPermutation | external/ByteTrack-cpp-main/src/lapjv.cpp:313-335 | the terms of a sum may be taken in the order of any permutation, the step that makes prices cancel |
| Assignment.PricesCertifyOptimality | external/ByteTrack-cpp-main/src/lapjv.cpp:313-335 | weak duality: if some prices put every assigned row on its minimum of cost minus price, no permutation is cheaper than the assignment |
| Assignment.NoFreeRows | external/ByteTrack-cpp-main/src/lapjv.cpp:313-335 | once every row has a column, x and y are mutually inverse permutations, stale entries of x notwithstanding |
| ColumnReduction.ColumnMinima | external/ByteTrack-cpp-main/src/lapjv.cpp:29-42 | v and y hold the minimum of every column, capped at LARGE, and the first row attaining it |
| ColumnReduction.AssignColumns | external/ByteTrack-cpp-main/src/lapjv.cpp:43-58 | each row keeps exactly one of the columns it is the minimum of, the last one, the others are released, and `unique` says which rows have only one |
| ColumnReduction.TransferKeepsPriced | external/ByteTrack-cpp-main/src/lapjv.cpp:59-78 | lowering the prices of single columns by the second-best reduced cost keeps every assigned row on its minimum |
| ColumnReduction.ReducedIsPriced | external/ByteTrack-cpp-main/src/lapjv.cpp:23-81 | the phase makes x and y consistent, lists exactly the rows without a column, and establishes the price invariant for costs within the sentinel |
| ColumnReduction.Reduce | external/ByteTrack-cpp-main/src/lapjv.cpp:23-81 | the in-place phase leaves exactly that state |
| RowReduction.ScanFindsTwoBest | external/ByteTrack-cpp-main/src/lapjv.cpp:102-120 | the scan of a free row finds its two smallest reduced costs over all columns; the sentinel decides no comparison |
| RowReduction.FreeRowBelowSentinel | external/ByteTrack-cpp-main/src/lapjv.cpp:102-120 | while a row is free, no reduced cost it sees reaches LARGE |
| RowReduction.ChoiceKeepsPriced | external/ByteTrack-cpp-main/src/lapjv.cpp:121-147 | one round, whichever branch it takes, keeps all assigned rows on their minima and unassigned columns unmoved |
| RowReduction.Reassign | external/ByteTrack-cpp-main/src/lapjv.cpp:146-147 | giving a column to a free row frees exactly the row that held it |
| RowReduction.Relist | external/ByteTrack-cpp-main/src/lapjv.cpp:124-145 | the in-place compaction of free_rows never overwrites an entry still to be read: the rows given up and the rows to do are the lists they should be |
| RowReduction.RowsReducedIsPriced | external/ByteTrack-cpp-main/src/lapjv.cpp:86-150 | the phase keeps consistency and the price invariant, lists the rows still free without repetition, and stops within n times the number of free rows despite putting rows back |
| RowReduction.ReduceRows | external/ByteTrack-cpp-main/src/lapjv.cpp:86-150 | the in-place phase leaves exactly that state, with the still-free rows at the front of the list, in exactly that many rounds |
| ShortestPath.FindSmallest | external/ByteTrack-cpp-main/src/lapjv.cpp:155-171 | all columns at the least distance are moved to the front of the to-do part, by swaps that keep cols a permutation |
| ShortestPath.ScanFromKeepsScanning | external/ByteTrack-cpp-main/src/lapjv.cpp:186-205 | after the inner loop no column can be reached more cheaply through the column scanned, or the search has stopped at an unassigned column at the current distance; each column hangs off the first row that reached it at its distance |
| ShortestPath.ScanColumn | external/ByteTrack-cpp-main/src/lapjv.cpp:186-205 | the in-place inner loop is that scan, early stop included |
| ShortestPath.ScanBatchKeepsPartway | external/ByteTrack-cpp-main/src/lapjv.cpp:176-210 | a whole batch, which may grow while it is scanned, is relaxed, or the search stops at an unassigned column |
| ShortestPath.Scan | external/ByteTrack-cpp-main/src/lapjv.cpp:176-210 | the in-place scan of a batch is that one |
| PathSearch.MovedPricesKeepMinima | external/ByteTrack-cpp-main/src/lapjv.cpp:258-264 | the price update keeps every assigned row on its row minimum |
| PathSearch.TreeIsTight | external/ByteTrack-cpp-main/src/lapjv.cpp:258-264 | under the new prices every edge of the search tree lies on a row minimum, so reassigning along it is free |
| PathSearch.SearchEnds | external/ByteTrack-cpp-main/src/lapjv.cpp:234-256 | with an unassigned column left the search ends at one, and its distances are settled |
| PathSearch.PathIsTight | external/ByteTrack-cpp-main/src/lapjv.cpp:219-270 | the found column has a tree leading to it from the free row; the new prices keep old rows and tree edges minimal, rise nowhere, and leave unassigned columns alone |
| PathSearch.FindPath | external/ByteTrack-cpp-main/src/lapjv.cpp:219-270 | the in-place search finds exactly that path, and leaves exactly those prices and predecessors |
| Augmentation.WalkArrives | external/ByteTrack-cpp-main/src/lapjv.cpp:297-305 | the walk visits distinct columns, at most n, moving one row into each; it gives the free row a column and takes none from any other row |
| Augmentation.WalkWritesPredecessors | external/ByteTrack-cpp-main/src/lapjv.cpp:297-305 | every column the walk passes ends up with its predecessor |
| Augmentation.Walk | external/ByteTrack-cpp-main/src/lapjv.cpp:297-305 | the in-place walk is that one, and it throws exactly when it has used all n columns |
| Augmentation.FullPathCompletes | external/ByteTrack-cpp-main/src/lapjv.cpp:302-304 | a walk over all n columns leaves no row free |
| Augmentation.AugmentAllCompletes | external/ByteTrack-cpp-main/src/lapjv.cpp:275-309 | whether or not the last walk is too long, every row has a column in the end, and rows are on their minima if they began so |
| Augmentation.Augment | external/ByteTrack-cpp-main/src/lapjv.cpp:275-309 | the in-place phase ends with that assignment and those prices, and throws exactly when its last walk used all n columns |
| Lapjv.SolvedIsOptimal | external/ByteTrack-cpp-main/src/lapjv.cpp:313-335 | for every matrix the solver's x and y are mutually inverse permutations, of minimal total cost if the matrix is within the sentinel, even where it throws |
| Lapjv.Solve | external/ByteTrack-cpp-main/src/lapjv.cpp:313-335 | x and y end as the permutations `Solved` gives for the matrix, with the properties above; the exception is raised exactly when the last augmenting path of `Solved` uses all n columns |
| ThrowingInput.OptimalYetThrown | external/ByteTrack-cpp-main/src/lapjv.cpp:302-304 | on a 4x4 matrix of entries 0, 1 and 2 all three phases run and the check throws, with an optimal assignment already in x |
| FullPath.OneTwinPrecedes | external/ByteTrack-cpp-main/src/lapjv.cpp:176-256 | of two equal rows at most one is ever a predecessor in a search that has scanned everything |
| FullPath.TwinColumnsTogether | external/ByteTrack-cpp-main/src/lapjv.cpp:176-256 | two equal columns of equal price get the same predecessor in such a search |
| FullPath.TwinPrices | external/ByteTrack-cpp-main/src/lapjv.cpp:23-270 | equal columns have equal prices whenever a search starts |
| FullPath.TwinsNeverThrow | external/ByteTrack-cpp-main/src/lapjv.cpp:275-335 | within the sentinel, the solver does not throw on a matrix with two equal rows or two equal columns |
| FullPath.TwoRowsNeverThrow | external/ByteTrack-cpp-main/src/lapjv.cpp:86-150 | with two rows, row reduction leaves no row for the search, so the solver does not throw |
| FullPath.ExtendedNeverThrows | external/ByteTrack-cpp-main/src/BYTETracker.cpp:461-540 | within the sentinel, solving the tracker's extended problem never throws |
| Threshold.CompleteIsPermutation | external/ByteTrack-cpp-main/src/BYTETracker.cpp:461-515 | every partial matching is the cut of a permutation of the extended square problem |
| Threshold.CompleteCost | external/ByteTrack-cpp-main/src/BYTETracker.cpp:461-515 | that permutation costs the matched cost plus half the limit per unmatched row and column |
| Threshold.SameCutSameCost | external/ByteTrack-cpp-main/src/BYTETracker.cpp:461-515 | all square solutions with the same cut cost the same |
| Threshold.CutIsBest | external/ByteTrack-cpp-main/src/BYTETracker.cpp:461-557 | an optimal square solution, cut back, minimises matched cost plus half the limit per unmatched row and column over all partial matchings |
| Threshold.KeptPairsWithinLimit | external/ByteTrack-cpp-main/src/BYTETracker.cpp:461-557 | no kept pair costs more than the limit |
| Threshold.ExtendedWithinSentinel | external/ByteTrack-cpp-main/src/BYTETracker.cpp:461-515 | costs and limits below a quarter of LARGE keep the extended problem within the sentinel |
| LinearAssignment.Extend | external/ByteTrack-cpp-main/src/BYTETracker.cpp:463-515 | the square matrix is fill, zero between dummies and the given costs in the corner, and fill is half the limit |
| LinearAssignment.ExecLapjv | external/ByteTrack-cpp-main/src/BYTETracker.cpp:431-587 | within the sentinel it does not throw; rowsol and colsol describe one matching from both sides, it is a best one, and the returned number is the cost of the kept pairs |
| LinearAssignment.SortedPartitions | external/ByteTrack-cpp-main/src/BYTETracker.cpp:350-373 | matches and the two unmatched lists partition both index sets, each list in ascending order |
| LinearAssignment.Assign | external/ByteTrack-cpp-main/src/BYTETracker.cpp:329-374 | within the sentinel it does not throw; the partition, also for empty sides, with the matches spelling out a best matching |
| Rects.CalcIoU | external/ByteTrack-cpp-main/src/Rect.cpp:111-126 | the ratio lies in [0, 1] for all boxes, negative sizes included; its value is what `IoUCountsCells` says |
| Rects.IoUSymmetric | external/ByteTrack-cpp-main/src/Rect.cpp:111-126 | overlap does not depend on the order of the boxes |
| Rects.IoUWithItself | external/ByteTrack-cpp-main/src/Rect.cpp:111-126 | a box that covers a pixel overlaps itself completely |
| Rects.IoUCountsCells | external/ByteTrack-cpp-main/src/Rect.cpp:111-126 | what the ratio is: for boxes with edges on a grid of cells of any side, whatever their sizes, the number of cells in both boxes over the number of cells in either one, counted as sets; with side one these are the pixels |
| Rects.ZeroIffApart | external/ByteTrack-cpp-main/src/Rect.cpp:111-126 | for all boxes, the ratio is zero exactly when in one direction one box ends before the other begins, or is empty |
| Tracks.STrack.Activate | external/ByteTrack-cpp-main/src/STrack.cpp:63-78 | the whole new state of a started track; it is confirmed at once only in frame 1 |
| Tracks.STrack.ReActivate | external/ByteTrack-cpp-main/src/STrack.cpp:80-95 | the whole new state of a revived track; its id changes only for a non-negative new id |
| Tracks.STrack.Update | external/ByteTrack-cpp-main/src/STrack.cpp:106-117 | the whole new state of a matched track; id and birth frame stay |
| TrackLists.JointStracks | external/ByteTrack-cpp-main/src/BYTETracker.cpp:228-248 | the first list in front, then one track for each further id of the second; with unique ids nobody is left out |
| TrackLists.SubStracks | external/ByteTrack-cpp-main/src/BYTETracker.cpp:250-276 | one track for each id of the first list that the second does not have, ascending by id; with unique ids exactly the list difference |
| Duplicates.CalcIouDistance | external/ByteTrack-cpp-main/src/BYTETracker.cpp:376-429 | the full matrix of one minus overlap, and an empty one as soon as one side is empty |
| Duplicates.NoClosePairKept | external/ByteTrack-cpp-main/src/BYTETracker.cpp:278-327 | of two tracks closer than 0.15 at least one is dropped |
| Duplicates.Survivor | external/ByteTrack-cpp-main/src/BYTETracker.cpp:278-327 | every track is linked to a kept one by a chain of overlapping pairs of never decreasing age |
| Duplicates.RemoveDuplicateStracks | external/ByteTrack-cpp-main/src/BYTETracker.cpp:278-327 | both lists, in order, without exactly the tracks that yield to an overlapping one |
| Duplicates.DeduplicationKeepsSurvivor | external/ByteTrack-cpp-main/src/BYTETracker.cpp:278-327 | no kept pair is closer than 0.15, and every track has a surviving chain of at least its age |
| Association.MakeDetections | external/ByteTrack-cpp-main/src/BYTETracker.cpp:34-49 | one detection per object, split by score, in the order of the objects; each object belongs to exactly one of them |
| Association.MatchTracks | external/ByteTrack-cpp-main/src/BYTETracker.cpp:86-88 | with a moderate limit it does not throw, the matches are a best matching of the box distances, and no matched pair is farther apart than the limit |
| Association.GivenIsNear | external/ByteTrack-cpp-main/src/BYTETracker.cpp:86-104 | no track is given a detection farther from it than the limit |
| Association.PartitionSplits | external/ByteTrack-cpp-main/src/BYTETracker.cpp:106-117 | every track is either matched or in the unmatched list, and so is every detection |
| Association.GivenByMatches | external/ByteTrack-cpp-main/src/BYTETracker.cpp:90-104 | each matched track is given the very detection it is matched with |
| Association.Associate | external/ByteTrack-cpp-main/src/BYTETracker.cpp:90-104 | exactly the matched tracks are refreshed, each from its own detection; those that were tracked go to one list, the others to the other; nobody else changes; each object still belongs to one track or detection |
| Rounds.RoundOne | external/ByteTrack-cpp-main/src/BYTETracker.cpp:82-118 | round one does what the best matching of the recorded boxes' distances says, gives each matched track the object of its detection, and hands exactly the unmatched detections and the unmatched tracks that are still tracked to the next rounds; it does not throw if its limit is moderate |
| Rounds.RoundTwo | external/ByteTrack-cpp-main/src/BYTETracker.cpp:123-156 | round two likewise with threshold 0.5, without ever throwing; exactly its unmatched tracks become lost |
| Rounds.RoundThree | external/ByteTrack-cpp-main/src/BYTETracker.cpp:161-196 | round three likewise with threshold 0.7, without ever throwing; exactly its unmatched unconfirmed tracks are removed, exactly the left-over detections of high score start tracks, in their order, under consecutive new ids |
| Tracker.BYTETracker.RunRounds | external/ByteTrack-cpp-main/src/BYTETracker.cpp:31-196 | the three rounds chained over the boxes recorded as the frame begins: the detections are exactly the frame's objects, split by score; each round is a best matching of its own distances; every track seen carries the object of the detection it took, and exactly the left-over detections whose objects score high start tracks; every track goes on, is lost or is removed, and every detection above both thresholds is used |
| Tracker.SeenTook | external/ByteTrack-cpp-main/src/BYTETracker.cpp:86-195 | exactly the tracks seen took a detection |
| Tracker.TookIsNear | external/ByteTrack-cpp-main/src/BYTETracker.cpp:86-195 | no track takes a detection farther from it than the limit of its round, and each round draws on its own tracks and detections; a new track starts at its own detection |
| Tracker.BornInOrder | external/ByteTrack-cpp-main/src/BYTETracker.cpp:184-195 | tracks born in one frame come, and so get their ids, in the order of their objects |
| Tracker.BYTETracker.MergeLists | external/ByteTrack-cpp-main/src/BYTETracker.cpp:199-210 | the new lists as sets: tracked is everybody seen; lost is lost before or just now, not seen, and not in the old removed list; removed is the old removed list, the unconfirmed tracks just given up, and exactly the unseen lost tracks that are overdue; lost tracks keep the frame they were last seen in and the retention bound |
| Tracker.BYTETracker.Update | external/ByteTrack-cpp-main/src/BYTETracker.cpp:29-227 | with a moderate limit no frame throws; one frame keeps the run invariant (unique ids in 1..count, tracked seen this frame, lost tracks at most max(max_time_lost, 1) + 1 frames old and removed exactly when on the removed list); it goes by a plan as for the rounds, new ids included; before de-duplication the lists are exactly: tracked, everybody seen; lost, the confirmed and lost tracks not seen and not on the old removed list; removed, the old list, the unconfirmed tracks not seen, and the unseen lost tracks that are overdue (`Tracker.Carried`); de-duplication only takes away, and only tracks that give way to an overlapping one; a track is confirmed from its second sighting on, or at once in frame 1; the output is the confirmed tracks in the tracker's order; ids never change |
| Tracker.AllSourced | external/ByteTrack-cpp-main/src/BYTETracker.cpp:208-226 | tracks with pairwise different objects cannot outnumber the objects |
| Tracker.DroppedOverlap | external/ByteTrack-cpp-main/src/BYTETracker.cpp:212-215 | only a track that overlaps one of the other list, with the age rule of the code, is missing from the kept lists |
| Tracker.BYTETracker.Accounted | external/ByteTrack-cpp-main/src/BYTETracker.cpp:158-210 | every object above both thresholds belongs to a track that is tracked after the rounds |
| Turns.FollowsOn | external/ByteTrack-cpp-main/src/BYTETracker.cpp:29-227 | what a frame finds is what the one before left: the lists are handed on, and a lost track's last sighting does not change |
| Turns.MatchableUntilTimeIsUp | external/ByteTrack-cpp-main/src/BYTETracker.cpp:199-210 | over any run of frames: a confirmed track that is missed, not on the removed list and not dropped as a duplicate stays among the lost ones, where each next frame can find it, for exactly max(max_time_lost, 1) + 1 frames; it is on the removed list exactly from the last of them on |
| Turns.ConfirmedIsRecurring | external/ByteTrack-cpp-main/src/BYTETracker.cpp:217-224 | the confirmed tracks of a frame are exactly those known before it, in the first frame all |
| Turns.AllAccounted | external/ByteTrack-cpp-main/src/BYTETracker.cpp:158-226 | every object above both thresholds is one a track was seen as, and that track is shown unless it is new in a later frame than the first or gives way to an overlapping lost one |
| Session.DisplaySession.NumberOf | src/video_server.cpp:252-256 | the display map stays an injective numbering onto 1..count: a known id keeps its number, a new one gets the next |
| Session.NumberedKeeps | src/video_server.cpp:252-256 | showing some ids in turn adds exactly the new ones and changes nobody's number |
| Session.DisplaySession.Report | src/video_server.cpp:243-261 | one entry for each track of the output, in order, with its id, number, score and frame; the numbers and the last-detected map end as showing those entries in turn leaves them |
| Session.DisplaySession.ShowFrame | src/video_server.cpp:241-261 | one frame reports exactly the confirmed tracks, in the tracker's order, which are those known before the frame and in the first frame all; ids and objects are pairwise different, each entry carries its track's score and frame; the numbering grows by exactly the ids shown |
| Session.Run | src/video_server.cpp:243-261 | over any run of frames, with a moderate limit, no frame throws and every reachable state is valid; the log of each frame is the list of its confirmed tracks, in order, each as its own object of that frame with its score, under the id it has for the whole run; ids are numbered as they first appear, a track has one number for the whole run and no two share one; the first frame shows every object above both thresholds; the frames follow on each other as `MatchableUntilTimeIsUp` supposes |
| Combinators.Location.Advance | external/toml11-3.7.1/toml/region.hpp:108-114 | the line number stays one plus the newlines before the iterator |
| Combinators.Location.Retrace | external/toml11-3.7.1/toml/region.hpp:115-121 | the same going back |
| Combinators.Location.Reset | external/toml11-3.7.1/toml/region.hpp:122-138 | the same for a jump in either direction |
| Combinators.NewlinesCount | external/toml11-3.7.1/toml/region.hpp:108-138 | the count that goes into the line number is the number of places that hold a line feed |
| Combinators.Invoke | external/toml11-3.7.1/toml/combinator.hpp:56-302 | every grammar without unbounded repetition of something nullable terminates; failure leaves iterator and line number alone, success returns exactly the slice the grammar's meaning matches |
| Combinators.InvokeMany | external/toml11-3.7.1/toml/combinator.hpp:285-302 | the endless loop ends and takes the longest run of matches |
| Combinators.ManyIsMost | external/toml11-3.7.1/toml/combinator.hpp:285-302 | an unlimited repetition takes some number of matches in a row where one more is not to be had |
| Combinators.AtLeastIsMost | external/toml11-3.7.1/toml/combinator.hpp:254-282 | so does a repetition with a least number, which fails exactly below that number |
| StringLexer.BasicProductive | external/toml11-3.7.1/toml/lexer.hpp:121-149 | the basic-string terms satisfy the termination condition |
| StringLexer.MlProductive | external/toml11-3.7.1/toml/lexer.hpp:176-197 | so do the multi-line terms |
| StringLexer.EscapedMatch | external/toml11-3.7.1/toml/lexer.hpp:128-143 | the escape term accepts a backslash and one of seven letters, or u with four or U with eight hexadecimal digits, and nothing else |
| StringLexer.MlItemMatch | external/toml11-3.7.1/toml/lexer.hpp:181-194 | what one item of a multi-line body is, with quotation marks allowed unless three stand in a row |
| StringLexer.MlCloseMatch | external/toml11-3.7.1/toml/lexer.hpp:176-180 | the closing delimiter takes three to five quotation marks, as many as there are |
| StringLexer.WsMatch | external/toml11-3.7.1/toml/lexer.hpp:21-22 | white space takes the longest run of blanks, if there is one |
| Utf8.CodeMatch | external/toml11-3.7.1/toml/lexer.hpp:262-289 | the lexer term accepts exactly one well-formed UTF-8 sequence |
| Utf8.ValidIffWellCoded | external/toml11-3.7.1/toml/lexer.hpp:262-289 | a byte string splits into such sequences if and only if it is the encoding, by section 3 of RFC 3629, of some sequence of scalar values |
| Utf8.CheckUtf8Validity | external/toml11-3.7.1/toml/parser.hpp:367-378 | the check answers -1 exactly on valid UTF-8 |
| Utf8.EncodeRead | external/toml11-3.7.1/toml/parser.hpp:269-309 | reading the bits of an encoding back, six from each byte after the first, gives the code point, in the shortest form that holds it |
| StringParser.ReadUtf8Codepoint | external/toml11-3.7.1/toml/parser.hpp:255-310 | the escape's digits, of which `StringSpelling.DigitsRead` says the value, give the encoding of that code point; surrogates and numbers above 0x10FFFF throw |
| StringParser.ParseEscapeSequence | external/toml11-3.7.1/toml/parser.hpp:312-365 | value, error and exception of every escape, and how far the location moves in each case |
| StringParser.ParseBasicString | external/toml11-3.7.1/toml/parser.hpp:473-537 | the loop over the body decodes exactly the matched token, never reaches the end of the region, and moves past nothing else |
| StringSpelling.DigitsRead | external/toml11-3.7.1/toml/parser.hpp:257-260 | the digits a number is written with, upper or lower case each, read as that number |
| StringSpelling.PieceParses | external/toml11-3.7.1/toml/parser.hpp:312-365 | from the writer's side: each of the seven letter escapes, and each code point written with four or eight digits of either case, is one escape sequence that stands for what it was written for; code points that are no scalar values throw |
| StringSpelling.SpellingParses | external/toml11-3.7.1/toml/parser.hpp:473-537 | any sequence of plain bytes and escapes between quotation marks parses, wherever it stands, to exactly the text it spells and consumes exactly its bytes, provided all its code points are scalar values and it is valid UTF-8; otherwise it throws |
| StringSpelling.ErrIffNoSpelling | external/toml11-3.7.1/toml/parser.hpp:473-537 | the parser gives an error, leaving the place to other parsers, exactly where no such spelling stands |
| MlStringParser.ParseMlBasicString | external/toml11-3.7.1/toml/parser.hpp:380-471 | the same for multi-line strings: the newline after the opening delimiter and escaped newlines drop out, surplus closing quotation marks join the text |
| MlStringParser.ParseString | external/toml11-3.7.1/toml/parser.hpp:669-698 | three quotation marks select the multi-line parser |
| StringPrinter.EscapeBasicString | external/toml11-3.7.1/toml/serializer.hpp:429-460 | the loop prints byte by byte as `BasicEscaped` says |
| StringPrinter.BreakFirst | external/toml11-3.7.1/toml/serializer.hpp:518-523 | replacing the first run of three quotation marks does not change what breaking up all runs in one pass gives |
| StringPrinter.BreakingRemovesDouble | external/toml11-3.7.1/toml/serializer.hpp:518-523 | each replacement removes one pair of adjacent quotation marks, so the search-and-replace loop ends |
| StringPrinter.EscapeMlBasicString | external/toml11-3.7.1/toml/serializer.hpp:462-525 | the search-and-replace loop ends, equals a single pass, and leaves no three quotation marks in a row |
| StringPrinter.PrintString | external/toml11-3.7.1/toml/serializer.hpp:179-208 | which form is printed for which text and width; `Printed` says when the line is split, which is not modelled |
| StringSpelling.PrintedIsShortest | external/toml11-3.7.1/toml/serializer.hpp:429-460 | of all spellings of a byte the printer takes a shortest one, except that a tab is always escaped |
| StringRoundTrip.BreakRunsNoTriple | external/toml11-3.7.1/toml/serializer.hpp:518-523 | no three quotation marks in a row remain, not even across the place where a pass resumes |
| StringRoundTrip.EscapedValid | external/toml11-3.7.1/toml/serializer.hpp:429-525 | escaping valid UTF-8 gives valid UTF-8 |
| StringRoundTrip.BasicRoundTrip | external/toml11-3.7.1/toml/parser.hpp:473-537 | the printed one-line form of any valid UTF-8 text parses back to it, consuming exactly the token, wherever it stands and whatever follows |
| StringRoundTrip.MlBodyRoundTrip | external/toml11-3.7.1/toml/parser.hpp:399-443 | the printed multi-line body decodes to the text, quotation marks at its very end included |
| StringRoundTrip.MlRoundTrip | external/toml11-3.7.1/toml/parser.hpp:380-471 | the printed multi-line form, in both layouts, parses back to the text |
| StringRoundTrip.PrintedStringParses | external/toml11-3.7.1/toml/serializer.hpp:179-208 | for every valid UTF-8 text and every width for which the printer does not split the line, parsing what was printed gives the text back and consumes exactly the token, provided no quotation mark follows it |
| TomlTable.ResolveGrows | external/toml11-3.7.1/toml/parser.hpp:1411-1689 | when no entry is lost or replaced, every path still leads to the same scalar or table, or to an array that has only been appended to |
| TableInsertion.PutKeepsAll | external/toml11-3.7.1/toml/parser.hpp:1411-1689 | putting an entry at a free key, or a longer array in place of a shorter one, loses nothing and touches one table |
| TableInsertion.Merge | external/toml11-3.7.1/toml/parser.hpp:1579-1593 | the merging loop succeeds exactly when the tables share no key, and then the table is the union; a failed merge replaces nothing |
| TableInsertion.AppendTable | external/toml11-3.7.1/toml/parser.hpp:1437-1557 | an array of tables is appended to exactly if the key is free or holds a non-empty array whose first element was opened by a [[header]] |
| TableInsertion.InsertLast | external/toml11-3.7.1/toml/parser.hpp:1432-1621 | what the last key accepts, exactly, and where the value is found afterwards |
| TableInsertion.Descend | external/toml11-3.7.1/toml/parser.hpp:1622-1686 | which values a path may go through, exactly; inline tables are closed; an empty array on the path is read past its end |
| TableInsertion.EmptyAccepts | external/toml11-3.7.1/toml/parser.hpp:1622-1649 | in an empty document every key can be defined, with implicit tables on the way, unless the keys stand in the text of an inline table |
| TableInsertion.InlineIsClosed | external/toml11-3.7.1/toml/parser.hpp:1636-1655 | no key leads into a table whose text begins with a brace |
| TableInsertion.HeadersAppend | external/toml11-3.7.1/toml/parser.hpp:1437-1520 | a [[header]] is accepted at a taken key exactly if the value there is an array whose first element's text begins with two brackets |
| TableInsertion.HeaderOpensOnce | external/toml11-3.7.1/toml/parser.hpp:1290-1391 | a [header] opens a table that another header has made unless they share a key; the same header twice is refused |
| TableInsertion.DottedStaysClosed | external/toml11-3.7.1/toml/parser.hpp:1290-1391 | a table made by dotted keys is not opened by a [header], and an inline one not at all |
| TableInsertion.NoSecondDefinition | external/toml11-3.7.1/toml/parser.hpp:1579-1621 | what its keys lead to cannot be defined again by anything but a table |
| TomlTable.Diverges | external/toml11-3.7.1/toml/parser.hpp:1411-1689 | a path whose value has changed goes into the changed table, by a key that has changed there |
| TableInsertion.InsertedOnlyAt | external/toml11-3.7.1/toml/parser.hpp:1411-1689 | where no table is reached along two paths, every path whose value has changed, or that has become defined, is the inserted one, goes through it, or is gone through by it |
| TableInsertion.InsertNestedKey | external/toml11-3.7.1/toml/parser.hpp:1411-1689 | its outcome, return, exception or read past the end of an empty array, is `Verdict`, a function of the tables and region texts as they were; whether it returns or throws, everything defined before is still defined and at most one old table changes; on return the value, or each member of a merged table, is found at its key, where nothing was defined before; new and merged tables carry the key's region, all others keep theirs; with no table shared, nothing changes but what lies on or below its path |
| TableInsertion.DefineAll | external/toml11-3.7.1/toml/parser.hpp:2265-2306 | definitions are inserted one after the other, each accepted by the verdict on the state the ones before left, up to the first that this verdict refuses; after it every value inserted by any of them is still found at its key |
| MsgpackMemory.CountedPop | external/msgpack-3.2.0/src/unpack.c:344-350 | running a pending finalizer keeps every count equal to the references there are, and frees a buffer exactly with its last reference |
| MsgpackMemory.SoundPop | external/msgpack-3.2.0/src/unpack.c:344-350 | and takes no buffer from an object of another zone |
| MsgpackMemory.Memory.CallFinalizers | external/msgpack-3.2.0/src/zone.c:107-113 | running a whole finalizer array never touches a freed buffer and leaves all other objects readable |
| MsgpackMemory.Memory.ZoneFree | external/msgpack-3.2.0/src/zone.c:217-222 | freeing a zone releases exactly its references |
| MsgpackUnpacker.Unpacker.constructor | external/msgpack-3.2.0/src/unpack.c:363-399 | a new unpacker owns its buffer with count one |
| MsgpackUnpacker.Unpacker.Feed | external/msgpack-3.2.0/include/msgpack/unpack.h:225-239 | bytes go behind the unparsed ones and disturb no object |
| MsgpackUnpacker.Unpacker.Reference | external/msgpack-3.2.0/src/unpack.c:278-328 | a str, bin or ext object is appended to the current zone, points straight into the buffer and puts it on loan to that zone |
| MsgpackUnpacker.Unpacker.Execute | external/msgpack-3.2.0/src/unpack.c:504-513 | parsing consumes from the front, keeps all objects readable, and appends to the unpacker's zone one object for each text it meets, in order; no other zone changes |
| MsgpackUnpacker.SoleReference | external/msgpack-3.2.0/src/unpack.c:431-441 | count one and nothing on loan means that no live object points into the buffer, so it may be rewound or moved |
| MsgpackUnpacker.Unpacker.ExpandBuffer | external/msgpack-3.2.0/src/unpack.c:429-502 | rewind, realloc or new buffer: the unparsed bytes survive, at least size bytes are free, and every live object still reads its own bytes |
| MsgpackUnpacker.Unpacker.FlushZone | external/msgpack-3.2.0/src/unpack.c:540-552 | the zone gets its own reference exactly if the buffer is on loan to it |
| MsgpackUnpacker.Unpacker.ReleaseZone | external/msgpack-3.2.0/src/unpack.c:520-533 | a zone handed out holds a reference to every buffer its objects point into |
| MsgpackUnpacker.Unpacker.ResetZone | external/msgpack-3.2.0/src/unpack.c:535-538 | clearing the unpacker's zone kills its objects only, drops its references, and keeps the unparsed bytes |
| MsgpackUnpacker.Unpacker.FreeZone | external/msgpack-3.2.0/include/msgpack/unpack.h:257-264 | freeing a result leaves the unpacker and all other results intact |
| MsgpackUnpacker.Unpacker.Destroy | external/msgpack-3.2.0/src/unpack.c:401-406 | results outlive the unpacker |
| MsgpackUnpacker.Unpacker.Next | external/msgpack-3.2.0/src/unpack.c:561-597 | the old result's zone is gone; a complete message comes with a zone of exactly the objects parsed since the last one, in order, which holds the buffers they point into; no other zone changes |
| MsgpackUnpacker.NothingLeaks | external/msgpack-3.2.0/src/unpack.c:344-350 | with the unpacker destroyed and all zones freed, no buffer is left |
| QueueProtocol.DataKept | src/utils/queue_mt.hpp:21-43 | every step keeps first-in-first-out order and the capacity |
| QueueProtocol.WakeUpsKept | src/utils/queue_mt.hpp:21-60 | every step keeps: whoever sleeps un-notified has a false predicate, unless the holder of the mutex is about to notify it |
| QueueProtocol.RunSafe | src/utils/queue_mt.hpp:21-60 | in every state of every interleaving of any number of threads: mutual exclusion, accepted pushes equal pops followed by contents, a positive capacity is never exceeded, no wake-up is lost |
| QueueProtocol.StopLetsAllGo | src/utils/queue_mt.hpp:55-60 | in every run, once a stop has notified, the queue is stopped and no thread sleeps, for good |
| QueueUsers.StepBounded | src/video/gst_app_utils.hpp:186-190 | a size read by the only producer stays an upper bound, one read by the only consumer a lower bound, until it acts on it |
| QueueUsers.ElevenAtMost | src/video_server.cpp:387-389 | in every run the queue holds at most eleven items and neither the producer's push nor the consumer's pop ever blocks |
| CompositorGrid.RoomBesideFocus | src/video_server.cpp:380-383 | with at least one camera the grid is wider than the focus window, so no divisor is zero |
| CompositorGrid.CellInGrid | src/video_server.cpp:407-414 | in any grid with room for all, every camera's cell lies in the grid and outside the focus window |
| CompositorGrid.CellsDiffer | src/video_server.cpp:407-414 | different cameras have different cells |
| CompositorGrid.CellsInOrder | src/video_server.cpp:407-414 | the cameras fill the grid in reading order |
| CompositorGrid.CellReached | src/video_server.cpp:407-414 | no cell outside the focus window is passed over |
| CompositorGrid.LeastGrid | src/video_server.cpp:380-381 | the grid is the smallest square with room for the cameras and the focus window |
| Compositor.TilesApart | src/video_server.cpp:407-417 | no two cameras share a pixel |
| Compositor.TileInFrame | src/video_server.cpp:407-417 | every tile lies inside the output frame |
| Compositor.PushBuffer | src/video_server.cpp:372-417 | after the loop each camera with a new picture shows whole in its own tile, the focus window whole in its corner, and every other pixel is as it was |

## Left out

- Lapjv.Solve: optimality is stated for real costs within the sentinel; rounding of doubles and the `return -1` of a failed allocation are not modelled.
- FullPath.TwinsNeverThrow: for matrices of three and more rows without equal rows or columns the throw is characterised by the last augmenting path only, not by a condition on the entries.
- LinearAssignment.ExecLapjv: the branch for square matrices without extension, which `linearAssignment` never takes, and the empty input, which it never passes, are left out.
- LinearAssignment.Assign: a cost matrix with rows of width zero does not occur; `calcIous` returns an empty matrix instead.
- Tracks.STrack.Update: the Kalman filter's state and the box it computes are arbitrary.
- Association.MatchTracks: nothing but the partition is stated for limits of half of LARGE and more that are not `FLOAT_MAX`, where the sentinel is not known to be safe; the tracker uses 0.5, 0.7 and its configured limit, 0.8 by default.
- Tracker.BYTETracker.Update: says nothing about the tracker after an assignment has thrown, which a moderate limit excludes; the order of the tracked and lost lists is not stated beyond that of the new ids.
- Session.DisplaySession.ShowFrame: boxes and label ids of the entries are left out.
- StringParser.ReadUtf8Codepoint: the bit operations are written as arithmetic.
- MlStringParser.ParseString: literal strings in single quotes are left out, for which no round trip is claimed.
- StringPrinter.PrintString: the splitting of a long line and the literal kind are left out.
- StringRoundTrip.PrintedStringParses: a quotation mark right behind the token is excluded, since the closing delimiter would take it; TOML syntax never has one there.
- TableInsertion.InsertNestedKey: how a region's text reads, as an inline table, a header or dotted keys, is a parameter; a value that is inserted is shared, not copied, so callers must not go on using it; that a document built from unshared values stays unshared is not proved; comments and messages are left out.
- MsgpackUnpacker.Unpacker.Execute: what the parser template consumes and finds is a parameter, of which only the range is known.
- MsgpackUnpacker.Unpacker.ExpandBuffer: allocation succeeds, and realloc always moves; sizes that would wrap around when added are excluded, doubling may wrap.
- MsgpackUnpacker.Unpacker.ResetZone: requires a zone, as the code does when it clears through the pointer.
- Zone chunks, the one-shot `msgpack_unpack` functions, `vrefbuffer.c` and the object printers: their memory is not shared with the unpacker.
- QueueProtocol.RunSafe: fairness, and thus progress, is not stated.
- QueueUsers.ElevenAtMost: `stop` is not called while the pipeline runs.
- CompositorGrid.CeilSqrt: the square root is exact.
- Floating-point numbers, comments and error messages of the TOML layer; getters and type traits.
- GStreamer, OpenCV, swscale, InfluxDB, ZeroMQ, logging, argument parsing and benchmarks: input and output, or thin wrappers.
