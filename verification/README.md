# Verified model of the ZhiXing front end

This project models, in Dafny, the parts of the ZhiXing travel assistant's browser code that hold
state: the streamed answer, the itinerary editor with its catalogue of places, the draft store, the
map preview cache, the merging of progress snapshots and of day plans, and two algorithms of the
views (the route line of a day, and the splitting of an answer into tables and text).

`dafny verify dfyconfig.toml` checks everything.

## How it is built

| file | source | what it is |
|---|---|---|
| `Text.dfy` | | search, splitting, trimming and joining of strings, as the browser does it |
| `ThinkingFilter.dfy` | `frontend/chat-stream.js` | the `<think>` filter as a class, and its whole-text meaning |
| `SseFraming.dfy` | `frontend/chat-stream.js` | blocks, data lines and their contents |
| `ChatRunner.dfy` | `frontend/chat-runner.js` | the callbacks and the read loop of `sendMessage`; whole streams |
| `Journey.dfy` | | stops, segments, days and the saved journey |
| `RouteOptimizer.dfy`, `RouteDistance.dfy`, `OptimizerResults.dfy`, `OptimizingTwice.dfy` | `frontend/journey-editor.js` | the greedy re-ordering of a day, what it takes for near, what it keeps, improves and loses, and when a second one changes the day again |
| `JourneySegments.dfy` | `frontend/app.js` | rebuilding the segments of a day |
| `PoiCatalogue.dfy` | `frontend/journey-poi-utils.js` | places that can be added or can replace a stop |
| `JourneyDraft.dfy`, `SavedJourney.dfy`, `MadeUpIds.dfy` | `frontend/app.js` | writing a plan back into the saved journey; what then stands in its days and its catalogue; the ids made up on the way |
| `JourneyEditor.dfy` | `frontend/journey-editor.js` | the edit actions, as a class and as a function |
| `EditorRuns.dfy`, `PlanIds.dfy`, `CatalogueRuns.dfy`, `StopEdits.dfy`, `EditResults.dfy` | | what every run of actions keeps; when ids stay distinct; deleting and adding again; where each action leaves the stops; what single edits do to segments and undo |
| `DraftStorage.dfy` | `frontend/draft-storage.js` | the write-behind store refines a plain map |
| `PreviewCache.dfy` | `frontend/journey-api.js` | the single-flight cache with a history of its events |
| `FirstSeen.dfy`, `DayPlanMerge.dfy` | `frontend/journey-map-data.js` | merging day plans, keeping the first of every name |
| `GovernanceProgress.dfy` | `frontend/governance-progress.js` | merging snapshots; the whole conversation as a left fold |
| `RoutePolyline.dfy` | `frontend/journey-map-view.js` | the line drawn for a day |
| `LineSplitting.dfy`, `TableHeads.dfy` | `frontend/assistant-renderer.js`, `frontend/app.js` | tables and text groups partition the lines; which two lines start a table |

Code that changes variables or arrays step by step is a class or a method with loops, proved against
a function of its inputs or of the state before; the results are lemmas about that function.

## What came out

- The streamed answer is one function of the whole stream: no way of cutting it into network chunks
  and no schedule of animation frames changes it, and what is on the screen is always a beginning of
  it. `finish()` of the filter never shows anything in a state that can be reached, so its last branch
  and the `visibleTail` branch of the runner are never taken (`ThinkingFilter.FilterChunks`,
  `ChatRunner.StreamingMessage.FinishStream`).
- Stripping is not idempotent. An opening tag in the visible text always has a removed block inside it
  (`ThinkingFilter.VisibleTagStraddlesBlock`), and every way of splitting a tag by a block leaves one
  (`ThinkingFilter.TagAroundBlock`); `<<` shows that a partial tag can be left without any block
  (`ThinkingFilter.PartInFrontOfPart`). One scan of the input, which follows how much of an opening tag the
  visible text ends with, decides both exactly: whether the result has a tag (`ThinkingFilter.VisibleTagIff`)
  and whether stripping again changes it (`ThinkingFilter.StripTwiceIff`).
- The optimizer loses a stop and doubles another exactly when a run of two or more movable stops
  starts behind a stop without a coordinate (`OptimizerResults.OptimizedDayPermutesIff`); the smallest
  case is `OptimizerResults.LostStopExample`. A second click can lose another one
  (`OptimizingTwice.LostAgainExample`); for different stops it changes nothing exactly when the last stop of
  every such run is strictly nearer to the first than all between them (`OptimizingTwice.OptimizedTwiceIff`).
  The ids on the plan stay distinct over a run of actions exactly if every such run of stops that is
  optimized ends with a stop without an id (`PlanIds.RunKeepsIdsIff`). Plans whose stops all have coordinates stay so over every
  run of edits and never meet that case (`EditorRuns.LocatedRunsAreSafe`): added and replacing stops
  always get one, because `Number(null)` is 0.
- Saving can give two different stops one id, since the id made up for a stop without one may belong
  to another stop (`JourneyDraft.MadeUpIdClashes`; `app/journey/visual_planner.py` line 387 gives stops
  ids of just this form). In one save from distinct ids this is the only thing that can go wrong
  (`MadeUpIds.SaveKeepsDistinctIff`); over a run of saved edits it is that, or an optimization that
  doubles an id (`CatalogueRuns.AlwaysDistinctIff`).
- For the same reason a deletion cannot always be undone: if a stop that is left is given the id of the
  deleted one, the save keeps the id and drops the place behind it (`CatalogueRuns.DeletedIsLost`). The
  deleted place is offered again exactly if that does not happen (`CatalogueRuns.DeletedIsOfferedIff`).
- Merging a merged day plan again cleans its waypoints once more and changes nothing else
  (`DayPlanMerge.MergeAgain`). The cleaner of the program (`frontend/app.js`, lines 3995-4005) takes away
  one closing word at a time, so this can change a waypoint (`DayPlanMerge.MergeAgainChanges`);
  `DayPlanMerge.MergeIdempotent` and `DayPlanMerge.MergeIdempotentIff` say when it does not.
- Segments are matched by their place in the day, so deleting a stop forgets the locks and modes of
  all segments behind it (`EditResults.DeletionForgetsBehind`).
- Clearing a draft misses a value that waits in memory under the bare key. The store agrees with the
  plain map throughout a run exactly if no clear meets such a value (`DraftStorage.AlwaysPlainIff`). The
  two base keys of the program (`frontend/app.js`, lines 63-64) have no colon, so it never happens there
  (`DraftStorage.PlainBaseKeys`); `DraftStorage.WaitingBareKeySurvives` takes another caller.
- With at least one segment but fewer than gaps, the straight route line stops early
  (`RoutePolyline.StraightRoute`).
- The table branch of `renderAssistantLineGroup` is never taken from `renderAssistantLines`: no text
  group is a table (`LineSplitting.RenderAssistantLines`).

## Model

| member | source | states |
|---|---|---|
| ThinkingFilter.GetLongestTagPrefixSuffix | frontend/chat-stream.js:2-11 | the counting loop finds the longest end of the text, lower-cased, that is a proper beginning of the tag |
| ThinkingFilter.HeldBack | frontend/chat-stream.js:2-11 | the held-back length is a partial tag and no longer one is |
| ThinkingFilter.AssistantThinkingFilter.Round | frontend/chat-stream.js:24-54 | one round of the loop shows and keeps what scanning the buffer says, and a round that goes on shortens the buffer |
| ThinkingFilter.AssistantThinkingFilter.Feed | frontend/chat-stream.js:20-58 | output, buffer and inside flag after a feed are those of one scan over buffer and value together |
| ThinkingFilter.AssistantThinkingFilter.Finish | frontend/chat-stream.js:59-72 | an open block and a partial opening tag are dropped, anything else held is shown, and the filter is reset |
| ThinkingFilter.ScanByCut | frontend/chat-stream.js:24-54 | the character-wise scan is the cut at the first tag, or before the longest held-back end, and the scan of what follows |
| ThinkingFilter.ScanSplit | frontend/chat-stream.js:20-58 | feeding `a` then `b` gives the same output and the same state as feeding `a + b`, from inside and outside a block |
| ThinkingFilter.ScanHoldsPartialTag | frontend/chat-stream.js:42-54 | what a filter holds is always a beginning of the tag it waits for |
| ThinkingFilter.ScanIsStrip | frontend/chat-stream.js:20-58 | the text shown by a scan is the whole-text strip |
| ThinkingFilter.StripByBlocks | frontend/chat-stream.js:24-54 | the strip removes the leftmost block up to its first closing tag and goes on behind it, drops an unclosed block with all that follows, and drops the longest trailing partial opening tag |
| ThinkingFilter.ThoughtIsHidden | frontend/chat-stream.js:14-41 | a `<think>` block in the middle of a text without `<` is hidden, in any letter case, and nothing else is |
| ThinkingFilter.VisibleGrows | frontend/chat-stream.js:20-58 | what is visible of a beginning of the text is a beginning of what is visible of the whole |
| ThinkingFilter.PiecesAreVisible | frontend/chat-stream.js:24-54 | the visible text is the pieces in front of, between and behind the removed blocks, joined |
| ThinkingFilter.VisibleTagStraddlesBlock | frontend/chat-stream.js:36-41 | under every lowering, an opening tag in the visible text has the end of a piece, that is a removed block, strictly inside it |
| ThinkingFilter.TagAroundBlock | frontend/chat-stream.js:36-41 | under every lowering, and for every block, splitting an opening tag by a block leaves exactly that tag, and stripping again hides it |
| ThinkingFilter.PartInFrontOfPart | frontend/chat-stream.js:43-48 | without any block, `<<` is stripped to `<` and `<` to nothing |
| ThinkingFilter.StripsToItselfIff | frontend/chat-stream.js:24-54 | a text is left alone if and only if it has no opening tag and no partial one at its end |
| ThinkingFilter.PlainIff | frontend/chat-stream.js:24-54 | the visible text has no `<` if and only if `<` stands outside of blocks only in complete opening tags or in the partial one at the end |
| ThinkingFilter.PartIsEnd | frontend/chat-stream.js:2-11 | for a tag whose first character does not come back in it, following a text character by character gives the one part of the tag that the text ends with, or the whole tag if it stood anywhere |
| ThinkingFilter.PartOfVisible | frontend/chat-stream.js:24-54 | one scan of the input follows how much of an opening tag the visible text ends with |
| ThinkingFilter.VisibleTagIff | frontend/chat-stream.js:24-54 | the visible text has no opening tag if and only if that scan of the input never completes one |
| ThinkingFilter.StripTwiceIff | frontend/chat-stream.js:24-54 | stripping again changes nothing if and only if that scan of the input ends outside of any tag |
| ThinkingFilter.FilterChunks | frontend/chat-stream.js:13-74 | any feeds and one finish show exactly the strip of the joined chunks, and the finish shows nothing |
| SseFraming.FrameIsSplit | frontend/chat-stream.js:90-96 | splitting at empty lines and popping the last piece gives the data lines and the remainder of the recursive framing |
| SseFraming.FrameSplit | frontend/chat-runner.js:216-221 | framing `a` and later its remainder with `b` delivers the same lines, in order, and the same remainder as framing `a + b`, also when a separator is cut in half |
| SseFraming.NoSeparatorLeft | frontend/chat-stream.js:90-91 | a remainder never contains a separator |
| SseFraming.FrameKeepsDataLines | frontend/chat-stream.js:89-112 | delivered lines and the data lines still in the remainder are together all data lines of the text, whatever the block boundaries |
| SseFraming.ClosedRemainder | frontend/chat-runner.js:227-229 | closing a remainder with an empty line delivers exactly its data lines |
| SseFraming.FinalFlush | frontend/chat-runner.js:216-229 | over the whole stream, every data line is delivered exactly once and in order |
| SseFraming.SkippedRemainder | frontend/chat-runner.js:227 | a remainder that is only white space holds no data line, so skipping it loses nothing |
| SseFraming.ContentsAppend | frontend/chat-stream.js:76-111 | the decoded text of two runs of data lines is the two decoded texts one after the other |
| SseFraming.OneEvent | frontend/chat-stream.js:89-98 | a `data: ` line followed by an empty line is delivered at once and leaves nothing |
| SseFraming.OtherLine | frontend/chat-stream.js:93-95 | a line that does not start with `data: ` is passed over |
| SseFraming.ContentOf | frontend/chat-stream.js:76-87 | an empty or closing line adds nothing; else the first of content, delta and message counts, or the trimmed text itself if it is not JSON |
| Text.SplitJoins | frontend/chat-stream.js:90-95 | the parts of a split text, joined by the separator, are the text |
| Text.PartsAreFree | frontend/chat-stream.js:90-95 | and no part contains the separator |
| Text.TrimCuts | frontend/chat-stream.js:97 | trimming takes away white space at both ends, and all of it |
| ChatRunner.StreamingMessage.FlushPendingVisibleChunks | frontend/chat-runner.js:152-160 | all pending text is on the screen, no frame is left, and nothing visible is lost |
| ChatRunner.StreamingMessage.FrameFires | frontend/chat-runner.js:170-175 | a frame puts exactly the pending text on the screen; a frame that was not scheduled changes nothing |
| ChatRunner.StreamingMessage.AppendVisibleChunk | frontend/chat-runner.js:162-176 | shown and pending text grow by exactly the chunk: the first one is shown whole and at once, every later one waits for a frame |
| ChatRunner.StreamingMessage.ApplyChunk | frontend/chat-runner.js:177-182 | shown and pending text stay the filtered form of all text fed so far |
| ChatRunner.StreamingMessage.ProcessSseBuffer | frontend/chat-stream.js:89-112 | the contents of the complete blocks are fed in order and the incomplete rest is returned |
| ChatRunner.StreamingMessage.Receive | frontend/chat-runner.js:216-221 | after every network chunk, shown and pending text are the visible text of everything received, and the shown text only grows |
| ChatRunner.StreamingMessage.ProcessRest | frontend/chat-runner.js:223-229 | after the last pass all data lines of the stream were fed, whether or not the rest was skipped |
| ChatRunner.StreamingMessage.FinishStream | frontend/chat-runner.js:223-234 | the full text is the answer of the whole stream, nothing is pending, and there is a message exactly if there is text |
| ChatRunner.VisibleIsPrefixOfAnswer | frontend/chat-runner.js:133-234 | what is visible at any moment is a beginning of what is visible later and of the final answer |
| ChatRunner.StreamAnswer | frontend/chat-runner.js:102-316 | for every cut into chunks, every frame schedule and both ways of ending: a completed stream shows the strip of all decoded contents, a broken one keeps exactly the visible text so far |
| RouteOptimizer.FindNearest | frontend/journey-editor.js:56-64 | the inner loop finds the first of the nearest stops |
| RouteOptimizer.NearestIsFirst | frontend/journey-editor.js:56-64 | no stop is nearer than the nearest one, and every earlier one is farther away |
| RouteOptimizer.SortOptimizableRun | frontend/journey-editor.js:49-70 | the loop yields the greedy tour, with the three ways of starting it |
| RouteOptimizer.OptimizeJourneyDayStops | frontend/journey-editor.js:72-96 | the loop rewrites exactly the longest movable runs, each from the stop in front of it; `changed` is exact, and the count is the number of movable stops that stand next to a movable one |
| RouteDistance.CoordinateOfFields | frontend/journey-editor.js:30-34 | numbers are the latitude and the longitude, `null` is zero, a missing field means no coordinate |
| RouteDistance.NearerInBoth | frontend/journey-editor.js:36-43 | a stop no farther away in latitude and in longitude is not farther, and nearer if and only if it is so in one of them |
| RouteDistance.UnplacedIsFar | frontend/journey-editor.js:36-39 | a stop without a coordinate is farther than any other |
| RouteDistance.TurnedDistance | frontend/journey-editor.js:36-43 | exchanging latitude and longitude of all stops changes no distance |
| RouteDistance.RotatedDistance | frontend/journey-editor.js:36-43 | nor does turning the plane by any angle |
| RouteDistance.LineIsSwept | frontend/journey-editor.js:49-96 | a run of stops, neither locked nor without a coordinate, on one meridian or parallel: each place takes the stop with the smallest gap to the one before it, the older of two equal ones |
| RouteDistance.LongitudeCounts | frontend/journey-editor.js:40-42 | three movable stops where the one nearer in latitude is farther away, and so comes last |
| OptimizerResults.TourIsGreedy | frontend/journey-editor.js:55-68 | every stop of a tour is nearest to the one before it among all that follow, ties going to the one that stood first |
| OptimizerResults.TourIdempotent | frontend/journey-editor.js:55-68 | touring a tour changes nothing |
| OptimizerResults.FixedStopStays | frontend/journey-editor.js:45-47 | a locked stop, or one without a coordinate, keeps its exact place, and on an anchored day no stop crosses it |
| OptimizerResults.RunPermutes | frontend/journey-editor.js:81-92 | on an anchored day every run is a re-ordering of itself |
| OptimizerResults.OptimizedDayPermutes | frontend/journey-editor.js:72-96 | an anchored day comes back complete, nothing doubled |
| OptimizerResults.FirstStopIsLost | frontend/journey-editor.js:53-54 | behind a stop without a coordinate the first stop of a run of two or more disappears |
| OptimizerResults.StopIsDoubled | frontend/journey-editor.js:53-54 | and some other stop then stands on the day twice |
| OptimizerResults.OptimizedDayPermutesIff | frontend/journey-editor.js:45-96 | a day of different stops comes back complete if and only if no run of two or more starts behind a stop without a coordinate |
| OptimizerResults.LostStopExample | frontend/journey-editor.js:53-54 | two stops `a`, `b` behind such a stop become `b`, `b` |
| OptimizerResults.RunIsGreedy | frontend/journey-editor.js:81-92 | every run of an anchored day is a greedy tour from the stop in front of it, or from its own first stop |
| OptimizingTwice.SettledStays | frontend/journey-editor.js:72-96 | optimizing an optimized day changes nothing if in every run of two or more behind a stop without a coordinate the last stop is the first nearest to the first one; anchored days have no such run |
| OptimizingTwice.OptimizedTwiceIff | frontend/journey-editor.js:72-96 | for a day of different stops, if and only if |
| OptimizingTwice.LostAgainExample | frontend/journey-editor.js:53-54 | three stops in a line behind such a stop lose one with each of two clicks |
| JourneySegments.BuildEditedJourneySegments | frontend/app.js:2511-2527 | one segment per pair of neighbours, in order, with their ids and names |
| JourneySegments.ChoicesFollowTheStops | frontend/app.js:2474-2527 | a fully labelled previous segment passes on lock, modes and metrics if its ends are the same, and nothing otherwise |
| JourneySegments.RebuildTwice | frontend/app.js:2474-2527 | a second rebuild changes at most the verification status, which is judged anew |
| JourneySegments.MissingLabelsAgree | frontend/app.js:2517-2521 | a previous segment passes on its choices if each label it has is right; labels that it lacks do not matter |
| JourneySegments.WrongLabelForgets | frontend/app.js:2517-2521 | and nothing if any label is wrong |
| JourneySegments.SegmentsAreFilledIn | frontend/app.js:2484-2508 | a rebuilt segment has the number of its day, and no text of it is empty |
| JourneySegments.OneModeIsBoth | frontend/app.js:2491-2506 | of mode and selected mode one stands in for the other, and a label that is missing names the status |
| PoiCatalogue.NormalizeJourneyPoiAsStop | frontend/journey-poi-utils.js:33-60 | id and name are kept, and the stop always has a coordinate, since a missing one becomes `null` |
| PoiCatalogue.NormalizedKeeps | frontend/journey-poi-utils.js:33-60 | what a place says is kept, what it leaves out comes from the fallback, and either may lock it |
| PoiCatalogue.SortIsStable | frontend/journey-poi-utils.js:149-159 | sorting by score loses nothing, puts the best first and keeps the order of equals |
| PoiCatalogue.GetJourneyPendingPoiCandidates | frontend/journey-poi-utils.js:123-160 | the filter with its `seen` set keeps the first place of every key that is not on the plan |
| PoiCatalogue.CandidatesAreExact | frontend/journey-poi-utils.js:139-148 | the candidates are exactly the places that are named, first of their key in the pool, and share neither id nor name with the plan |
| PoiCatalogue.CandidatesAreOrdered | frontend/journey-poi-utils.js:138-159 | candidates have different keys, the best come first, and equals are in pool order |
| PoiCatalogue.CandidatesAreNew | frontend/journey-poi-utils.js:126-148 | every candidate has a name, and no stop of the plan has this name or its id |
| PoiCatalogue.AlternativeIsOffered | frontend/journey-poi-utils.js:81-87 | of an alternative and a place of the journey with one key, the alternative is offered |
| PoiCatalogue.BetterComesFirst | frontend/journey-poi-utils.js:149-159 | verified places come before others, except that a located and estimated one counts as much; then located ones, then estimated ones |
| PoiCatalogue.ReplacementsAreExact | frontend/journey-poi-utils.js:102-108 | the replacement candidates are exactly the named places of the pool with another name and an id that is not on the plan |
| PoiCatalogue.ReplacementIsNew | frontend/journey-poi-utils.js:102-108 | the same without names of the model: a named place of the pool, another name than the stop, and an id of no stop on the plan |
| PoiCatalogue.ReplacementOrder | frontend/journey-poi-utils.js:109-118 | the same city, of the stop or else of its day, counts more than the same kind, that more than being verified, that more than being estimated |
| PoiCatalogue.BestReplacement | frontend/journey-poi-utils.js:89-121 | the first candidate scores highest among all places that may replace the stop |
| JourneyDraft.SavedCount | frontend/app.js:2566-2584 | how often each id stands in `pois` and `alternative_pois` after a save |
| JourneyDraft.SaveKeepsIds | frontend/app.js:2566-2587 | no id ever leaves `pois` and `alternative_pois` together |
| JourneyDraft.SaveIsInSync | frontend/app.js:2566-2584 | every active id is in `pois` and none is in `alternative_pois` |
| JourneyDraft.PlannedStopsAreSaved | frontend/app.js:2543-2554 | every stop of a planned day is saved under its own id |
| SavedJourney.SavedDays | frontend/app.js:2543-2546 | days keep their numbers and cities, and a day without a plan stays as it is |
| SavedJourney.FindPlanIsFirst | frontend/app.js:2545 | the first plan with the key is taken |
| SavedJourney.SavedPlaces | frontend/app.js:2547-2554 | a place of a saved day has the name, lock, texts, flags and numbers of its stop, in order |
| SavedJourney.SavedCatalogue | frontend/app.js:2566-2584 | `pois` starts with the places of the days; of the old places and alternatives exactly those stay that no day has by id |
| SavedJourney.SavedSegmentsKeep | frontend/app.js:2532-2541 | between the same stops a saved segment has the lock, the source and every given text of the segment of the plan, and the number of its day |
| SavedJourney.SavedSegmentsForget | frontend/app.js:2532-2541 | and no choice at all where the segment of the plan is labelled with other stops |
| JourneyDraft.SavedIdsDistinctIff | frontend/app.js:2566-2584 | for any plan and journey, ids in `pois` are distinct after a save if and only if those of the saved days are and those of the other old places were |
| MadeUpIds.MadeUpIdsDiffer | frontend/app.js:2549 | the same id is made up only for the same place of the same day |
| MadeUpIds.MadeUpIff | frontend/app.js:2549 | no id is made up for two stops |
| MadeUpIds.ActiveCount | frontend/app.js:2543-2565 | the saved days hold exactly the ids of the plan and those made up for its stops without one |
| MadeUpIds.SavedIdsDistinctIff | frontend/app.js:2543-2584 | in terms of plan and catalogue before the save: ids in `pois` are distinct afterwards if and only if those of the plan were, none of them is made up for another stop, and those of the places off the plan were |
| MadeUpIds.SaveKeepsDistinctIff | frontend/app.js:2543-2584 | from distinct ids, a save keeps them distinct if and only if no stop without an id is given the id of another stop |
| JourneyDraft.MadeUpIdClashes | frontend/app.js:2549 | a plan and a catalogue with distinct ids for which the saved ids are not distinct |
| JourneyDraft.SavedDaysAreLinked | frontend/app.js:2555-2564 | the segments of every saved day link its places |
| JourneyDraft.SharedKeyDoublesIds | frontend/app.js:2543-2565 | two days under one key, such as day 1 and a day without a number, both get the stops of one plan, so a save doubles their ids |
| JourneyEditor.JourneyEditor.CommitJourneyPlanEdit | frontend/journey-editor.js:20-28 | the stored plan has all segments rebuilt and the journey is saved if saving is possible |
| JourneyEditor.JourneyEditor.HandleJourneyEditAction | frontend/journey-editor.js:151-356 | a click does exactly what the outcome of the edit function says: not handled, a remark only, or a commit |
| JourneyEditor.NothingToOptimize | frontend/journey-editor.js:72-96 | a day for which the optimizer counts nothing comes back as it is, so both remarks leave the plan alone |
| StopEdits.UpSwaps | frontend/journey-editor.js:313-314 | up: the stop and the one before it change places, all else stays |
| StopEdits.DownSwaps | frontend/journey-editor.js:315-316 | down: the stop and the one behind it change places, all else stays |
| StopEdits.PrevDayMoves | frontend/journey-editor.js:317-326 | previous day: the stop goes to the end of the day before; all other days keep their stops |
| StopEdits.NextDayMoves | frontend/journey-editor.js:317-326 | next day: the stop goes to the end of the day behind; all other days keep their stops |
| StopEdits.DeleteRemoves | frontend/journey-editor.js:307-312 | delete: the stop is taken out of its day, all else stays |
| StopEdits.LockToggles | frontend/journey-editor.js:277-278 | the lock of the one stop changes, and nothing else of any stop |
| StopEdits.TimeIsSaved | frontend/journey-editor.js:279-306 | the one stop has the typed time and duration, and nothing else changes |
| StopEdits.BestTakesOver | frontend/journey-editor.js:327-334 | a best place among those that may replace the stop takes its place, locked if either was; nothing else changes |
| StopEdits.OptimizeShows | frontend/journey-editor.js:192-212 | the day has its optimized order and all other days keep theirs; without a change there is a remark only |
| StopEdits.SegmentIsThere | frontend/journey-editor.js:214-267 | actions on a segment are committed exactly if it is there, and change no stop |
| StopEdits.NothingHappensIff | frontend/journey-editor.js:269-337 | exactly which clicks on a stop are answered by a remark only, and which by nothing; neither changes the page |
| StopEdits.MissingPlace | frontend/journey-editor.js:269-275 | a click at a day or a place that is not there changes nothing |
| StopEdits.FirstAskedFor | frontend/journey-editor.js:166-172 | the first candidate with the id or the name that was asked for is taken |
| StopEdits.AddAppends | frontend/journey-editor.js:159-190 | a place is added exactly if it was found and no stop of any day has its id or its folded name; then it stands at the end of the day, in its own city or that of the day, and no other place changes |
| StopEdits.SegmentsAreNumbered | frontend/app.js:2404-2414 | after any commit segments carry the number of their day and of their place |
| EditorRuns.Play | frontend/journey-editor.js:151-356 | clicking through any actions leaves the page that the run function says |
| EditorRuns.AddIsFresh | frontend/journey-poi-utils.js:123-160 | a pending place comes from the pool and its id is not on the plan |
| EditorRuns.CommitKeepsDays | frontend/journey-editor.js:151-356 | a committed action keeps the days, leaves no day with stops empty, and changes the number of stops by +1 for an addition, -1 for a deletion, 0 otherwise |
| EditorRuns.CommitKeeps | frontend/journey-editor.js:151-356 | a committed addition or replacement by a place with an id brings exactly this id from no occurrence to one; no other id becomes more frequent, optimizing an unanchored day aside |
| EditorRuns.RunKeepsDays | frontend/journey-editor.js:151-356 | over every run the days and their keys and order stay, no day with stops runs empty, and the number of stops changes by committed additions and deletions only |
| PlanIds.OptimizeKeepsIdsIff | frontend/journey-editor.js:192-212 | from distinct ids on the plan, optimizing a day keeps them distinct if and only if each of its runs of two or more behind a stop without a coordinate ends with a stop without an id |
| PlanIds.StepKeepsIdsIff | frontend/journey-editor.js:151-356 | no other action ever doubles an id |
| PlanIds.RunKeepsIdsIff | frontend/journey-editor.js:151-356 | the ids on the plan are distinct throughout a run if and only if no optimization in it doubles one |
| PlanIds.SafeRunsDoubleNoId | frontend/journey-editor.js:151-356 | runs that optimize anchored days only double none |
| EditorRuns.LocatedRunsAreSafe | frontend/journey-editor.js:30-34 | from a plan with coordinates everywhere every run keeps them and never meets the optimizer's losing case |
| EditorRuns.CommitLinks | frontend/app.js:2401-2415 | any committed action links the segments of all days, however they were before |
| EditorRuns.RunStaysLinked | frontend/app.js:2401-2415 | over every run that starts linked, or in which anything is committed, the segments of every day link exactly its stops |
| EditorRuns.RunKeepsKnownIds | frontend/app.js:2529-2597 | over every run no id ever leaves the catalogue |
| EditorRuns.RunStaysConsistent | frontend/app.js:2529-2597 | over every run of saved edits all ids of the plan are in `pois` and none in `alternative_pois`, and plan and journey have the same days |
| CatalogueRuns.AlwaysDistinctIff | frontend/app.js:2529-2597 | from distinct ids, those in `pois` are distinct throughout a run of saved edits if and only if no optimization in it doubles an id and no save makes up the id of another stop |
| CatalogueRuns.IdentifiedRunsAreUnclashed | frontend/app.js:2529-2597 | when everything has an id it stays so, and no run of saved edits meets such a clash |
| CatalogueRuns.DeletedIsOffered | frontend/journey-poi-utils.js:123-160 | after deleting and saving, the stop is among the pending places under its id and name, unless a stop that is left is given its id |
| CatalogueRuns.TakenIsNotOffered | frontend/app.js:2543-2584 | in that case no place with its id is pending |
| CatalogueRuns.DeletedIsOfferedIff | frontend/app.js:2543-2584 | so a place with the deleted id is pending if and only if no stop that is left is given it |
| CatalogueRuns.DeletedIsLost | frontend/app.js:2549 | a plan of three stops where, after deleting one and saving, its id is still known but no place of its name is left |
| CatalogueRuns.DeletedIsOfferedOnce | frontend/journey-poi-utils.js:123-160 | unless its id is taken, the deleted stop is off the plan, and whatever is offered under its id has its name |
| CatalogueRuns.AddOffered | frontend/journey-editor.js:159-190 | asking for an offered place puts it on the chosen day, once, and is not stopped by the duplicate rule |
| CatalogueRuns.DeleteThenAddRestores | frontend/journey-editor.js:159-190 | unless its id is taken, a deletion can be undone: the id is off the plan, then back exactly once with its name, and the number of stops is as before |
| EditResults.SelectedModeStays | frontend/journey-editor.js:221-249 | selecting a mode changes its one segment and then rebuilds all: no stop, lock or given text of any segment changes otherwise, only the verification status is judged anew |
| EditResults.SelectedModeShows | frontend/journey-editor.js:221-242 | the segment then has the mode and its old lock; after a real change its metrics and label are unchecked and its source is the preference of the user, otherwise they stay |
| EditResults.SegmentLockToggles | frontend/journey-editor.js:250-267 | toggling a segment lock also pins the current mode and then rebuilds all, which changes nothing else but the verification status |
| EditResults.SegmentLockShows | frontend/journey-editor.js:250-257 | the lock is the other way round, and the segment has the mode that was selected or else its mode, and its old metrics |
| EditResults.DeletionForgetsBehind | frontend/journey-editor.js:307-312 | a deletion keeps the choices of the segments in front of the stop and forgets those of all segments behind it |
| EditResults.DownUndoesUp | frontend/journey-editor.js:313-316 | moving a stop up and down again gives back the same stops on all days |
| EditResults.StopLockTwice | frontend/journey-editor.js:277-278 | toggling a stop's lock twice gives back the same stops on all days |
| DraftStorage.DraftStorage.ReadDraftStorage | frontend/draft-storage.js:15-20 | reading looks at the storage only, scoped key first; it gives the plain map's value once nothing waits under the key |
| DraftStorage.DraftStorage.FlushDraftStorageWrite | frontend/draft-storage.js:26-36 | the waiting value is stored, its timer is gone, and the plain map does not change |
| DraftStorage.DraftStorage.WriteDraftStorage | frontend/draft-storage.js:44-57 | the plain map is updated; an immediate write is stored and stops its timer, any other one waits among the pending values, and starts a timer only if its key has none |
| DraftStorage.DraftStorage.TimerFires | frontend/draft-storage.js:53-55 | a timer stores the value it waits for and the plain map does not change; a cleared timer does nothing |
| DraftStorage.DraftStorage.ClearDraftStorage | frontend/draft-storage.js:59-67 | the key is erased, waiting or stored; it agrees with erasing both keys from the plain map if and only if nothing waits under the bare key |
| DraftStorage.DraftStorage.FlushAllDraftStorageWrites | frontend/draft-storage.js:38-42 | nothing waits, no timer is armed, and the storage is the plain map |
| DraftStorage.DraftStorage.LetTimersFire | frontend/draft-storage.js:52-56 | nothing is stranded: firing the armed timers stores everything |
| DraftStorage.RunDraftStorage | frontend/draft-storage.js:22-67 | any mix of writes, clears, timers and flushes, ended by a flush, leaves the storage of a map that misses exactly the values waiting under a cleared bare key |
| DraftStorage.AlwaysPlainIff | frontend/draft-storage.js:22-67 | the store is the plain map after every operation of a run if and only if no clear meets a value that waits under its bare key |
| DraftStorage.PlainBaseKeys | frontend/draft-storage.js:11-13 | with base keys that have no colon it always is |
| DraftStorage.ScopedKeysDiffer | frontend/draft-storage.js:7-13 | two drafts share a key if and only if they have the same base key and the same scope, where nobody is the guest |
| DraftStorage.WaitingBareKeySurvives | frontend/draft-storage.js:63-66 | two operations after which the storage differs from the plain map, when a cleared bare key is another draft's scoped key |
| PreviewCache.PreviewCache.FetchJourneyMapPreview | frontend/journey-api.js:120-185 | the reply is a hit if and only if the last event for the key is an answer younger than ten minutes, and then that answer; otherwise the caller shares the only open request, which is started only if there was none |
| PreviewCache.CallAgainAfter | frontend/journey-api.js:128-130 | a second call after an answer is a hit with the same data if and only if less than 600000 milliseconds have passed, and starts a second request otherwise |
| PreviewCache.PreviewCache.Arrive | frontend/journey-api.js:157-172 | the answer replaces the promise of its request, with the time of arrival |
| PreviewCache.PreviewCache.Fail | frontend/journey-api.js:173-179 | a failed request leaves no entry behind |
| PreviewCache.StaysOpen | frontend/journey-api.js:131-184 | until a request has ended, its start is the last thing that happened to its key |
| PreviewCache.SingleFlight | frontend/journey-api.js:131-184 | of two requests for one key, the first ended before the second started |
| PreviewCache.RunPreviewCache | frontend/journey-api.js:120-185 | in every interleaving of calls, answers, failures and clock ticks an entry holds a promise exactly if that request is in flight for its key |
| FirstSeen.FirstByIsFirst | frontend/journey-map-data.js:85-91 | what the `findIndex` filter keeps are the first items of their keys, in their old order |
| FirstSeen.FirstBySplit | frontend/journey-map-data.js:80-91 | filtering an already filtered part together with more items is filtering everything at once |
| DayPlanMerge.MergeJourneyDayPlanSources | frontend/journey-map-data.js:71-122 | the loop over a map and a running maximum builds the merged plan |
| DayPlanMerge.DayNumberOf | frontend/journey-map-data.js:24-31 | a day number is what the day says, else what its texts say, else the place in the list |
| DayPlanMerge.DayTexts | frontend/journey-map-data.js:48-59 | where key, label, title and note come from, and that stops, segments and the other fields are left alone |
| DayPlanMerge.WaypointsComeFirst | frontend/journey-map-data.js:41-48 | within a day waypoints come before the names of points, and these before the names of stops |
| DayPlanMerge.GapIsEmpty | frontend/journey-map-data.js:107-121 | a day that no source gives is named by its number and has nothing in it |
| DayPlanMerge.MergedDaysInOrder | frontend/journey-map-data.js:107-121 | the result has the days 1, 2, 3 and so on in order |
| DayPlanMerge.MergedDaysReachMax | frontend/journey-map-data.js:71-122 | it ends at exactly the largest day number of any source |
| DayPlanMerge.MergedDayHolds | frontend/journey-map-data.js:71-122 | a merged day has all waypoints and stops of its sources once, in first-seen order; the first source gives key, label and title, the first that has them note and segments, the last that has them the other fields |
| DayPlanMerge.NamesArriveIff | frontend/journey-map-data.js:33-122 | for every cleaner, the waypoints of a merged day are exactly the cleaned waypoint, point and (twice cleaned) stop names that the sources give for it, each once |
| DayPlanMerge.EveryNameArrives | frontend/journey-map-data.js:33-122 | so no given name is lost: the plan has the day of every source, with the name |
| DayPlanMerge.MergeAgain | frontend/journey-map-data.js:71-122 | for every cleaner, merging the result again cleans and collects the waypoints once more and changes nothing else |
| DayPlanMerge.MergeIdempotent | frontend/journey-map-data.js:71-122 | it changes nothing at all if cleaning a second time changes none of the names that the sources give |
| DayPlanMerge.MergeIdempotentIff | frontend/journey-map-data.js:71-122 | for sources without points and stops this condition is exact |
| DayPlanMerge.MergeAgainChanges | frontend/journey-map-data.js:71-122 | a waypoint with two closing words is changed by merging again, under any cleaner that takes away one at a time |
| GovernanceProgress.MergeProgressFactItems | frontend/governance-progress.js:33-46 | the map-and-order loop gives the last usable fact of every key, in the order the keys came up |
| GovernanceProgress.MergeProgressStringItems | frontend/governance-progress.js:48-61 | the loop keeps the first entry of every marker |
| GovernanceProgress.MarkerIs | frontend/governance-progress.js:53-55 | a text goes by itself, a record by its key, else its caption, else its value, else its JSON text |
| GovernanceProgress.MergedFactsKeep | frontend/governance-progress.js:33-46 | merged facts have every key once, in first-seen order, with its last fact |
| GovernanceProgress.LastUsableIsMerged | frontend/governance-progress.js:33-46 | the last fact with a value under a key, or else under a caption, is merged, and no other one with it |
| GovernanceProgress.MergedFactsSplit | frontend/governance-progress.js:33-46 | facts may be merged piece by piece from either side |
| GovernanceProgress.MergeGovernanceProgressSnapshots | frontend/governance-progress.js:63-96 | the field-by-field updates give the merged snapshot |
| GovernanceProgress.FoldSettlesModes | frontend/governance-progress.js:68-82 | over a whole conversation the mode is the last confirmed one if any was ever confirmed, else the last given; likewise the workflow |
| GovernanceProgress.ChosenModeStays | frontend/governance-progress.js:29-31 | once the agency plan or free planning was chosen, the client holds one of these two for good |
| GovernanceProgress.FoldKeepsVersion | frontend/governance-progress.js:69 | the version is the last one given |
| GovernanceProgress.FoldKeepsStep | frontend/governance-progress.js:83-85 | the step is the last non-empty one, else the last given |
| GovernanceProgress.FoldCollectsFacts | frontend/governance-progress.js:86-90 | the facts say what merging all facts of all snapshots at once says |
| GovernanceProgress.FoldCollectsItems | frontend/governance-progress.js:91-94 | each of the three lists says what listing all its entries of all snapshots once says |
| GovernanceProgress.FoldHoldsFacts | frontend/governance-progress.js:63-96 | after two snapshots that say anything, the client holds exactly the merged facts of all, as soon as there is one |
| GovernanceProgress.FoldHoldsItems | frontend/governance-progress.js:63-96 | likewise for each list |
| GovernanceProgress.MergeAssociates | frontend/governance-progress.js:63-96 | it does not matter how snapshots are grouped, up to the normal forms of facts and lists |
| RoutePolyline.GetJourneySegmentRoutePoints | frontend/journey-map-view.js:181-211 | the nested loops draw the chosen path of every segment in order, or the valid stops if that is less than a line |
| RoutePolyline.StraightRoute | frontend/journey-map-view.js:181-211 | without live paths the line is the stop sequence when there are no segments or at least as many as gaps, and its first k + 1 points for k segments in between |
| RoutePolyline.DrawnInPieces | frontend/journey-map-view.js:190-208 | the line is one piece per segment in order, each the chosen path, or that without a first point which the line had already reached |
| RoutePolyline.PointOfFields | frontend/journey-map-view.js:165-170 | numbers are the point, `null` is zero, a missing field gives no point |
| RoutePolyline.UsableIsKept | frontend/journey-map-view.js:183-185 | every usable point of a list is kept, behind the usable ones before it |
| RoutePolyline.KeptIsUsable | frontend/journey-map-view.js:183-185 | and nothing else is |
| RoutePolyline.SamePoint | frontend/journey-map-view.js:172-179 | points are the same if and only if they differ by less than a millionth of a degree in both directions |
| RoutePolyline.LivePathIsDrawn | frontend/journey-map-view.js:190-208 | all points of a live path from the second on are a stretch of the line, behind its first point or one that is the same |
| RoutePolyline.StraightSegmentIsDrawn | frontend/journey-map-view.js:194-208 | likewise the two stops of a segment without one, whatever the other segments have |
| RoutePolyline.DetourExample | frontend/journey-map-view.js:181-211 | a live path of three points between two stops is drawn with all three |
| LineSplitting.GetMarkdownTableSpan | frontend/app.js:4025-4043 | the span is positive exactly at a table head and reaches to the last line of the pipe run |
| TableHeads.SecondLineDivides | frontend/app.js:4025-4033 | a table has pipes in its first two lines, and its second line has only dashes, colons, pipes and white space |
| TableHeads.ColumnDividesIff | frontend/app.js:4031 | dashes with a colon on either side or none divide if and only if there are three or more |
| TableHeads.RowMakesTable | frontend/app.js:4016-4033 | a line with a pipe over a row of such columns, with or without outer pipes, starts a table whatever follows |
| LineSplitting.RenderAssistantLines | frontend/assistant-renderer.js:274-298 | the chunks cut the lines into consecutive slices; tables are maximal; no table starts within a text group, and no group is a table |
| LineSplitting.PartitionFlattens | frontend/assistant-renderer.js:274-298 | put together in order the chunks give back exactly the lines |
| LineSplitting.PartitionIsUnique | frontend/assistant-renderer.js:274-298 | there is only one such cut, so the result is fully determined |

## Left out

- Lower-casing is any map from characters to characters; JavaScript's `toLowerCase` can change the length of some texts.
- Strings are sequences of characters; UTF-16 surrogates, and the bytes that `TextDecoder` holds back between chunks, are not modelled (the decoder's last text is a parameter).
- JSON parsing is a parameter; a parsed `null` would throw inside the source's `try`, which the parameter can express as not being JSON.
- The events that accompany an answer (reports, journey data, traces, audits) and everything that only draws: HTML, maps, toasts, loading hints, wording of fallback texts.
- Answers that are not event streams, the `isLoading` guard and two sends at once: the guard is looked at before two awaits and set after them, so no exclusion is claimed.
- Coordinates are real numbers; infinities, not-a-number and rounding are not modelled, and texts in place of numbers are not either.
- Fields of a stop that are only copied (description, costs, tags, notes, images); `suggested_time` and `time_range` are one field, and of `duration_minutes` only its text is kept.
- `changed` of the optimizer compares object identities in the source and values here; a re-ordered day of equal stops counts as unchanged.
- Fractional or negative stop and segment indices from the page; `parseJourneyStopMeta` and `parseJourneySegmentMeta` are not modelled.
- A segment's `id` is its place and day number, its `alternatives` and `transport_mode` are left out.
- The judgement of a route's verification status, the normal form of a transport mode, and the matching and folding of names are open functions of the model; nothing is claimed about keeping a status over two rebuilds, because the default note contains a character that can change it.
- Where plans and days of the journey are said to be aligned, they correspond one to one under different keys. The page drops a day without any named place (`frontend/app.js`, lines 5709-5716), and gives a day without a number the key of its place, while a save takes it for day 1 (line 2544); `JourneyDraft.SharedKeyDoublesIds` says what comes of the latter.
- Waypoints in `normalizeJourneyDayPlanStops`, days without a list of stops, the day summary, the place order and the flat list of segments of a saved journey; the editor acts on plans that are already normalized.
- The network part of saving a draft, and journeys of an unknown version beyond not being saved.
- Recommendation actions of `frontend/journey-overlay.js`: they look for duplicates within one day only.
- Exceptions of the browser storage when its quota is used up, and timers as wall-clock time.
- Previews that arrive as empty data, and the deep copy that a cache hit returns.
- Day numbers that are not whole positive numbers, and sources that are texts or objects around a list of days (the candidates are a list here).
- Snapshot keys other than the eight that are modelled; facts and entries that are not records or texts.
- The service under `app/`, its readiness report and the scripts: small case analyses.
