# obsidian-recall core, modelled in Dafny

This project models the core of the obsidian-recall plugin, a spaced-repetition tool for Obsidian notes, in Dafny:

- **The review store** (`DataStore`, module `Store`, over the entities and pass definitions of module `Data`):
  - item slots and tracked-file slots that are tombstoned, never compacted;
  - the review queue and the retry queue;
  - the daily count of new items;
  - the operations that track, untrack, refresh and rename notes, build the queue and record answers.
- **The stage-ladder strategy** (`LeitnerAlgorithm`, module `Leitner`): its defaults, its answer options, the move along the ladder for one answer, the resize of the timings list when the number of stages changes, and the settings merge every strategy inherits.
- **The helpers** (module `Utils`, and `ArrayExt` for the host's `Array.remove` and `Array.contains`): millisecond date arithmetic and the "copy only known keys" record merge.
- **Item extraction** (module `Selection`): the block and inline selectors. They turn a note's sections into question/answer items and request block-id inserts. They then splice the sections they used out of the caller's list, in place.

Where the source changes state in place, the model does so too:
- The store, the strategy's settings, the merged settings object and the caller's section and insert lists are classes with fields that the methods reassign.
- Loops become `while`/`for` loops with invariants.
- Each such method is proved against a function of its inputs. Examples are `Scan` for the queue build and `BlockExtract`/`InlineExtract` for the selectors. The properties are then proved about those functions.

The model stays with the code as written, including its quirks. Each quirk is stated by a member:
- **Tombstone at the wrong index.** While refreshing a note, each dropped item key writes its tombstone at the *file's* index, not at the dropped item's (data.ts:371). `Store.DataStore.UpdateItems` says so. The tombstone can land on a slot whose item another file still owns and the review queue still holds. Nothing takes that id out of the queue: `updateItems` does not, `reviewId` on the empty slot reports it as missing and changes nothing (data.ts:187-189, the `!found` case of `Store.DataStore.ReviewId`), and `buildQueue` never removes. So `getNextId` keeps returning the dead id at the head of the queue until the other file is untracked.
- **The build ignores the retry queue.** Building the queue never looks at the retry queue, so an item may sit in both queues. The two queues are not mutually exclusive, though each one stays free of duplicates.
- **A stranded item.** An item may climb beyond a ladder that is later shortened. With `resetOnIncorrect` off, a wrong answer then reads a timing that does not exist. Its next review becomes NaN. While the store stays in memory, no queue build queues it again (`Leitner.ShrunkLadderDelayIsNaN`, `Data.StrandedItemNeverQueued`). Saving and reloading the store, which the model leaves out, turns that NaN into `null`, which the next build treats as due.
- **Sections used twice.** The block selector's outer loop does not skip sections already used as answers, so one index can be recorded twice. The descending splice then removes unused sections too (`Selection.DuplicateUseRemovesUnusedSection`).

The wall clock, the vault's "does this file exist", the calendar-day test and the block-id generator are parameters. The inline selector's regular expression is an abstract matcher.

## Model

Some definitions have no row of their own, because the rows of the members that state their properties cover them. `Store.DataStore.GetFileIndex` returns `Data.FindFile`, whose row states the lookup. `Data.NewItem` is covered by the rows of `Store.DataStore.TrackFile`, `UpdateItems` and `AddFileItem`. `Selection.Slice` is covered by `SliceBound` and `SliceInRange`. `Selection.SortDesc` is covered by `SortDescPermutes` and `SortDescSorts`. `Selection.SpliceAll` is covered by `SpliceDescending` and `SpliceSortedRemovesExactly`. `Selection.BlockExtract` and `Selection.InlineExtract` are covered by the step and whole-call lemmas about them.

| member | source | states |
|---|---|---|
| `Utils.AddTime` | src/utils.ts:2-4 | the result lies exactly `time` milliseconds after `date` and within the ±8.64e15 ms a `Date` can hold; it is NaN exactly when the offset is NaN or the sum leaves that range |
| `Utils.AssignOnly` | src/utils.ts:22-32 | returns `obj` itself (not a copy); its key set is unchanged; keys `source` also has take `source`'s value; the other keys, and every key when `source` is missing, keep their old value; keys only `source` has are ignored |
| `Leitner.DefaultSettings` | src/algorithms/leitner.ts:21-27 | exactly the keys stages, resetOnIncorrect and timings; six stages, reset on, timings [1,3,7,14,30,180]; one timing per stage |
| `Leitner.DefaultData` | src/algorithms/leitner.ts:29-33 | a new item starts at stage 0 |
| `Leitner.SrsOptions` | src/algorithms/leitner.ts:35-37 | exactly the two options "Wrong" then "Correct" |
| `Leitner.Delay` | src/algorithms/leitner.ts:60-65 | the delay is a number exactly when the stage has a timing, and then it is that timing in days converted to milliseconds (86400000 per day); otherwise NaN |
| `Leitner.LeitnerAlgorithm.OnSelection` | src/algorithms/leitner.ts:39-83 | correct iff the option is "Correct"; a retry pass leaves the stage alone and reports -1; a first-pass correct answer climbs one stage, capped at `stages`; a wrong one resets to stage 1 or drops one stage (not below 1); the delay is the new stage's timing |
| `Leitner.StageStaysOnLadder` | src/algorithms/leitner.ts:54-80 | on a ladder with a timing per stage, from a stage within it, a first-pass answer lands on a stage between 1 and `stages` and the delay is a number |
| `Leitner.OptionsJudged` | src/algorithms/leitner.ts:50-66 | of the offered options exactly "Correct" is judged correct, first pass or retry |
| `Leitner.LadderScenario` | src/algorithms/leitner.ts:50-81 | three stages timed [1,2,5] with reset on: Correct, Correct, Wrong from a new item give stages 1, 2, 1 and delays of 1, 2, 1 days |
| `Leitner.ShrunkLadderDelayIsNaN` | src/algorithms/leitner.ts:71-80 | after the ladder shrinks under an item at stage 6 with reset off, a wrong answer moves it to stage 5, which has no timing, and the delay is NaN |
| `Leitner.ResizeTimings` | src/algorithms/leitner.ts:111-123 | the existing timings are kept as a prefix and new entries are 0; a list with one timing per old stage ends with exactly one per new stage; a list long enough for the old count is long enough for the new one |
| `Leitner.LeitnerAlgorithm.SetStages` | src/algorithms/leitner.ts:97-123 | a count below 1 changes nothing; otherwise the settings hold the new count and the resized timings; a well-formed ladder stays well-formed, and one timing per stage stays one per stage |
| `Leitner.LeitnerAlgorithm.UpdateSettings` | src/algorithms.ts:7-12 | the settings have exactly the default keys; a key the given record has takes its value; the other keys keep the default; no record gives the defaults; well-typed input gives well-typed settings |
| `ArrayExt.Contains` | src/selection.ts:53 | true exactly when some position holds the element |
| `ArrayExt.Remove` | src/data.ts:194 | an absent element leaves the list unchanged; otherwise its first occurrence is cut out |
| `ArrayExt.RemoveOneCopy` | src/data.ts:203 | `remove` takes away exactly one copy of the element when there is one, and nothing else |
| `ArrayExt.RemoveDistinct` | src/data.ts:312 | on a list without duplicates, `remove` equals filtering the element out, and the list stays without duplicates |
| `ArrayExt.AppendDistinct` | src/data.ts:196 | pushing an element that is absent keeps a list free of duplicates |
| `Data.FindFile` | src/data.ts:118-122 | -1 exactly when no live file slot has the path; otherwise the first live slot with that path |
| `Data.FindAppended` | src/data.ts:287-291 | after pushing a file for an untracked path, the lookup finds the new slot |
| `Data.HugeTimingOverflowsDate` | src/algorithms/leitner.ts:169 | a timing the settings accept (100000001 days) schedules a correct answer's next review at NaN, because the sum leaves the `Date` range |
| `Data.Answered` | src/data.ts:199-213 | a first-pass answer stores the strategy's new state, schedules the next review the delay after `now`, counts one more review, and either counts a correct answer and clears the error streak or extends the streak; the file index is kept |
| `Data.Tombstone` | src/data.ts:317 | the slot becomes null and every other slot keeps its value; writing past the end grows the array with empty slots; a negative index changes no element |
| `Data.TombstoneTwice` | src/data.ts:371 | writing the same tombstone again changes nothing, so the repeated write at the file index leaves one tombstone |
| `Data.Admit` | src/data.ts:413-430 | one slot of the build: only that slot may change, the queue gains at most this index at its end, and the daily count grows by at most one |
| `Data.Scan` | src/data.ts:413-430 | the build over a prefix of the slots leaves later slots alone, only appends to the queue and never lowers the daily count |
| `Data.ScanKeepsQueueInvariant` | src/data.ts:413-430 | at a positive time, the build keeps the queue free of duplicates, made of existing slots and free of new items |
| `Data.ScanSettles` | src/data.ts:413-430 | after the build, every new item it passed is over the daily cap and every due item it passed is queued |
| `Data.ScanSettledIsIdentity` | src/data.ts:413-430 | on slots that are already settled, the build changes nothing |
| `Data.ScanIdempotent` | src/data.ts:406-428 | a second build at the same positive time leaves the slots, the queue and the daily count as the first left them |
| `Data.ScanAdmissions` | src/data.ts:417-421 | the build admits all waiting new items without a cap, and otherwise as many as the cap leaves room for today |
| `Data.CappedPassAdmitsNothing` | src/data.ts:417 | once the cap is reached, a waiting new item stays unscheduled and unqueued, and the count does not move |
| `Data.StrandedItemNeverQueued` | src/data.ts:414-428 | an item whose review time is NaN is neither new nor due, so the build leaves it alone and never queues it |
| `Store.FirstPassKeepsValid` | src/data.ts:198-213 | recording a first-pass answer keeps the store's invariant; an item that was not in the retry queue can join it without duplicating it |
| `Store.DataStore.constructor` | src/data.ts:36-43 | the empty store: nothing tracked, nothing queued, counters at 0 |
| `Store.DataStore.IsTracked` | src/data.ts:128-130 | true exactly when some live file slot carries the path |
| `Store.DataStore.IsQueued` | src/data.ts:132-134 | true exactly when the review queue holds the index |
| `Store.DataStore.IsInRepeatQueue` | src/data.ts:136-138 | true exactly when the retry queue holds the index |
| `Store.DataStore.GetNextId` | src/data.ts:171-179 | the head of the review queue, else the head of the retry queue, else nothing; nothing exactly when both queues are empty; on a valid store the id names an existing slot |
| `Store.DataStore.GetItemsOfFile` | src/data.ts:153-160 | one entry per item key of the file: the entries line up with a list holding each of the file's keys exactly once, and each entry is the slot that key names (empty for a tombstone or outside the array) |
| `Store.DataStore.ReviewId` | src/data.ts:185-215 | a null slot changes nothing; an item in the retry queue keeps its fields and leaves the review queue alone, and it is removed from the retry queue and put back at the end iff the answer is wrong; any other item is answered (`Answered`), leaves the review queue, and joins the retry queue iff the answer is wrong and repeating is on; files and counters are untouched; the store invariant holds |
| `Store.DataStore.ReviewRetry` | src/data.ts:191-197 | the retry branch: only the retry queue changes, and the item stays in it iff the answer is wrong |
| `Store.DataStore.ReviewFirstPass` | src/data.ts:198-213 | the first-pass branch: the item is answered, it is no longer in the review queue, and it is appended to the retry queue iff the answer is wrong and repeating is on |
| `Store.DataStore.TrackFile` | src/data.ts:283-295 | a file slot for the path is pushed; if the note exists it gets one new "file" item (fileIndex = the new file slot) and reports one added and none removed; otherwise the file keeps no items and nothing is reported; the queues are unchanged |
| `Store.DataStore.UntrackFile` | src/data.ts:297-327 | an untracked path changes nothing; otherwise every slot the file names is filtered out of both queues and becomes null, the file slot becomes null, and both arrays keep their length |
| `Store.DataStore.DropFromQueues` | src/data.ts:311-316 | one more slot is filtered out of both queues, which stay free of duplicates; nothing else changes |
| `Store.DataStore.Unqueue` | src/data.ts:311-313 | the slot is filtered out of the review queue, which stays free of duplicates |
| `Store.DataStore.Unretry` | src/data.ts:314-316 | the slot is filtered out of the retry queue, which stays free of duplicates |
| `Store.DataStore.UpdateItems` | src/data.ts:329-383 | an untracked path or a vanished note changes nothing and reports nothing; otherwise an existing "file" item is kept (else one new item is appended and counted as added); every other key's slot leaves both queues and is counted as removed; the tombstone goes to the file's index whenever something was dropped; the file ends up naming only its "file" item |
| `Store.DataStore.AddFileItem` | src/data.ts:352-360 | the "file" item is kept when present; otherwise a new item for this file is appended and counted |
| `Store.DataStore.DropOtherKeys` | src/data.ts:362-374 | every key but "file" is counted; its slot is filtered out of both queues; the file index is tombstoned iff some key was dropped |
| `Store.DataStore.DropStep` | src/data.ts:363-373 | one visited key: dropped and counted iff it is not "file"; the loop's state advances by that key |
| `Store.DataStore.DropKey` | src/data.ts:364-372 | the dropped key's slot leaves both queues, and the tombstone is written at the file index |
| `Store.DataStore.RenameTrackedFile` | src/data.ts:385-398 | only the path of the slot found under the old path changes; an untracked old path changes nothing |
| `Store.DataStore.BuildQueue` | src/data.ts:400-432 | a new day resets the daily count; the slots, queue and count then become the pass `Scan` over every slot; the count grows by exactly the admissions the cap allows; every slot ends settled; `lastQueue` becomes now; the retry queue and files are untouched; the store invariant holds |
| `Store.DataStore.VisitSlot` | src/data.ts:413-430 | the callback on one slot performs exactly the step `Admit` |
| `Store.DataStore.ResetData` | src/data.ts:443-445 | back to the empty store (the source's aliasing of the default arrays can defeat this; see Left out) |
| `Store.RebuildChangesNothing` | src/data.ts:400-432 | two builds at the same time leave the store as one build does: the slots, the queue and the daily count are the single pass `Scan`, the retry queue and tracked files are untouched, `lastQueue` is now and the store invariant holds |
| `Selection.SliceBound` | src/selection.ts:46 | a slice bound always lands inside the string |
| `Selection.SliceInRange` | src/selection.ts:67 | with ordered offsets inside the content, the slice is the substring between them |
| `Selection.Range` | src/selection.ts:50-63 | the indices used by a question and its run: consecutive, from the question on |
| `Selection.RunEnd` | src/selection.ts:51-64 | the answer run after a section is the maximal stretch of following sections whose type is in `answerBlocks` (not in it when `until` is on) |
| `Selection.ScanRun` | src/selection.ts:48-64 | the inner loop finds no start exactly when the run is empty; otherwise it returns the start of the run's first section and the end of its last; it uses the question and the run |
| `Selection.PutItem` | src/selection.ts:74-80 | the item is keyed by the section's id; a section without one gets the next generated id, and exactly one insert at the section's end is pushed |
| `Selection.StoreItem` | src/selection.ts:74-80 | stores one item and pushes its insert, as `PutItem` describes |
| `Selection.BlockStepEmits` | src/selection.ts:66-81 | a section yields an item iff its run is non-empty; the question is its own text and the answer runs from the start of the run's first section to the end of its last; the key and insert follow the id rule, and every other key keeps its item; the section and its run are recorded as used |
| `Selection.BlockStepInserts` | src/selection.ts:74-78 | one section pushes no insert, or one for the next generated id |
| `Selection.BlockInserts` | src/selection.ts:44-83 | over the whole loop, exactly one insert per generated id is appended, in order, after the caller's inserts |
| `Selection.BlockUsedInRange` | src/selection.ts:44-83 | every recorded index names a section of the list |
| `Selection.BlockVisit` | src/selection.ts:44-83 | one outer iteration computes exactly the step `BlockStep` |
| `Selection.SortDescPermutes` | src/selection.ts:85 | sorting with `b - a` keeps the same indices with the same multiplicities |
| `Selection.SortDescSorts` | src/selection.ts:85 | the sorted indices descend, strictly when none is repeated |
| `Selection.SpliceOne` | src/selection.ts:86 | `splice(i, 1)` inside the list cuts out exactly position i; past the end it does nothing |
| `Selection.SpliceDescending` | src/selection.ts:86 | splicing strictly descending in-range indices one by one removes exactly those positions and keeps the rest in order |
| `Selection.SpliceSortedRemovesExactly` | src/selection.ts:85-86 | sorting distinct in-range indices and splicing them removes exactly those positions |
| `Selection.SpliceUsed` | src/selection.ts:86 | the in-place splice loop leaves the list the splices describe |
| `Selection.BlockSpliceRemovesUsed` | src/selection.ts:85-86 | when no section is used twice, exactly the used sections are removed and the others keep their order |
| `Selection.DuplicateUseRemovesUnusedSection` | src/selection.ts:44-86 | for sections [question, answer, answer, other], the used indices are [0,1,2,1,2]; index 1 repeats, 3 is unused, and yet the splice leaves no section at all |
| `Selection.BlockSelector.constructor` | src/selection.ts:29-37 | the selector holds the question types, answer types and `until` it is given |
| `Selection.BlockSelector.Process` | src/selection.ts:39-89 | returns the items of `BlockExtract`, appends its inserts to the caller's list, and leaves the sections the sorted splice of the used indices makes |
| `Selection.InlineStepFacts` | src/selection.ts:111-129 | one section is used iff its type is accepted and its text matches, and it adds at most one item |
| `Selection.InlineStepEmits` | src/selection.ts:110-129 | a section that is not of an accepted type or does not match changes nothing; a matching one stores the matcher's question and answer under the section's id, or under the next generated id with one insert at the section's end, keeps every other key, and is recorded as used |
| `Selection.InlineStepInserts` | src/selection.ts:122-128 | one section pushes no insert, or one insert for the next generated id |
| `Selection.InlineInserts` | src/selection.ts:110-131 | over the whole loop, exactly one insert per generated id is appended, in order, after the caller's inserts |
| `Selection.InlineUsed` | src/selection.ts:110-131 | the used indices are exactly the matching sections, in increasing order; there is at most one item per section |
| `Selection.InlineSpliceRemovesMatches` | src/selection.ts:133-134 | the final splice removes exactly the matching sections and keeps the others in order |
| `Selection.InlineSelector.constructor` | src/selection.ts:97-103 | the selector holds the matcher and the accepted types it is given |
| `Selection.InlineSelector.Process` | src/selection.ts:105-137 | returns the items of `InlineExtract`, appends its inserts to the caller's list, and leaves the sections the sorted splice of the used indices makes |

## Left out

- Loading and saving the store is vault-adapter I/O and JSON parsing (data.ts:68-98), so it is not modelled. Neither is the shallow-copy aliasing of the default arrays at data.ts:75, 85 and 444: the model's store holds values.
- `Store.DataStore.ResetData` always gives the empty store, but the source does not. After a fresh install (data.ts:85), or after an earlier reset (data.ts:444), the store's `items`, `trackedFiles`, `queue` and `repeatQueue` are the `DEFAULT_SRS_DATA` arrays themselves. Every push then grows those shared arrays. A later "Reset Data" command (commands.ts:192) copies the same arrays back, so it keeps the queues, items and tracked files, and zeroes only `lastQueue` and `newAdded`.
- `nextReview` in hours, `getNext`, `getFilePath`, `queueSize` and `repeatQueueSize` are left out. They are floating-point display helpers and trivial accessors.
- The folder walkers (data.ts:217-281) are left out because they depend on the vault's folder tree and only call `trackFile`/`untrackFile`.
- `Notice`, `console.log` and status-bar calls are UI side effects and are dropped. So are the `notice` arguments that control them, and the `oldAdd`/`newAdd` counts `buildQueue` only logs.
- Four inputs become parameters:
  - the wall clock becomes `now`;
  - the vault's file lookup at data.ts:342 becomes `fileExists`;
  - the day-of-month comparison at data.ts:406 becomes the function `dayOf`;
  - the plugin's `repeatItems` setting and the strategy become `repeatItems` and `alg`.
- `Store.DataStore.BuildQueue` requires `now > 0`. The source reads the wall clock there, which is always positive, and a time of 0 would leave admitted items looking new.
- `Store.DataStore.TrackFile` requires the path to be untracked. The source does not check this; every caller checks `isTracked` first.
- `Store.DataStore.GetItemsOfFile` requires the path to be tracked, because the source then reads a property of `undefined` and throws.
- `Store.DataStore.GetItemsOfFile` pins the entries up to their order: which key comes first is not stated, because the model's key map has no insertion order.
- `Store.DataStore.ReviewId` reports whether the slot held an item instead of returning -1 and `undefined`.
- Items are values: setting fields on `item` in place is modelled as writing a new item into its slot, so aliases of an item object are not modelled. The same goes for the strategy's in-place change of `item.data.stage`, which `OnSelection` returns in its `Outcome` instead.
- The strategy's `data.stage === "undefined"` guard (leitner.ts:46) compares a number with a string, so it never fires and is left out.
- `Data.Tombstone` leaves the elements unchanged for a negative index. In JavaScript that write creates a property named after the number rather than an element.
- The abstract strategy class (algorithms.ts:14-25) has one implementation here, so its contract and `updateSettings` live in `LeitnerAlgorithm`. `updateSettings` calls `MiscUtils.assignOnly`, which is taken to be the `ObjectUtils.assignOnly` of utils.ts.
- The SM2 and Anki strategies and the settings tabs, views, commands and modals are not part of this model. Neither is the DOM building in `displaySettings`; only the stage-count callback at leitner.ts:97-123 is kept, as `SetStages`.
- `SetStages` takes an integer, so it does not model the two refusals of a non-number or a non-integer, which only show a notice.
- `Store.DataStore.BuildQueue` takes an integer `maxNew`. The settings tab (settings.ts:161-173) also accepts a fraction above -1, such as 2.5. Since `newAdded` is a whole number, `newAdded < c` then holds exactly when `newAdded < ⌈c⌉`, so a fractional cap `c` admits what the integer cap `⌈c⌉` does (3 items for 2.5, none for -0.5). Only exactly -1 means no cap.
- `Utils.AssignOnly` tests keys in a map. JavaScript's `key in source` also finds keys `source` inherits, such as `toString` and `constructor` from `Object.prototype`, so for such a key of `obj` the source copies the inherited value where the model keeps the old one. The one caller's keys (`stages`, `resetOnIncorrect`, `timings`) are never inherited.
- The block-id generator `BlockUtils.generateBlockId` is not part of this model. It is the parameter `genId`, and the k-th id one call generates is `genId(k)`.
- `Leitner.Delay` multiplies exactly, while the source multiplies doubles. The two differ only for a product beyond 2^53 ms. Timings are never negative (the settings accept 0 as padding or at least 1), so such a product is positive, and `Utils.AddTime` from any non-negative time already leaves the `Date` range and gives NaN in both.
- Saving writes the store as JSON, which turns a NaN review time into `null`. After a reload, `buildQueue` compares that `null` as 0, so the item counts as due and is queued again. The model keeps its items in memory and does not capture this recovery.
- `Selection.Slice` indexes `content` by Dafny characters, which are Unicode scalar values. The source's `slice` and the sections' `offset` values count UTF-16 code units. The model agrees with the program only for notes without characters outside the Basic Multilingual Plane (emoji, for instance); before such a character, question and answer texts would be shifted.
- The inline selector's regular expression is an abstract matcher returning the optional pair of the first two capture groups.
- The `metadata` argument of both `process` methods is unused, and so is `questionBlocks`.
- The source's `BlockSelector(...)` and `InlineSelector(...)` are ordinary methods, not constructors, and nothing sets `InlineSelector.blockTypes`. The model's constructors take the fields as inputs, with `until` as a third input.
- Several loop bodies are separate methods, each proved against the same step function the loop is specified by. This is proof structure only and changes no behaviour:
  - the review branches `ReviewRetry` and `ReviewFirstPass`;
  - `AddFileItem`, `DropOtherKeys`, `DropStep`, `DropKey`, `DropFromQueues`, `Unqueue` and `Unretry`;
  - `VisitSlot`;
  - `ScanRun`, `StoreItem`, `BlockVisit` and `SpliceUsed`.
