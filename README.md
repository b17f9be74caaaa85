# my-local-notion: a Dafny model of the Focus scheduler and the record store

This project models the core of *my-local-notion*, a local-first notebook with kanban boards and a Focus view that schedules cards into hourly time blocks. It covers:

- **The effective-layout engine** (module `EffectiveLayout`). The blocks of one (date, hour) slot are sorted stably by `order`. A cursor starts at the first block's hint, and each block starts at the later of the cursor and its own `startMinute`. `calculateEffectiveEnd` is the cursor after the last block.
- **The scheduling operations built on the layout** (module `FocusTimeBlocks`): remaining capacity, creation with a capacity check, the best-hour search, the per-block window, reordering, and the position-aware sweep that marks elapsed blocks `skipped`.
- **The older scheduling variant that the Focus view imports** (module `FocusHelpers`). Its capacity is `60 − Σduration` and its sweep stacks blocks from minute 0. The module also holds the board rules (first column, done column, break sentinel, eligible and unscheduled cards) and the focus settings merge.
- **The Focus view helpers** (module `FocusViewUtils`): the hour context, the 12-hour clock label, and moving a block to the end of another hour.
- **The reminder poll** (module `UnstartedReminders`). It picks the single active scheduled block of the present hour and applies the session and per-block interval guards.
- **The page, column and card operations** (module `DbHelpers`), including the recursive page-subtree delete.
- **Workspace import** (module `DataTransfer`): last-writer-wins merge of pages and cards, local tombstone suppression, and logging and cascading of imported tombstones, with result counters.
- **The application store** (module `AppStore`): sidebar, active page, and the theme cycle with its persisted value and system-scheme listener.

Conventions:
- **Tables.** The local database is the class `Db.Database`, with one `seq` field per table. Operations that change tables are methods with `modifies` clauses. Each method is proved equal to a specification function, and the properties are lemmas about those functions.
- **Inputs passed in.** The clock is a parameter `Clock(today, hour, minute, nowMs)`, and fresh ids are parameters too.
- **Value types.** Timestamps are epoch milliseconds. Dates are ISO `YYYY-MM-DD` strings compared with JavaScript's string `<` (`Types.LexLess`).

## Model

| member | source | states |
|---|---|---|
| Types.LexLessIrreflexive | src/lib/focus-time-blocks.ts:158 | No date string is earlier than itself, so the sweep hour of today's date comes from the clock and never from the past or future branches |
| TimeBlockTable.OnDate | src/lib/focus-time-blocks.ts:39 | The blocks of a date are exactly the stored blocks with that date |
| TimeBlockTable.InHour | src/lib/focus-time-blocks.ts:39 | The blocks of an hour are exactly those with that `startHour` |
| TimeBlockTable.InSlot | src/lib/focus-time-blocks.ts:39 | The blocks of a (date, hour) slot are exactly the stored blocks with that date and hour |
| TimeBlockTable.InSlotUnique | src/lib/focus-time-blocks.ts:39 | A table with distinct ids gives a slot with distinct ids |
| TimeBlockTable.InSlotAppend | src/lib/focus-time-blocks.ts:57 | Adding a row adds it to its own slot only, at the end |
| TimeBlockTable.MaxOrder | src/lib/focus-time-blocks.ts:58 | The maximum order is attained by some block of the slot and bounds every block |
| TimeBlockTable.NextOrderAppends | src/lib/focus-time-blocks.ts:58 | The order given to an appended block is above every order in the slot, 0 in an empty slot, and one more than an existing order otherwise |
| TimeBlockTable.DeleteById | src/lib/focus-time-blocks.ts:79-81 | The table keeps exactly the rows with a different key |
| TimeBlockTable.DeleteUnique | src/lib/focus-time-blocks.ts:79-81 | A delete never makes two rows share a key |
| TimeBlockTable.UpdatePreservesIds | src/lib/focus-time-blocks.ts:75-77 | An update never makes two rows share a key |
| TimeBlockTable.GroupByHour | src/lib/focus-time-blocks.ts:161-167 | The hour map has exactly the hours of the date's blocks as keys, and each key's list is that hour's blocks in table order |
| TimeBlockTable.SweepComplete | src/lib/focus-time-blocks.ts:169-197 | Once every hour holding a due block is handled, exactly the due rows are skipped and every other row is unchanged |
| EffectiveLayout.InsertPermutes | src/lib/focus-time-blocks.ts:9 | Inserting keeps the blocks as a multiset and keeps the total duration |
| EffectiveLayout.Insert | src/lib/focus-time-blocks.ts:9 | One stable insertion step of the sort: the result is one longer; contents, order and stability are stated by `InsertPermutes`, `InsertSorted` and `InsertEq` |
| EffectiveLayout.InsertSorted | src/lib/focus-time-blocks.ts:9 | Insertion keeps a sequence sorted by `order` |
| EffectiveLayout.InsertEq | src/lib/focus-time-blocks.ts:9 | An inserted block goes in front of the blocks of its own order, and the blocks of every order keep their relative order |
| EffectiveLayout.SortIsSortedPermutation | src/lib/focus-time-blocks.ts:9 | Sorting by `order` yields a sorted permutation of the slot |
| EffectiveLayout.SortIsStable | src/lib/focus-time-blocks.ts:9 | The sort is stable: the blocks of any one order keep their relative order from the input |
| EffectiveLayout.SortByOrder | src/lib/focus-time-blocks.ts:9 | The stable sort by `order` keeps the length; `SortIsSortedPermutation`, `SortIsStable`, `SortKeepsMembers` and `SortKeepsIds` state what it returns |
| EffectiveLayout.SortKeepsTotal | src/lib/focus-time-blocks.ts:9 | Sorting keeps the total duration of the slot |
| EffectiveLayout.SortKeepsMembers | src/lib/focus-time-blocks.ts:9 | The sorted slot holds exactly the slot's blocks |
| EffectiveLayout.SortKeepsIds | src/lib/focus-time-blocks.ts:9 | Sorting keeps the set of ids and their distinctness |
| EffectiveLayout.SortAppendLast | src/lib/focus-time-blocks.ts:9 | A block ordered after all others sorts last |
| EffectiveLayout.PlaceFacts | src/lib/focus-time-blocks.ts:12-19 | Each window belongs to the block at its position, lasts its duration, starts at the later of its hint and the previous end; the final cursor is the last end |
| EffectiveLayout.Place | src/lib/focus-time-blocks.ts:16-19 | The cursor loop, one window per block; `PlaceFacts` and `NoOverlap` state the windows |
| EffectiveLayout.NoOverlap | src/lib/focus-time-blocks.ts:16-19 | With non-negative durations, every window ends before any later window starts |
| EffectiveLayout.EffectiveEndBounds | src/lib/focus-time-blocks.ts:8-22 | The effective end of an empty slot is 0; otherwise it is at least the sum of durations and at least every block's hint plus duration |
| EffectiveLayout.EffectiveEnd | src/lib/focus-time-blocks.ts:8-22 | `calculateEffectiveEnd`, the cursor after the sorted slot; bounded by `EffectiveEndBounds`, extended by `EffectiveEndAppend` |
| EffectiveLayout.FirstCursorIsRedundant | src/lib/focus-time-blocks.ts:12-14 | Starting the cursor at the first block's hint gives the same layout as starting at 0 |
| EffectiveLayout.EffectiveEndAppend | src/lib/focus-time-blocks.ts:16-19 | Appending a block ordered after all others moves the end to the later of the old end and its hint, plus its duration |
| EffectiveLayout.StackFacts | src/lib/focus-helpers.ts:193-200 | In the stacked layout of the older sweep, block i occupies [Σ durations before it, that + its duration) |
| EffectiveLayout.Stack | src/lib/focus-helpers.ts:193-200 | The offset loop of the older sweep, one window per block; `StackFacts` states the windows |
| EffectiveLayout.PlaceNotBeforeStack | src/lib/focus-time-blocks.ts:186-194 | Every effective window starts and ends no earlier than the stacked window of the same block |
| EffectiveLayout.FindPlacementAt | src/lib/focus-time-blocks.ts:121-132 | In a slot with distinct ids, the lookup by id finds that block's own window |
| EffectiveLayout.LayoutFound | src/lib/focus-time-blocks.ts:121-132 | A window the lookup finds belongs to a block of the slot with that id, lasts its duration and starts no earlier than its hint |
| EffectiveLayout.Layout | src/lib/focus-time-blocks.ts:114-135 | The windows of the sorted slot from the first hint; `LayoutFound`, `FindPlacementAt` and `LayoutShape` state what a lookup in it finds |
| EffectiveLayout.LayoutShape | src/lib/focus-time-blocks.ts:8-22 | Slots that differ only in status, card, page and stamps get the same window for every id |
| EffectiveLayout.FindPlacementMissing | src/lib/focus-time-blocks.ts:137 | The lookup finds nothing exactly when no block of the slot has the id |
| FocusTimeBlocks.CapacityBounds | src/lib/focus-time-blocks.ts:38-50 | The capacity is in [0, 60] and is at most what the durations, every hint and, in the current hour, the elapsed minutes leave; an empty non-current slot has 60 |
| FocusTimeBlocks.RemainingCapacity | src/lib/focus-time-blocks.ts:38-50 | `getRemainingCapacity`; `CapacityBounds` states its range and `CreateConsumesCapacity` how a booking lowers it |
| FocusTimeBlocks.CreateTimeBlock | src/lib/focus-time-blocks.ts:52-73 | Fails with nothing added iff the duration exceeds the capacity; otherwise appends exactly one scheduled block with order max+1 and hint the present minute in the current hour, else 0 |
| FocusTimeBlocks.CreateConsumesCapacity | src/lib/focus-time-blocks.ts:52-73 | A booking that fits moves the slot's end to where the capacity began plus its duration, lowers the capacity by exactly its duration, and leaves other slots alone |
| FocusTimeBlocks.NewBlock | src/lib/focus-time-blocks.ts:52-73 | The block `createTimeBlock` builds; `CreateTimeBlock` and `CreateConsumesCapacity` state its order, hint and effect on the slot |
| FocusTimeBlocks.UpdateTimeBlock | src/lib/focus-time-blocks.ts:75-77 | The table becomes the keyed update of the old table |
| FocusTimeBlocks.UpdateTouchesOnlyItsRecord | src/lib/focus-time-blocks.ts:75-77 | The keyed update (`UpdateById`) keeps the id set and every other record; the keyed record keeps its card, page and creation time, takes `updatedAt = now`, and for each of `startHour`, `startMinute`, `date`, `durationMinutes`, `status` and `order` takes the given value or keeps its own when omitted; an empty update only stamps `updatedAt` |
| FocusTimeBlocks.DeleteTimeBlock | src/lib/focus-time-blocks.ts:79-81 | Exactly the rows with that key are removed |
| FocusTimeBlocks.WithoutCard | src/lib/focus-time-blocks.ts:141-143 | The table keeps exactly the blocks of other cards |
| FocusTimeBlocks.RemoveTimeBlocksForCard | src/lib/focus-time-blocks.ts:141-143 | The table becomes the old table without the card's blocks |
| FocusTimeBlocks.FindAvailableHour | src/lib/focus-time-blocks.ts:84-110 | Returns the current hour when it is today's, inside the day and has room; else the first allowed hour with room; else `dayStartHour` |
| FocusTimeBlocks.FirstFreeHour | src/lib/focus-time-blocks.ts:84-110 | Given a room test, returns the present hour when it is today's, in the day and has room; else the first hour in the day with room; else the day's start |
| FocusTimeBlocks.EffectiveBlockTimeMissing | src/lib/focus-time-blocks.ts:112-138 | There is no window exactly when no block with that id is stored in the slot named by the argument |
| FocusTimeBlocks.EffectiveBlockTimeOfStored | src/lib/focus-time-blocks.ts:112-138 | A window belongs to the stored block with that id, lasts its duration and starts no earlier than its hint |
| FocusTimeBlocks.EffectiveBlockTimesDisjoint | src/lib/focus-time-blocks.ts:112-138 | Two distinct blocks of one slot both have windows, and the windows do not overlap |
| FocusTimeBlocks.EffectiveBlockTime | src/lib/focus-time-blocks.ts:112-138 | `getEffectiveBlockTime`; `EffectiveBlockTimeMissing`, `EffectiveBlockTimeOfStored`, `EffectiveBlockTimesDisjoint` and `WindowShape` state its result |
| FocusTimeBlocks.ScenarioStackedBlocksWithGaps | src/lib/__tests__/focus-time-blocks.test.ts:34-57 | A(0,20) B(hint 30,10) C(hint 25,15) at 10:00 give B 10:30–10:40 and C 10:40–10:55; an unknown id gives none |
| FocusTimeBlocks.ScenarioLayout | src/lib/__tests__/focus-time-blocks.test.ts:34-57 | The same slot laid out in full: A 0–20, B 30–40, C 40–55 |
| FocusTimeBlocks.InSlotWhole | src/lib/focus-time-blocks.ts:113 | A table holding only one slot's blocks is that slot |
| FocusTimeBlocks.LastIndexOf | src/lib/focus-time-blocks.ts:148-150 | The last position of an id, or -1 exactly when it is absent |
| FocusTimeBlocks.ReorderBlocksInHour | src/lib/focus-time-blocks.ts:146-151 | The table becomes the reordering of the old one by the id list |
| FocusTimeBlocks.ReorderStep | src/lib/focus-time-blocks.ts:148-150 | Each loop step is the keyed update that sets `order = i` |
| FocusTimeBlocks.ReorderAssignsPositions | src/lib/focus-time-blocks.ts:146-151 | A listed id gets its position as order, nothing but order and `updatedAt` changes, and unlisted rows stay |
| FocusTimeBlocks.Reordered | src/lib/focus-time-blocks.ts:146-151 | The table after the reorder loop; `ReorderAssignsPositions` states it |
| FocusTimeBlocks.MarkSkippedBlocks | src/lib/focus-time-blocks.ts:154-198 | The table becomes the sweep of the old one |
| FocusTimeBlocks.SkipHourOver | src/lib/focus-time-blocks.ts:172-178 | In an hour that is over, every scheduled block of the date is skipped |
| FocusTimeBlocks.DueInHourOver | src/lib/focus-time-blocks.ts:172-178 | In an hour that is over, a block is due exactly when it is scheduled |
| FocusTimeBlocks.SkipElapsedInHour | src/lib/focus-time-blocks.ts:179-195 | In the present hour, the cursor loop skips exactly the scheduled blocks whose effective end is at most the present minute |
| FocusTimeBlocks.CursorStep | src/lib/focus-time-blocks.ts:186-194 | The loop's cursor is the previous window's end, so `blockEnd` is the window end |
| FocusTimeBlocks.ElapsedInPresentHour | src/lib/focus-time-blocks.ts:179-195 | A present-hour block is due iff it is scheduled and its window in the sorted layout ends by the present minute |
| FocusTimeBlocks.SweptOnlySkips | src/lib/focus-time-blocks.ts:154-198 | The sweep changes only status, only scheduled→skipped, only on that date; completed blocks, order and durations are untouched |
| FocusTimeBlocks.Swept | src/lib/focus-time-blocks.ts:154-198 | The table after the sweep, of the same length; `SweptOnlySkips`, `SweptPastDate`, `SweptFutureDate`, `SweptToday` and `SweepIdempotent` state it |
| FocusTimeBlocks.SweepHour | src/lib/focus-time-blocks.ts:158 | The hour the sweep treats as present: the clock hour today, 24 for a past date, -1 for a future one; used by `SweptToday`, `SweptPastDate`, `SweptFutureDate` |
| FocusTimeBlocks.Elapsed | src/lib/focus-time-blocks.ts:172-195 | Whether the sweep skips a block; `DueInHourOver` and `ElapsedInPresentHour` state when |
| FocusTimeBlocks.SweptPastDate | src/lib/focus-time-blocks.ts:158-178 | For a past date every scheduled block is skipped |
| FocusTimeBlocks.SweptFutureDate | src/lib/focus-time-blocks.ts:158 | For a future date nothing changes |
| FocusTimeBlocks.SweptToday | src/lib/focus-time-blocks.ts:172-195 | Today, earlier hours are skipped and later hours kept; in the present hour a block is skipped iff its effective window has ended |
| FocusTimeBlocks.WindowShape | src/lib/focus-time-blocks.ts:112-138 | Windows depend only on ids, dates, hours, hints, durations and orders, not on status |
| FocusTimeBlocks.WindowFromPlacement | src/lib/focus-time-blocks.ts:121-132 | The window is the slot layout's placement of the block, shifted to its hour |
| FocusTimeBlocks.SweepIdempotent | src/lib/focus-time-blocks.ts:154-198 | A second sweep with the same clock changes nothing |
| FocusHelpers.CreateBreakBlock | src/lib/focus-helpers.ts:12-14 | Fails with `CapacityExceeded` and no change iff the duration exceeds the older capacity; otherwise appends exactly the block the older create builds (`LegacyNewBlock`), with the break sentinel as card and page |
| FocusHelpers.FirstMinIndex | src/lib/focus-helpers.ts:19-20 | The first column of minimum order, as a stable sort puts it first |
| FocusHelpers.FirstMaxIndex | src/lib/focus-helpers.ts:31 | The first column of maximum order, as a stable descending sort puts it first |
| FocusHelpers.FirstColumn | src/lib/focus-helpers.ts:17-21 | None iff the board has no columns; otherwise the id and title of the first column of least order |
| FocusHelpers.DoneColumnId | src/lib/focus-helpers.ts:28-32 | A non-empty explicit done column wins; otherwise none iff there are no columns, else the first column of greatest order, as the stable descending sort puts it first |
| FocusHelpers.OfBoard | src/lib/focus-helpers.ts:49-54 | One board's entries are exactly its top-level cards outside the done column |
| FocusHelpers.EligibleCards | src/lib/focus-helpers.ts:44-57 | The entries are exactly the top-level (`parentId` null) cards of kanban boards outside their done column |
| FocusHelpers.IsCardDone | src/lib/focus-helpers.ts:34-37 | `isCardDone`: the card is in the board's done column; used by `OfBoard` and `EligibleCards` |
| FocusHelpers.OpenTopLevel | src/lib/focus-helpers.ts:49-50 | A card of the board that is top level and not done; `EligibleCards` and `UnscheduledMembers` state the lists it selects |
| FocusHelpers.GetAllEligibleCards | src/lib/focus-helpers.ts:44-57 | The nested loops collect exactly the eligible-card list |
| FocusHelpers.Unscheduled | src/lib/focus-helpers.ts:59-63 | Keeps exactly the eligible entries whose card has no time block |
| FocusHelpers.GetUnscheduledCards | src/lib/focus-helpers.ts:59-63 | Returns the unscheduled filter of the eligible cards |
| FocusHelpers.UnscheduledMembers | src/lib/focus-helpers.ts:44-63 | An entry is unscheduled iff it is eligible and no block names its card |
| FocusHelpers.LegacyCreateTimeBlock | src/lib/focus-helpers.ts:88-101 | Fails with nothing added iff the duration exceeds `60 − Σduration` (less elapsed minutes now); otherwise appends one scheduled block with order max+1, hinted at the present minute only in an empty current-hour slot |
| FocusHelpers.LegacyCapacityBooks | src/lib/focus-helpers.ts:79-101 | The older capacity lies in [0, 60], and a fitting booking lowers it by exactly its duration |
| FocusHelpers.LegacyCapacity | src/lib/focus-helpers.ts:79-86 | The older `getRemainingCapacity`; `LegacyCapacityBooks` states its range and how a booking lowers it |
| FocusHelpers.LegacyNewBlock | src/lib/focus-helpers.ts:88-101 | The block the older `createTimeBlock` builds; `LegacyCreateTimeBlock` states its order and hint |
| FocusHelpers.TotalNonNegative | src/lib/focus-helpers.ts:81 | The used minutes are never negative |
| FocusHelpers.TotalAppend | src/lib/focus-helpers.ts:81 | The used minutes grow by exactly the appended duration |
| FocusHelpers.EffectiveCapacityAtMostLegacy | src/lib/focus-helpers.ts:79-86 | Outside the current hour the layout-aware capacity never exceeds the older one |
| FocusHelpers.CurrentHourCapacitiesDiffer | src/lib/focus-helpers.ts:79-86 | In the current hour the two formulas disagree: a 10-minute block at 10:00 seen at 10:30 leaves 30 by the layout and 20 by the older rule |
| FocusHelpers.LegacyFindAvailableHour | src/lib/focus-helpers.ts:112-133 | The same search as the layout variant under the older capacity |
| FocusHelpers.LegacyMarkSkippedBlocks | src/lib/focus-helpers.ts:166-203 | The table becomes the older sweep of the old one |
| FocusHelpers.LegacySweepHour | src/lib/focus-helpers.ts:181-201 | One hour of the older sweep skips exactly its due blocks |
| FocusHelpers.LegacyDueInHourOver | src/lib/focus-helpers.ts:184-190 | In an hour that is over, a block is due exactly when it is scheduled |
| FocusHelpers.LegacySkipElapsedInHour | src/lib/focus-helpers.ts:191-200 | The offset loop skips exactly the scheduled blocks whose stacked end is at most the present minute |
| FocusHelpers.OffsetStep | src/lib/focus-helpers.ts:193-199 | The running offset is the sum of the earlier durations, so `blockEnd` is the stacked end |
| FocusHelpers.LegacyElapsedInPresentHour | src/lib/focus-helpers.ts:191-200 | A present-hour block is due iff it is scheduled and its stacked window ends by the present minute, ignoring hints |
| FocusHelpers.LegacySweptOnlySkips | src/lib/focus-helpers.ts:166-203 | The older sweep changes only scheduled→skipped on that date and nothing else |
| FocusHelpers.LegacySwept | src/lib/focus-helpers.ts:166-203 | The table after the older sweep, of the same length; `LegacySweptOnlySkips` and `LegacySweepIdempotent` state it |
| FocusHelpers.LegacyElapsed | src/lib/focus-helpers.ts:181-201 | Whether the older sweep skips a block; `LegacyDueInHourOver` and `LegacyElapsedInPresentHour` state when |
| FocusHelpers.StackedWindowShape | src/lib/focus-helpers.ts:193-200 | Stacked windows do not depend on status |
| FocusHelpers.LegacySweepIdempotent | src/lib/focus-helpers.ts:166-203 | A second older sweep changes nothing |
| FocusHelpers.EffectiveSkipsAreLegacySkips | src/lib/focus-helpers.ts:191-200 | Every block the layout-aware sweep skips, the older sweep skips too |
| FocusHelpers.LegacySweepSkipsFreshBlock | src/lib/focus-helpers.ts:94-97 | A 10-minute block booked at 10:30 into an empty current hour is hinted at 30 yet skipped by a sweep at 10:30 |
| FocusHelpers.FreshBlockSurvivesSweep | src/lib/focus-time-blocks.ts:52-73 | A block just booked into the current hour with positive duration is left alone by the layout-aware sweep at the same minute |
| FocusHelpers.GetFocusSettings | src/lib/focus-helpers.ts:138-143 | Returns the stored record over the defaults; with nothing stored it writes and returns the defaults |
| FocusHelpers.UpdateFocusSettings | src/lib/focus-helpers.ts:145-150 | Stores and returns the updates merged over the current settings |
| FocusHelpers.SettingsRoundTrip | src/lib/focus-helpers.ts:136-150 | Of the settings merge (`Merge`, the spread `{ ...base, ...patch }`): stored settings read back unchanged, an empty update changes nothing, and applying an update twice equals applying it once |
| FocusViewUtils.HourContextBounds | src/lib/focus-view-utils.ts:21-26 | The capacity the hour context (`GetHourContext`) displays lies in [0, 60], and in the current hour within the minutes left |
| FocusViewUtils.DisplayHour | src/lib/focus-view-utils.ts:32 | The dial hour is in 1..12 and agrees with the hour modulo 12 (0 and 12 show as 12) |
| FocusViewUtils.HourText | src/lib/focus-view-utils.ts:33 | The hour is written as one or two digits, unpadded |
| FocusViewUtils.FormatClockTime | src/lib/focus-view-utils.ts:28-34 | The label is `h:mm AM/PM` with two minute digits, and "PM" iff hours ≥ 12 |
| FocusViewUtils.FormatClockTimeRoundTrip | src/lib/focus-view-utils.ts:28-34 | Reading a label back gives the hours and minutes it was made from |
| FocusViewUtils.FormatClockTimeInjective | src/lib/focus-view-utils.ts:28-34 | Different times never share a label |
| FocusViewUtils.MoveBlockToHour | src/lib/focus-view-utils.ts:36-41 | The block is updated to the new hour and to order one more than the greatest order in that hour of the selected date (0 if none), without a capacity check |
| FocusViewUtils.MoveKeepsBlock | src/lib/focus-view-utils.ts:36-41 | The moved block keeps its date, hint, duration, status and card and ranks after every block of the target hour; other rows are untouched |
| FocusViewUtils.StrictMaxComesLast | src/lib/focus-view-utils.ts:39 | In an order-sorted sequence, an element ranked above all others is last |
| FocusViewUtils.MovedRanksLast | src/lib/focus-view-utils.ts:36-41 | After a move within the selected date, the block is in its new slot and ranks above every other block there |
| FocusViewUtils.SortPutsStrictMaxLast | src/lib/focus-view-utils.ts:39 | Sorting by order puts the strictly greatest element last |
| FocusViewUtils.MovedBlockLaysOutLast | src/lib/focus-view-utils.ts:36-41 | The moved block is laid out last in its new hour |
| UnstartedReminders.ScheduledOnly | src/lib/use-unstarted-reminders.tsx:40 | Keeps exactly the scheduled blocks |
| UnstartedReminders.Candidates | src/lib/use-unstarted-reminders.tsx:37-44 | Candidates are exactly today's scheduled blocks of the present hour |
| UnstartedReminders.ReminderHistory.constructor | src/lib/use-unstarted-reminders.tsx:21 | The history starts from the loaded map |
| UnstartedReminders.ReminderHistory.CheckUnstartedTasks | src/lib/use-unstarted-reminders.tsx:24-79 | In zen mode nothing happens; otherwise the settings are read, the reminded block is the one the pure step selects, and only its history entry is set to now |
| UnstartedReminders.FindActiveBlock | src/lib/use-unstarted-reminders.tsx:46-57 | The offset loop with early exit returns the first block whose stacked window holds the present minute |
| UnstartedReminders.ActiveFromIsFirstHolding | src/lib/use-unstarted-reminders.tsx:48-57 | The active block is the first whose stacked window holds the minute; none means no window holds it |
| UnstartedReminders.ActiveFrom | src/lib/use-unstarted-reminders.tsx:46-57 | The offset scan with early exit; `ActiveFromIsFirstHolding` and `ActiveIsUnique` state what it picks |
| UnstartedReminders.ActiveIsUnique | src/lib/use-unstarted-reminders.tsx:48-59 | At most one block is active, namely the one the loop picks |
| UnstartedReminders.ReminderExactly | src/lib/use-unstarted-reminders.tsx:25-72 | A block is reminded iff: not zen mode, interval ≠ 0, the block is active, it is not the session's card or block, the interval has passed, and its card and board exist |
| UnstartedReminders.Reminder | src/lib/use-unstarted-reminders.tsx:25-72 | The block one poll reminds about; `ReminderExactly`, `RemindedIsCurrent` and `NoRepeatWithinInterval` state it |
| UnstartedReminders.RemindedIsCurrent | src/lib/use-unstarted-reminders.tsx:37-59 | A reminded block is a stored scheduled block of today's present hour with positive duration |
| UnstartedReminders.NoRepeatWithinInterval | src/lib/use-unstarted-reminders.tsx:66-77 | After a reminder, the same block is not reminded again within the interval |
| UnstartedReminders.BreakBlocksNotReminded | src/lib/use-unstarted-reminders.tsx:70-72 | A break block is never reminded while no card has the break sentinel as id |
| DbHelpers.NewPage | src/lib/db-helpers.ts:36-53 | A new page has no content and no icon; a board has exactly To Do, In Progress, Done at orders 0, 1, 2, and a document has no columns |
| DbHelpers.CreatePage | src/lib/db-helpers.ts:31-57 | Appends exactly the new page |
| DbHelpers.NewBoardColumns | src/lib/db-helpers.ts:43-49 | On a new board the first column is To Do and the done column is Done |
| DbHelpers.FindPage | src/lib/db-helpers.ts:128 | Finds a page with the key, or none exactly when none is stored |
| DbHelpers.SetColumnsLookup | src/lib/db-helpers.ts:142-145 | Read after write of a board's columns (`SetColumns`): the keyed page is found iff it was, with the new columns and stamp; every other key reads as before |
| DbHelpers.MaxColumnOrder | src/lib/db-helpers.ts:131-134 | The fold from -1 is the greatest column order, or -1 with no columns |
| DbHelpers.AddColumn | src/lib/db-helpers.ts:124-148 | Fails with no change iff the page is missing; otherwise appends one column with order max+1 and keeps the existing ones |
| DbHelpers.AddedColumnRanksLast | src/lib/db-helpers.ts:131-143 | The existing columns stay in front, and the added one ranks after all of them |
| DbHelpers.UpdateColumn | src/lib/db-helpers.ts:150-163 | Fails iff the page is missing; otherwise stores the edited columns |
| DbHelpers.EditColumnsTouchesOnlyItsColumn | src/lib/db-helpers.ts:158-160 | Editing a column (`EditColumns`) keeps every column id and every other column; the edited one takes each given title or order and keeps each omitted one; an empty change keeps the columns |
| DbHelpers.WithoutColumn | src/lib/db-helpers.ts:181 | Keeps exactly the other columns |
| DbHelpers.WithoutColumnCards | src/lib/db-helpers.ts:174-178 | Removes exactly the cards of that page in that column |
| DbHelpers.DeleteColumn | src/lib/db-helpers.ts:165-184 | Fails with no change iff the page is missing; otherwise drops the column and exactly its cards |
| DbHelpers.MaxCardOrder | src/lib/db-helpers.ts:194-203 | The fold from -1 is the greatest order among the cards of that (page, column) |
| DbHelpers.NewCard | src/lib/db-helpers.ts:205-214 | The new card is top level, has an empty description, and ranks after every card of its column (order 0 in an empty column) |
| DbHelpers.CreateCardAsWritten | src/lib/db-helpers.ts:188-218 | Appends the card as written, without a `parentId` |
| DbHelpers.CreateCard | src/lib/db-helpers.ts:188-218 | Appends the card with `parentId` null |
| DbHelpers.CreatedCardNeverEligible | src/lib/db-helpers.ts:205-214 | A card created as written never appears among the eligible cards |
| DbHelpers.CreatedCardEligible | src/lib/focus-helpers.ts:50 | A card created with `parentId` null on a kanban board, outside the done column, is eligible |
| DbHelpers.UpdateCard | src/lib/db-helpers.ts:220-225 | Stores the card with the given text fields and a new stamp |
| DbHelpers.MoveCard | src/lib/db-helpers.ts:227-237 | Stores the card with the new column and order and a new stamp |
| DbHelpers.CardUpdatesTouchOnlyTheirFields | src/lib/db-helpers.ts:220-237 | Through the keyed card update (`UpdateCards`), a move changes only column, order and stamp; an edit stores each given title or description and the stamp, keeps each omitted text, and changes nothing else; other cards stay |
| DbHelpers.WithoutCard | src/lib/db-helpers.ts:240 | Keeps exactly the cards with another key |
| DbHelpers.DeleteCard | src/lib/db-helpers.ts:239-241 | Removes exactly the cards with that key |
| DbHelpers.AllPageIds | src/lib/db-helpers.ts:97-106 | Every page id is in the set, and there are no more ids than pages, which bounds the traversal |
| DbHelpers.DistinctFitsIn | src/lib/db-helpers.ts:97-106 | A duplicate-free list drawn from a set is no longer than the set |
| DbHelpers.PathExtends | src/lib/db-helpers.ts:99-105 | A child of a descendant is a descendant |
| DbHelpers.PathStaysInside | src/lib/db-helpers.ts:97-106 | A set that holds the root and every child of its members holds every descendant |
| DbHelpers.CollectDescendants | src/lib/db-helpers.ts:97-108 | Collects the page first and then exactly the pages below it |
| DbHelpers.PagesOutside | src/lib/db-helpers.ts:118 | Keeps exactly the pages whose id is not collected |
| DbHelpers.CardsOutside | src/lib/db-helpers.ts:112-115 | Keeps exactly the cards whose board is not collected |
| DbHelpers.DeletePage | src/lib/db-helpers.ts:93-120 | Removes the page, every descendant, and every card on any of them; everything else stays |
| DbHelpers.DeletePageLeavesNoOrphans | src/lib/db-helpers.ts:93-120 | No surviving page has a deleted parent |
| DataTransfer.Find | src/lib/data-transfer.ts:101 | Finds a record with the key, or none exactly when no record has it |
| DataTransfer.FindUnique | src/lib/data-transfer.ts:101 | With one record per key, the lookup returns the stored record |
| DataTransfer.LocalDeletedAt | src/lib/data-transfer.ts:78-82 | The lookup is empty iff no tombstone names the entity, otherwise it holds a logged time |
| DataTransfer.LocalDeletedAtUnique | src/lib/data-transfer.ts:78-82 | With at most one tombstone per entity, the lookup gives exactly that tombstone's time |
| DataTransfer.LogIfAbsent | src/lib/data-transfer.ts:227-245 | After logging, the entity has a tombstone and nothing else gains one; existing tombstones stay; uniqueness per entity is kept |
| DataTransfer.LogCards | src/lib/data-transfer.ts:190-211 | Every listed card gets a tombstone; nothing else gains one; uniqueness is kept |
| DataTransfer.MergeOneKeepsNewer | src/lib/data-transfer.ts:91-157 | After merging a record (`MergeOne`, with `Put` for a replacement), its key holds the newer copy, the local one on a tie or under a later local tombstone; other keys read as before; keys stay unique |
| DataTransfer.Outcome | src/lib/data-transfer.ts:91-122 | The four merge cases of one record; `MergeOneKeepsNewer` states their effect |
| DataTransfer.MergeOne | src/lib/data-transfer.ts:91-157 | One record merged into a table; `MergeOneKeepsNewer` and `MergeOneIdempotent` state it |
| DataTransfer.MergeOneIdempotent | src/lib/data-transfer.ts:91-157 | Merging the same record twice equals merging it once |
| DataTransfer.MergeAll | src/lib/data-transfer.ts:68-157 | The table grows by exactly the added count, and the added plus updated counts never exceed the number of imported records |
| DataTransfer.MergeAllKeepsKeysUnique | src/lib/data-transfer.ts:91-157 | A merge never gives two records the same key |
| DataTransfer.MergeTable | src/lib/data-transfer.ts:91-157 | The merge loop computes the merged table and counters |
| DataTransfer.CardsOn | src/lib/data-transfer.ts:185-188 | Exactly the cards of that board |
| DataTransfer.SubtasksOf | src/lib/data-transfer.ts:205-208 | Exactly the direct subtasks of that card |
| DataTransfer.RemoveCards | src/lib/data-transfer.ts:210-213 | Removes exactly the cards sharing an id with a listed subtask |
| DataTransfer.ApplyDeletion | src/lib/data-transfer.ts:161-219 | Each imported tombstone ends up logged, existing tombstones stay, and uniqueness is kept |
| DataTransfer.PageTombstoneCascade | src/lib/data-transfer.ts:179-198 | A page tombstone applies iff the local page is older; then the page and all its cards go and each card is logged; otherwise pages and cards stay |
| DataTransfer.CardTombstoneCascade | src/lib/data-transfer.ts:199-218 | A card tombstone applies iff the local card is older; then the card and its direct subtasks go and each subtask is logged; otherwise cards stay; pages never change |
| DataTransfer.Tally | src/lib/data-transfer.ts:196-216 | Each tombstone raises the applied count by at most one |
| DataTransfer.ApplyAll | src/lib/data-transfer.ts:161-220 | The applied count never exceeds the imported tombstones, every imported tombstone is logged, and tombstones stay unique |
| DataTransfer.ApplyAllStep | src/lib/data-transfer.ts:161-220 | One loop step applies one more tombstone |
| DataTransfer.Import | src/lib/data-transfer.ts:60-224 | Fails iff the version is not 1; otherwise the counters are bounded, local tombstones are kept, and every imported tombstone is logged once |
| DataTransfer.ReimportChangesNothing | src/lib/data-transfer.ts:101-122 | Merging a table's own pages back into it adds, replaces and counts nothing |
| DataTransfer.ReimportPrefix | src/lib/data-transfer.ts:101-122 | The same for every prefix of the import |
| DataTransfer.LogDeletionIfNotExists | src/lib/data-transfer.ts:227-245 | Adds a tombstone only when none is logged for the entity |
| DataTransfer.LogCardTombstones | src/lib/data-transfer.ts:190-192 | Logs each card of a deleted board |
| DataTransfer.DeleteSubtasks | src/lib/data-transfer.ts:210-213 | Logs and deletes each subtask |
| DataTransfer.ApplyImportedDeletion | src/lib/data-transfer.ts:161-219 | One tombstone against the database, as specified |
| DataTransfer.ApplyImportedDeletions | src/lib/data-transfer.ts:161-220 | The tombstone loop, as specified |
| DataTransfer.ImportWorkspace | src/lib/data-transfer.ts:60-224 | An unsupported version fails before any change; otherwise the tables and counters are those of the pure import |
| AppStore.InitialTheme | src/stores/app-store.ts:33-39 | The stored value when it names a theme, else "system" |
| AppStore.InitialThemeRestoresPersisted | src/stores/app-store.ts:30-39 | A persisted theme is the one the next start picks |
| AppStore.NextTheme | src/stores/app-store.ts:84-87 | The cycle always moves to another theme |
| AppStore.CycleOrder | src/stores/app-store.ts:84-87 | The cycle runs light → dark → system → light |
| AppStore.CycleReturnsAfterThree | src/stores/app-store.ts:84-91 | Three cycles return to the start, visiting light, dark and system |
| AppStore.DeviceSchemeMattersOnlyInSystem | src/stores/app-store.ts:22-29 | Whether the dark class is set (`IsDark`): never for light, always for dark, and the device scheme alone in system mode |
| AppStore.AppState.constructor | src/stores/app-store.ts:62-78 | The store starts with the initial theme applied and listened for, the sidebar open at 260, and no active page |
| AppStore.AppState.ToggleSidebar | src/stores/app-store.ts:72 | Negates `sidebarOpen` and changes nothing else |
| AppStore.AppState.SetSidebarWidth | src/stores/app-store.ts:73 | Stores exactly the given width, unclamped, and nothing else |
| AppStore.AppState.SetActivePage | src/stores/app-store.ts:76 | Stores exactly the given page id and nothing else |
| AppStore.AppState.ApplyTheme | src/stores/app-store.ts:22-60 | Sets the dark class, persists the theme, and installs the listener exactly in system mode |
| AppStore.AppState.SetTheme | src/stores/app-store.ts:79-83 | The theme becomes the given one and stays consistent with what is persisted and listened for |
| AppStore.AppState.CycleTheme | src/stores/app-store.ts:84-91 | The theme becomes the next in the cycle, consistently applied |
| AppStore.AppState.SystemSchemeChanged | src/stores/app-store.ts:55-58 | The listener re-applies the system theme only in system mode |
| AppStore.ToggleTwiceRestores | src/stores/app-store.ts:72 | Toggling twice restores the sidebar |
| AppStore.CycleThriceRestores | src/stores/app-store.ts:84-91 | Three cycles restore the theme and its persisted value |

## Left out

- Session timer: `getRemainingSeconds`, `startSession`, `pauseSession`, `extendSession` and `tickSession` are used by components, but src/stores/app-store.ts defines none of them. Their behaviour is not part of this model.
- React components and hooks: dialogs, calendars, drag and drop, `useLiveQuery`, presentation formatters, the capacity formula local to the time-slot picker, and the breadcrumb walk.
- Dexie: the schema and version upgrade in src/lib/db.ts, transactions, and read order. Each table is a sequence in insertion order, and every query, scan or indexed lookup returns its matches in that order. Dexie returns a table scan in primary-key order and an indexed query in index-value order, then key order. So the model's list order differs from the source's wherever the list is returned or iterated, not only for equal-`order` blocks or appended tombstones. This includes the boards `getAllEligibleCards` scans with `db.pages.filter` (src/lib/focus-helpers.ts:45), the cards it reads with `where("pageId").equals` (src/lib/focus-helpers.ts:48), and therefore the order of the lists `GetAllEligibleCards` and `GetUnscheduledCards` return. Membership and counts do not depend on it; the per-slot layout, a stable sort by `order`, depends on it only among blocks of equal `order`. The shown schema declares only pages and cards; the other tables are modelled as the code uses them.
- Timers and polling: `setInterval` in the reminder hook and the debounce map with `updatePageContent`.
- `updatePageTitle`, `updatePageIcon` and `movePage` are single-field keyed updates of the same shape as `UpdateCard`; they are not modelled separately.
- Audio, toasts and the reminder history in localStorage: `CheckUnstartedTasks` returns the reminded block instead of showing it, and the history is the class's map.
- `matchMedia` and the DOM: the device's colour scheme is a parameter, and the `dark` class, the persisted entry and the listener are fields of `AppState`.
- Date arithmetic: `getMondayOfWeek`, `getTimeBlocksForWeek` and `navigateDay`, and the mix of UTC date with local hour. The clock is given as (today, hour, minute, epoch ms), read once per operation.
- Ids and files: `crypto.randomUUID` ids are parameters; `JSON.parse`, `Blob` and export/download are not modelled. A tombstone's own uuid key is not modelled, since lookups go by (entity type, entity id), so an imported tombstone whose uuid collides with a local one is not modelled either.
- `order ?? 0`: every block has an order, so the fallback is not modelled.
- Settings: an explicit `undefined` in an update or a stored record would overwrite a default, and `reminderIntervalMinutes ?? 5` would then restore it. A patch field here is either present with a value or absent.
- UnstartedReminders.ReminderHistory.CheckUnstartedTasks: the elapsed time is compared in integer milliseconds (`now − last < interval·60000`) rather than as a floating-point count of minutes. The two `Date.now()` readings are taken as one.
- Default parameters (`durationMinutes = 60`, `minCapacity = 1`, `parentId = null`, `pageType = "document"`) are explicit arguments.
- DbHelpers.CollectDescendants: visits pages breadth-first with a membership check, while the source recurses depth-first without one. Both collect the same set when parent links form a forest. The source does not terminate on a cycle of parent links; the model does.
- FocusViewUtils.MovedBlockLaysOutLast: covers a move within the selected date only. Moving a block of another date by id keeps that block's own date, so it lands in a slot the computed order was not taken from.
- DataTransfer.ImportWorkspace: the page and card merge loops work on the table value and store it afterwards, which equals the source's record-by-record writes because no other table is touched in between.

## Findings

| source | as written | input that shows it | evidently intended | confidence | as-written member | corrected member |
|---|---|---|---|---|---|---|
| src/lib/db-helpers.ts:205-214 | `createCard` builds the card without a `parentId` property, while `getAllEligibleCards` keeps only cards with `parentId === null` (src/lib/focus-helpers.ts:50) | any card created on a board, e.g. "Write report" in To Do | a new card is a top-level card with `parentId: null`, as the upgrade in src/lib/db.ts:18-24 sets for older cards, so it can be scheduled | medium, not executed | DbHelpers.CreateCardAsWritten, DbHelpers.CreatedCardNeverEligible | DbHelpers.CreateCard, DbHelpers.CreatedCardEligible |
| src/lib/focus-helpers.ts:94-97, 193-200 | the older `createTimeBlock` hints the first block of the current hour at the present minute, but the older sweep stacks blocks from minute 0 and ignores hints | a 10-minute block booked at 10:30 into an empty 10:00 hour is skipped by a sweep at 10:30 | a block just booked is not skipped before its time; the layout-aware sweep in src/lib/focus-time-blocks.ts:179-195 honours the hint | medium, not executed | FocusHelpers.LegacyMarkSkippedBlocks, FocusHelpers.LegacySweepSkipsFreshBlock | FocusTimeBlocks.MarkSkippedBlocks, FocusHelpers.FreshBlockSurvivesSweep |
