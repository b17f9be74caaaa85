/** The older focus helpers, which the focus view uses: the break-block
    sentinel, the board rules (first column, done column, which cards can be
    scheduled), scheduling with capacity `60 − Σduration`, the sweep that
    stacks blocks from minute 0, and the focus settings record.
    `updateTimeBlock`, `deleteTimeBlock`, `removeTimeBlocksForCard`,
    `reorderBlocksInHour` and `getTimeBlocksForDate` are the same code as in
    the effective-layout module and are modelled there once. */
module FocusHelpers {
  import opened Wrappers
  import opened Types
  import opened Db
  import opened TimeBlockTable
  import opened EffectiveLayout
  import opened FocusTimeBlocks

  // ─── Break blocks ─────────────────────────────────────────────────────────

  const BreakCardId: string := "__break__"
  const BreakPageId: string := "__break__"

  predicate IsBreakBlock(b: TimeBlock) {
    b.cardId == BreakCardId
  }

  /** `createBreakBlock`: a block whose card and page are both the break
      sentinel, under the same capacity rule as any other block. */
  method CreateBreakBlock(db: Database, date: string, startHour: int, durationMinutes: int, clock: Clock, id: string)
    returns (r: Result<TimeBlock, ScheduleError>)
    requires UniqueBlockIds(db.timeBlocks) && id !in BlockIds(db.timeBlocks)
    modifies db`timeBlocks
    ensures UniqueBlockIds(db.timeBlocks)
    ensures r.Err? <==> durationMinutes > LegacyCapacity(old(db.timeBlocks), date, startHour, clock)
    ensures r.Err? ==>
      r.error == CapacityExceeded(durationMinutes, LegacyCapacity(old(db.timeBlocks), date, startHour, clock)) &&
      db.timeBlocks == old(db.timeBlocks)
    ensures r.Ok? ==> IsBreakBlock(r.value) && r.value.pageId == BreakPageId && r.value.id == id
    ensures r.Ok? ==>
      r.value == LegacyNewBlock(old(db.timeBlocks), id, BreakCardId, BreakPageId, date, startHour, durationMinutes, clock) &&
      db.timeBlocks == old(db.timeBlocks) + [r.value]
  {
    r := LegacyCreateTimeBlock(db, BreakCardId, BreakPageId, date, startHour, durationMinutes, clock, id);
  }

  // ─── Board helpers ────────────────────────────────────────────────────────

  /** The position a stable ascending sort by `order` puts first: the
      first column of least order. */
  function FirstMinIndex(cols: seq<KanbanColumn>): (i: nat)
    requires |cols| > 0
    ensures i < |cols|
    ensures forall k :: 0 <= k < |cols| ==> cols[i].order <= cols[k].order
    ensures forall k :: 0 <= k < i ==> cols[k].order > cols[i].order
  {
    if |cols| == 1 then 0
    else
      var j := 1 + FirstMinIndex(cols[1..]);
      if cols[0].order <= cols[j].order then 0 else j
  }

  /** The position a stable descending sort by `order` puts first: the
      first column of greatest order. */
  function FirstMaxIndex(cols: seq<KanbanColumn>): (i: nat)
    requires |cols| > 0
    ensures i < |cols|
    ensures forall k :: 0 <= k < |cols| ==> cols[k].order <= cols[i].order
    ensures forall k :: 0 <= k < i ==> cols[k].order < cols[i].order
  {
    if |cols| == 1 then 0
    else
      var j := 1 + FirstMaxIndex(cols[1..]);
      if cols[0].order >= cols[j].order then 0 else j
  }

  datatype ColumnRef = ColumnRef(id: string, title: string)

  /** `getFirstColumn`: nothing for a board without columns, else the first
      of its columns of least order. */
  function FirstColumn(page: Page): (r: Option<ColumnRef>)
    ensures r.None? <==> page.columns == []
    ensures r.Some? ==> exists i :: (0 <= i < |page.columns| &&
      r.value == ColumnRef(page.columns[i].id, page.columns[i].title) &&
      (forall k :: 0 <= k < |page.columns| ==> page.columns[i].order <= page.columns[k].order) &&
      (forall k :: 0 <= k < i ==> page.columns[k].order > page.columns[i].order))
  {
    if page.columns == [] then None
    else
      var i := FirstMinIndex(page.columns);
      Some(ColumnRef(page.columns[i].id, page.columns[i].title))
  }

  /** `getDoneColumnId`: a non-empty `doneColumnId` wins; otherwise the
      first column of greatest order, if there is a column at all. */
  function DoneColumnId(page: Page): (r: Option<string>)
    ensures page.doneColumnId.Some? && page.doneColumnId.value != "" ==> r == page.doneColumnId
    ensures (page.doneColumnId.None? || page.doneColumnId.value == "") ==>
      (r.None? <==> page.columns == []) &&
      (r.Some? ==> exists i :: (0 <= i < |page.columns| && r.value == page.columns[i].id &&
        (forall k :: 0 <= k < |page.columns| ==> page.columns[k].order <= page.columns[i].order) &&
        (forall k :: 0 <= k < i ==> page.columns[k].order < page.columns[i].order)))
  {
    if page.doneColumnId.Some? && page.doneColumnId.value != "" then page.doneColumnId
    else if page.columns == [] then None
    else Some(page.columns[FirstMaxIndex(page.columns)].id)
  }

  /** `isCardDone`. */
  predicate IsCardDone(card: KanbanCard, page: Page) {
    DoneColumnId(page).Some? && card.columnId == DoneColumnId(page).value
  }

  // ─── Eligible and unscheduled cards ───────────────────────────────────────

  datatype EligibleCard = EligibleCard(card: KanbanCard, boardName: string, columnName: string, pageId: string)

  /** `col?.title || "Unknown"` for the first column with that id. */
  function ColumnName(cols: seq<KanbanColumn>, id: string): string {
    if cols == [] then "Unknown"
    else if cols[0].id == id then (if cols[0].title != "" then cols[0].title else "Unknown")
    else ColumnName(cols[1..], id)
  }

  function Entry(page: Page, card: KanbanCard): EligibleCard {
    EligibleCard(card, if page.title != "" then page.title else "Untitled Board",
                 ColumnName(page.columns, card.columnId), page.id)
  }

  /** A card of the board that can be scheduled: top level (`parentId`
      exactly `null`) and not in the board's done column. */
  predicate OpenTopLevel(card: KanbanCard, page: Page) {
    card.pageId == page.id && card.parentId == TopLevel && !IsCardDone(card, page)
  }

  /** The entries the inner loop collects for one board, in table order. */
  function OfBoard(page: Page, cards: seq<KanbanCard>): (r: seq<EligibleCard>)
    ensures forall e :: e in r <==> exists c :: c in cards && OpenTopLevel(c, page) && e == Entry(page, c)
  {
    if cards == [] then []
    else
      var last := cards[|cards| - 1];
      var rest := OfBoard(page, cards[..|cards| - 1]);
      assert forall c :: c in cards <==> c in cards[..|cards| - 1] || c == last;
      rest + (if OpenTopLevel(last, page) then [Entry(page, last)] else [])
  }

  /** `getAllEligibleCards` as a value: every board's entries, boards in
      table order. */
  function EligibleCards(pages: seq<Page>, cards: seq<KanbanCard>): (r: seq<EligibleCard>)
    ensures forall e :: e in r <==>
      exists p, c :: p in pages && p.pageType == Kanban && c in cards && OpenTopLevel(c, p) && e == Entry(p, c)
  {
    if pages == [] then []
    else
      var last := pages[|pages| - 1];
      var rest := EligibleCards(pages[..|pages| - 1], cards);
      assert forall p :: p in pages <==> p in pages[..|pages| - 1] || p == last;
      rest + (if last.pageType == Kanban then OfBoard(last, cards) else [])
  }

  method GetAllEligibleCards(db: Database) returns (results: seq<EligibleCard>)
    ensures results == EligibleCards(db.pages, db.kanbanCards)
  {
    results := [];
    var pages := db.pages;
    var cards := db.kanbanCards;
    for i := 0 to |pages|
      invariant results == EligibleCards(pages[..i], cards)
    {
      var page := pages[i];
      assert pages[..i + 1][..i] == pages[..i];
      if page.pageType == Kanban {
        var doneColId := DoneColumnId(page);
        ghost var before := results;
        for j := 0 to |cards|
          invariant results == before + OfBoard(page, cards[..j])
        {
          var c := cards[j];
          assert cards[..j + 1][..j] == cards[..j];
          if c.pageId == page.id && c.parentId == TopLevel && !(doneColId.Some? && c.columnId == doneColId.value) {
            results := results + [Entry(page, c)];
          }
        }
        assert cards[..|cards|] == cards;
      }
    }
    assert pages[..|pages|] == pages;
  }

  /** `getUnscheduledCards` as a value: the eligible entries whose card has
      no time block at all. */
  function Unscheduled(eligible: seq<EligibleCard>, blocks: seq<TimeBlock>): (r: seq<EligibleCard>)
    ensures forall e :: e in r <==> e in eligible && forall b :: b in blocks ==> b.cardId != e.card.id
  {
    if eligible == [] then []
    else
      assert forall e :: e in eligible <==> e == eligible[0] || e in eligible[1..];
      (if (forall b :: b in blocks ==> b.cardId != eligible[0].card.id) then [eligible[0]] else [])
      + Unscheduled(eligible[1..], blocks)
  }

  method GetUnscheduledCards(db: Database) returns (r: seq<EligibleCard>)
    ensures r == Unscheduled(EligibleCards(db.pages, db.kanbanCards), db.timeBlocks)
  {
    var allEligible := GetAllEligibleCards(db);
    r := Unscheduled(allEligible, db.timeBlocks);
  }

  /** An entry can be scheduled exactly when its card is a top-level card of
      a kanban board, outside the done column, and no block names it. */
  lemma UnscheduledMembers(pages: seq<Page>, cards: seq<KanbanCard>, blocks: seq<TimeBlock>, e: EligibleCard)
    ensures e in Unscheduled(EligibleCards(pages, cards), blocks) <==>
      (exists p, c :: p in pages && p.pageType == Kanban && c in cards && OpenTopLevel(c, p) && e == Entry(p, c)) &&
      forall b :: b in blocks ==> b.cardId != e.card.id
  {
  }

  // ─── Legacy capacity and creation ─────────────────────────────────────────

  /** The older `getRemainingCapacity`: 60 (or, in the current hour, the
      minutes left in it) less the durations already booked, floored at 0. */
  function LegacyCapacity(rows: seq<TimeBlock>, date: string, hour: int, clock: Clock): int {
    var baseCapacity := if IsCurrentHour(date, hour, clock) then 60 - clock.minute else 60;
    Max(0, baseCapacity - Total(InSlot(rows, date, hour)))
  }

  /** The record the older `createTimeBlock` adds: it is hinted at the
      present minute only when it is the first block of the current hour. */
  function LegacyNewBlock(rows: seq<TimeBlock>, id: string, cardId: string, pageId: string, date: string,
                          startHour: int, durationMinutes: int, clock: Clock): TimeBlock
  {
    TimeBlock(id, cardId, pageId, date, startHour,
              if IsCurrentHour(date, startHour, clock) && InSlot(rows, date, startHour) == [] then clock.minute else 0,
              durationMinutes, Scheduled, NextOrder(InSlot(rows, date, startHour)),
              clock.nowMs, clock.nowMs)
  }

  method LegacyCreateTimeBlock(db: Database, cardId: string, pageId: string, date: string, startHour: int,
                               durationMinutes: int, clock: Clock, id: string)
    returns (r: Result<TimeBlock, ScheduleError>)
    requires UniqueBlockIds(db.timeBlocks) && id !in BlockIds(db.timeBlocks)
    modifies db`timeBlocks
    ensures UniqueBlockIds(db.timeBlocks)
    ensures r.Err? <==> durationMinutes > LegacyCapacity(old(db.timeBlocks), date, startHour, clock)
    ensures r.Err? ==> db.timeBlocks == old(db.timeBlocks)
    ensures r.Err? ==>
      r.error == CapacityExceeded(durationMinutes, LegacyCapacity(old(db.timeBlocks), date, startHour, clock))
    ensures r.Ok? ==>
      r.value == LegacyNewBlock(old(db.timeBlocks), id, cardId, pageId, date, startHour, durationMinutes, clock) &&
      db.timeBlocks == old(db.timeBlocks) + [r.value]
  {
    var capacity := LegacyCapacity(db.timeBlocks, date, startHour, clock);
    if durationMinutes > capacity {
      return Err(CapacityExceeded(durationMinutes, capacity));
    }
    var block := LegacyNewBlock(db.timeBlocks, id, cardId, pageId, date, startHour, durationMinutes, clock);
    db.timeBlocks := db.timeBlocks + [block];
    r := Ok(block);
  }

  /** The older capacity lies in [0, 60] for a valid clock, and a successful
      creation books exactly its duration: the capacity drops by it. */
  lemma LegacyCapacityBooks(rows: seq<TimeBlock>, id: string, cardId: string, pageId: string,
                            date: string, hour: int, d: int, clock: Clock)
    requires ValidClock(clock) && NonNegativeDurations(InSlot(rows, date, hour))
    requires 0 <= d <= LegacyCapacity(rows, date, hour, clock)
    ensures 0 <= LegacyCapacity(rows, date, hour, clock) <= 60
    ensures var rows' := rows + [LegacyNewBlock(rows, id, cardId, pageId, date, hour, d, clock)];
      LegacyCapacity(rows', date, hour, clock) == LegacyCapacity(rows, date, hour, clock) - d
  {
    var b := LegacyNewBlock(rows, id, cardId, pageId, date, hour, d, clock);
    var slot := InSlot(rows, date, hour);
    InSlotAppend(rows, b, date, hour);
    assert InSlot(rows + [b], date, hour) == slot + [b];
    TotalAppend(slot, b);
    TotalNonNegative(slot);
  }

  lemma {:induction false} TotalNonNegative(s: seq<TimeBlock>)
    requires NonNegativeDurations(s)
    ensures Total(s) >= 0
  {
    if s != [] {
      assert s[0] in s;
      assert forall x :: x in s[1..] ==> x in s;
      TotalNonNegative(s[1..]);
    }
  }

  lemma {:induction false} TotalAppend(s: seq<TimeBlock>, x: TimeBlock)
    ensures Total(s + [x]) == Total(s) + x.durationMinutes
  {
    if s != [] {
      assert (s + [x])[1..] == s[1..] + [x];
      TotalAppend(s[1..], x);
    }
  }

  /** Outside the current hour the effective layout never offers more room
      than the older capacity: its end is at least the booked total. */
  lemma EffectiveCapacityAtMostLegacy(rows: seq<TimeBlock>, date: string, hour: int, clock: Clock)
    requires NonNegativeDurations(InSlot(rows, date, hour))
    requires !IsCurrentHour(date, hour, clock)
    ensures RemainingCapacity(rows, date, hour, clock) <= LegacyCapacity(rows, date, hour, clock)
  {
    EffectiveEndBounds(InSlot(rows, date, hour));
  }

  /** In the current hour the two capacities part ways: a 10-minute block
      booked at 10:00 leaves 30 minutes at 10:30 by the layout, but only 20
      by the older count, which subtracts booked and elapsed time twice. */
  lemma CurrentHourCapacitiesDiffer()
    ensures var b := TimeBlock("x", "card", "page", "2026-02-12", 10, 0, 10, Scheduled, 0, 0, 0);
      var clock := Clock("2026-02-12", 10, 30, 0);
      RemainingCapacity([b], "2026-02-12", 10, clock) == 30 &&
      LegacyCapacity([b], "2026-02-12", 10, clock) == 20
  {
    var b := TimeBlock("x", "card", "page", "2026-02-12", 10, 0, 10, Scheduled, 0, 0, 0);
    InSlotWhole([b], "2026-02-12", 10);
    assert SortByOrder([b]) == [b];
    assert EndAfter([b], 0) == 10;
  }

  // ─── Legacy findAvailableHour ─────────────────────────────────────────────

  predicate LegacyHasRoom(rows: seq<TimeBlock>, date: string, h: int, clock: Clock, minCapacity: int) {
    LegacyCapacity(rows, date, h, clock) >= minCapacity
  }

  predicate LegacyCurrentHourFits(rows: seq<TimeBlock>, date: string, dayStartHour: int, dayEndHour: int,
                                  minCapacity: int, clock: Clock)
  {
    date == clock.today && dayStartHour <= clock.hour < dayEndHour &&
    LegacyHasRoom(rows, date, clock.hour, clock, minCapacity)
  }

  /** The older `findAvailableHour`: same search, older capacity. */
  method LegacyFindAvailableHour(db: Database, date: string, dayStartHour: int, dayEndHour: int,
                                 minCapacity: int, clock: Clock)
    returns (hour: int)
    ensures LegacyCurrentHourFits(db.timeBlocks, date, dayStartHour, dayEndHour, minCapacity, clock) ==>
      hour == clock.hour
    ensures (!LegacyCurrentHourFits(db.timeBlocks, date, dayStartHour, dayEndHour, minCapacity, clock) &&
             exists h :: Allowed(date, h, dayStartHour, dayEndHour, clock) && LegacyHasRoom(db.timeBlocks, date, h, clock, minCapacity))
      ==> (Allowed(date, hour, dayStartHour, dayEndHour, clock) &&
           LegacyHasRoom(db.timeBlocks, date, hour, clock, minCapacity) &&
           forall h :: h < hour && Allowed(date, h, dayStartHour, dayEndHour, clock) ==>
             !LegacyHasRoom(db.timeBlocks, date, h, clock, minCapacity))
    ensures ((forall h :: Allowed(date, h, dayStartHour, dayEndHour, clock) ==> !LegacyHasRoom(db.timeBlocks, date, h, clock, minCapacity)) &&
             !LegacyCurrentHourFits(db.timeBlocks, date, dayStartHour, dayEndHour, minCapacity, clock))
      ==> hour == dayStartHour
  {
    var rows := db.timeBlocks;
    hour := FirstFreeHour(h => LegacyHasRoom(rows, date, h, clock, minCapacity), date, dayStartHour, dayEndHour,
                          clock);
  }

  // ─── Legacy markSkippedBlocks ─────────────────────────────────────────────

  /** The window the older sweep gives block `b`: stacked from minute 0 in
      order, hints ignored. */
  function StackedWindow(rows: seq<TimeBlock>, b: TimeBlock): Option<Placement> {
    FindPlacement(Stack(SortByOrder(InSlot(rows, b.date, b.startHour)), 0), b.id)
  }

  predicate LegacyElapsed(rows: seq<TimeBlock>, b: TimeBlock, date: string, clock: Clock) {
    b.date == date && b.status == Scheduled &&
    (b.startHour < SweepHour(date, clock) ||
     (b.startHour == SweepHour(date, clock) && date == clock.today &&
      StackedWindow(rows, b).Some? && StackedWindow(rows, b).value.end <= clock.minute))
  }

  /** The table after the older `markSkippedBlocks(date)`. */
  function LegacySwept(rows: seq<TimeBlock>, date: string, clock: Clock): (r: seq<TimeBlock>)
    ensures |r| == |rows|
  {
    seq(|rows|, k requires 0 <= k < |rows| =>
      if LegacyElapsed(rows, rows[k], date, clock) then Skip(rows[k], clock.nowMs) else rows[k])
  }

  ghost function LegacyDue(rows0: seq<TimeBlock>, date: string, clock: Clock): TimeBlock -> bool {
    x => LegacyElapsed(rows0, x, date, clock)
  }

  method LegacyMarkSkippedBlocks(db: Database, date: string, clock: Clock)
    requires UniqueBlockIds(db.timeBlocks)
    modifies db`timeBlocks
    ensures db.timeBlocks == LegacySwept(old(db.timeBlocks), date, clock)
  {
    ghost var rows0 := db.timeBlocks;
    var today := clock.today;
    var blocks := OnDate(db.timeBlocks, date);
    var currentHour := if date == today then clock.hour else if LexLess(date, today) then 24 else -1;

    var byHour, hours := GroupByHour(blocks);
    ghost var done := LegacySweepHours(db, rows0, byHour, hours, date, currentHour, clock);
    SweepCovered(rows0, date, byHour, hours, done);
    LegacySweptFromPartly(db.timeBlocks, rows0, date, clock, done);
  }

  /** The loop over the grouped hours, handling one hour at a time. */
  method LegacySweepHours(db: Database, ghost rows0: seq<TimeBlock>, byHour: map<int, seq<TimeBlock>>,
                     hours: seq<int>, date: string, currentHour: int, clock: Clock)
    returns (ghost done: set<int>)
    requires db.timeBlocks == rows0 && UniqueBlockIds(rows0) && currentHour == SweepHour(date, clock)
    requires forall h :: h in byHour <==> h in hours
    requires forall h :: h in byHour ==> byHour[h] == InHour(OnDate(rows0, date), h)
    modifies db`timeBlocks
    ensures forall h :: h in done <==> h in hours
    ensures PartlySkipped(db.timeBlocks, rows0, LegacyDue(rows0, date, clock), done, [], clock.nowMs)
  {
    done := {};
    for g := 0 to |hours|
      invariant forall h :: h in done <==> h in hours[..g]
      invariant PartlySkipped(db.timeBlocks, rows0, LegacyDue(rows0, date, clock), done, [], clock.nowMs)
    {
      var hour := hours[g];
      LegacySweepHour(db, rows0, done, byHour[hour], date, hour, currentHour, clock);
      done := done + {hour};
      assert hours[..g + 1] == hours[..g] + [hour];
    }
    assert hours[..|hours|] == hours;
  }

  /** Once every hour holding a block of the date is handled, the table is
      the older sweep of the original one. */
  lemma LegacySweptFromPartly(rows: seq<TimeBlock>, rows0: seq<TimeBlock>, date: string, clock: Clock,
                              done: set<int>)
    requires PartlySkipped(rows, rows0, LegacyDue(rows0, date, clock), done, [], clock.nowMs)
    requires forall b :: b in rows0 && b.date == date ==> b.startHour in done
    ensures rows == LegacySwept(rows0, date, clock)
  {
    SweepComplete(rows, rows0, LegacyDue(rows0, date, clock), done, clock.nowMs);
  }

  /** One hour of the older sweep: an hour that is over loses all its
      scheduled blocks, the present hour those whose stacked end has
      passed, a later hour none. */
  method LegacySweepHour(db: Database, ghost rows0: seq<TimeBlock>, ghost done: set<int>,
                         hourBlocks: seq<TimeBlock>, date: string, hour: int, currentHour: int, clock: Clock)
    requires UniqueBlockIds(rows0) && currentHour == SweepHour(date, clock)
    requires hourBlocks == InHour(OnDate(rows0, date), hour)
    requires PartlySkipped(db.timeBlocks, rows0, LegacyDue(rows0, date, clock), done, [], clock.nowMs)
    modifies db`timeBlocks
    ensures PartlySkipped(db.timeBlocks, rows0, LegacyDue(rows0, date, clock), done + {hour}, [], clock.nowMs)
  {
    var sorted := SortByOrder(hourBlocks);
    assert sorted == SortByOrder(InSlot(rows0, date, hour));
    if hour < currentHour {
      LegacyDueInHourOver(rows0, date, clock, hour);
      SkipHourOver(db, rows0, LegacyDue(rows0, date, clock), done, sorted, date, hour, clock.nowMs);
    } else if hour == currentHour && date == clock.today {
      LegacySkipElapsedInHour(db, rows0, done, sorted, date, hour, clock);
    } else {
      PassHour(db.timeBlocks, rows0, LegacyDue(rows0, date, clock), done, clock.nowMs, hour);
    }
  }

  lemma LegacyDueInHourOver(rows0: seq<TimeBlock>, date: string, clock: Clock, hour: int)
    requires hour < SweepHour(date, clock)
    ensures forall x: TimeBlock :: LegacyDue(rows0, date, clock)(x) ==> x.date == date
    ensures forall x :: x in SortByOrder(InSlot(rows0, date, hour)) ==>
      (LegacyDue(rows0, date, clock)(x) <==> x.status == Scheduled)
  {
    SortKeepsMembers(InSlot(rows0, date, hour));
  }

  /** The older loop over the present hour: an offset from 0 accumulates
      durations and a scheduled block is skipped once its stacked end is
      not after the present minute. */
  method LegacySkipElapsedInHour(db: Database, ghost rows0: seq<TimeBlock>, ghost done: set<int>,
                                 sorted: seq<TimeBlock>, date: string, hour: int, clock: Clock)
    requires UniqueBlockIds(rows0) && date == clock.today && hour == clock.hour
    requires sorted == SortByOrder(InSlot(rows0, date, hour))
    requires PartlySkipped(db.timeBlocks, rows0, LegacyDue(rows0, date, clock), done, [], clock.nowMs)
    modifies db`timeBlocks
    ensures PartlySkipped(db.timeBlocks, rows0, LegacyDue(rows0, date, clock), done + {hour}, [], clock.nowMs)
  {
    ghost var due := LegacyDue(rows0, date, clock);
    SortKeepsMembers(InSlot(rows0, date, hour));
    var currentMinute := clock.minute;
    var offset := 0;
    for j := 0 to |sorted|
      invariant PartlySkipped(db.timeBlocks, rows0, due, done, sorted[..j], clock.nowMs)
      invariant offset == Total(sorted[..j])
    {
      var b := sorted[j];
      var blockEnd := offset + b.durationMinutes;
      OffsetStep(sorted, j, offset);
      LegacyElapsedInPresentHour(rows0, date, clock, j);
      if b.status == Scheduled && blockEnd <= currentMinute {
        SkipStep(db.timeBlocks, rows0, due, done, sorted, j, clock.nowMs);
        db.timeBlocks := UpdateById(db.timeBlocks, b.id, SkipChange, clock.nowMs);
      } else {
        KeepStep(db.timeBlocks, rows0, due, done, sorted, j, clock.nowMs);
      }
      offset := blockEnd;
    }
    CloseHour(db.timeBlocks, rows0, due, done, sorted, clock.nowMs, date, hour);
  }

  /** The older loop's offset is the total of the durations before it, so
      its block ends where `Stack` ends it. */
  lemma OffsetStep(sorted: seq<TimeBlock>, j: int, offset: int)
    requires 0 <= j < |sorted| && offset == Total(sorted[..j])
    ensures Stack(sorted, 0)[j].end == offset + sorted[j].durationMinutes
    ensures Total(sorted[..j + 1]) == offset + sorted[j].durationMinutes
  {
    StackFacts(sorted, 0);
    assert sorted[..j + 1] == sorted[..j] + [sorted[j]];
    TotalAppend(sorted[..j], sorted[j]);
  }

  lemma LegacyElapsedInPresentHour(rows0: seq<TimeBlock>, date: string, clock: Clock, j: int)
    requires UniqueBlockIds(rows0) && date == clock.today
    requires 0 <= j < |SortByOrder(InSlot(rows0, date, clock.hour))|
    ensures var sorted := SortByOrder(InSlot(rows0, date, clock.hour));
      sorted[j] in rows0 &&
      (LegacyDue(rows0, date, clock)(sorted[j]) <==>
        sorted[j].status == Scheduled && Stack(sorted, 0)[j].end <= clock.minute)
  {
    var slot := InSlot(rows0, date, clock.hour);
    var sorted := SortByOrder(slot);
    InSlotUnique(rows0, date, clock.hour);
    SortKeepsMembers(slot);
    SortKeepsIds(slot);
    FindInStackAt(sorted, 0, j);
    assert sorted[j] in slot;
  }

  /** The older sweep, too, only turns scheduled blocks of `date` into
      skipped ones. */
  lemma LegacySweptOnlySkips(rows: seq<TimeBlock>, date: string, clock: Clock)
    ensures ShapeEq(rows, LegacySwept(rows, date, clock))
    ensures forall k :: 0 <= k < |rows| ==>
      LegacySwept(rows, date, clock)[k] == rows[k] ||
      (rows[k].status == Scheduled && rows[k].date == date &&
       LegacySwept(rows, date, clock)[k] == rows[k].(status := Skipped, updatedAt := clock.nowMs))
  {
  }

  lemma StackedWindowShape(rows: seq<TimeBlock>, rows': seq<TimeBlock>, b: TimeBlock, b': TimeBlock)
    requires ShapeEq(rows, rows') && SameShape(b, b')
    ensures StackedWindow(rows, b).Some? == StackedWindow(rows', b').Some?
    ensures StackedWindow(rows, b).Some? ==> StackedWindow(rows, b).value.end == StackedWindow(rows', b').value.end
  {
    var slot, slot' := InSlot(rows, b.date, b.startHour), InSlot(rows', b.date, b.startHour);
    InSlotShape(rows, rows', b.date, b.startHour);
    SortShape(slot, slot');
    FindInStackShape(SortByOrder(slot), SortByOrder(slot'), 0, b.id);
  }

  /** A second run of the older sweep with the same clock changes nothing. */
  lemma LegacySweepIdempotent(rows: seq<TimeBlock>, date: string, clock: Clock)
    ensures LegacySwept(LegacySwept(rows, date, clock), date, clock) == LegacySwept(rows, date, clock)
  {
    var r1 := LegacySwept(rows, date, clock);
    LegacySweptOnlySkips(rows, date, clock);
    forall k | 0 <= k < |r1|
      ensures !LegacyElapsed(r1, r1[k], date, clock)
    {
      StackedWindowShape(rows, r1, rows[k], r1[k]);
    }
  }

  /** Whatever the layout-aware sweep skips, the older sweep skips too:
      honouring hints only moves windows later. */
  lemma EffectiveSkipsAreLegacySkips(rows: seq<TimeBlock>, date: string, clock: Clock, k: int)
    requires UniqueBlockIds(rows) && 0 <= k < |rows|
    requires Elapsed(rows, rows[k], date, clock)
    ensures LegacyElapsed(rows, rows[k], date, clock)
  {
    var b := rows[k];
    if b.startHour == SweepHour(date, clock) && date == clock.today && !(b.startHour < SweepHour(date, clock)) {
      var slot := InSlot(rows, b.date, b.startHour);
      var sorted := SortByOrder(slot);
      InSlotUnique(rows, b.date, b.startHour);
      SortKeepsMembers(slot);
      SortKeepsIds(slot);
      assert b in slot;
      var j :| 0 <= j < |sorted| && sorted[j] == b;
      FindPlacementAt(sorted, FirstCursor(sorted), j);
      FindInStackAt(sorted, 0, j);
      PlaceNotBeforeStack(sorted, FirstCursor(sorted), 0);
      WindowFromPlacement(rows, b);
    }
  }

  /** As written, the older code skips a block the moment it is booked: a
      10-minute block booked at 10:30 into an empty current hour is hinted
      at minute 30, but the older sweep stacks it at 10:00–10:10 and marks
      it skipped at 10:30. */
  lemma LegacySweepSkipsFreshBlock()
    ensures var clock := Clock("2026-02-12", 10, 30, 0);
      var b := LegacyNewBlock([], "x", "card", "page", "2026-02-12", 10, 10, clock);
      b.startMinute == 30 && b.status == Scheduled &&
      LegacySwept([b], "2026-02-12", clock)[0].status == Skipped
  {
    var clock := Clock("2026-02-12", 10, 30, 0);
    var b := LegacyNewBlock([], "x", "card", "page", "2026-02-12", 10, 10, clock);
    assert InSlot([], "2026-02-12", 10) == [];
    InSlotWhole([b], "2026-02-12", 10);
    assert SortByOrder([b]) == [b];
    assert Stack([b], 0) == [Placement(b, 0, 10)];
    assert LegacyElapsed([b], b, "2026-02-12", clock);
  }

  /** The layout-aware sweep keeps such a block: a block of positive length
      just booked in the current hour is never skipped by a sweep at the
      same minute, since its window cannot open before its hint. */
  lemma FreshBlockSurvivesSweep(rows: seq<TimeBlock>, id: string, cardId: string, pageId: string,
                                d: int, clock: Clock)
    requires UniqueBlockIds(rows) && id !in BlockIds(rows) && d > 0
    ensures var b := NewBlock(rows, id, cardId, pageId, clock.today, clock.hour, d, clock);
      Swept(rows + [b], clock.today, clock)[|rows|] == b
  {
    var b := NewBlock(rows, id, cardId, pageId, clock.today, clock.hour, d, clock);
    var rows' := rows + [b];
    assert UniqueBlockIds(rows') by {
      forall i, j | 0 <= i < j < |rows'| ensures rows'[i].id != rows'[j].id {
        if j == |rows| {
          assert rows[i] in rows;
        }
      }
    }
    EffectiveBlockTimeMissing(rows', b);
    assert b in rows';
    EffectiveBlockTimeOfStored(rows', b);
    var w := EffectiveBlockTime(rows', b).value;
    var s :| s in rows' && s.id == b.id && s.date == b.date && s.startHour == b.startHour &&
      w.end - w.start == s.durationMinutes && w.start >= b.startHour * 60 + s.startMinute;
    assert s == b;
    assert !Elapsed(rows', rows'[|rows|], clock.today, clock);
  }

  // ─── Focus settings ───────────────────────────────────────────────────────

  const DefaultSettings := FocusSettings(60, 10, true, 8, 18, [25, 40, 60], 5)

  /** `{ ...base, ...patch }`: the patch's present fields win. */
  function Merge(base: FocusSettings, patch: SettingsPatch): (r: FocusSettings)
    ensures r.workMinutes == (if patch.workMinutes.Some? then patch.workMinutes.value else base.workMinutes)
    ensures r.breakMinutes == (if patch.breakMinutes.Some? then patch.breakMinutes.value else base.breakMinutes)
    ensures r.audioEnabled == (if patch.audioEnabled.Some? then patch.audioEnabled.value else base.audioEnabled)
    ensures r.dayStartHour == (if patch.dayStartHour.Some? then patch.dayStartHour.value else base.dayStartHour)
    ensures r.dayEndHour == (if patch.dayEndHour.Some? then patch.dayEndHour.value else base.dayEndHour)
    ensures r.durationPresets == (if patch.durationPresets.Some? then patch.durationPresets.value else base.durationPresets)
    ensures r.reminderIntervalMinutes ==
      (if patch.reminderIntervalMinutes.Some? then patch.reminderIntervalMinutes.value else base.reminderIntervalMinutes)
  {
    FocusSettings(patch.workMinutes.GetOr(base.workMinutes),
                  patch.breakMinutes.GetOr(base.breakMinutes),
                  patch.audioEnabled.GetOr(base.audioEnabled),
                  patch.dayStartHour.GetOr(base.dayStartHour),
                  patch.dayEndHour.GetOr(base.dayEndHour),
                  patch.durationPresets.GetOr(base.durationPresets),
                  patch.reminderIntervalMinutes.GetOr(base.reminderIntervalMinutes))
  }

  /** A complete record written to the table. */
  function Stored(s: FocusSettings): SettingsPatch {
    SettingsPatch(Some(s.workMinutes), Some(s.breakMinutes), Some(s.audioEnabled), Some(s.dayStartHour),
                  Some(s.dayEndHour), Some(s.durationPresets), Some(s.reminderIntervalMinutes))
  }

  /** The settings a reader sees for what is stored. */
  function SettingsOf(stored: Option<SettingsPatch>): FocusSettings {
    if stored.Some? then Merge(DefaultSettings, stored.value) else DefaultSettings
  }

  /** `getFocusSettings`: the stored record over the defaults; with nothing
      stored the defaults are written and returned. */
  method GetFocusSettings(db: Database) returns (s: FocusSettings)
    modifies db`focusSettings
    ensures s == SettingsOf(old(db.focusSettings))
    ensures old(db.focusSettings).Some? ==> s == Merge(DefaultSettings, old(db.focusSettings).value)
    ensures old(db.focusSettings).Some? ==> db.focusSettings == old(db.focusSettings)
    ensures old(db.focusSettings).None? ==> s == DefaultSettings && db.focusSettings == Some(Stored(DefaultSettings))
  {
    if db.focusSettings.Some? {
      return Merge(DefaultSettings, db.focusSettings.value);
    }
    db.focusSettings := Some(Stored(DefaultSettings));
    return DefaultSettings;
  }

  /** `updateFocusSettings`: the current settings with the updates laid
      over them, written back whole and returned. */
  method UpdateFocusSettings(db: Database, updates: SettingsPatch) returns (merged: FocusSettings)
    modifies db`focusSettings
    ensures merged == Merge(SettingsOf(old(db.focusSettings)), updates)
    ensures db.focusSettings == Some(Stored(merged))
  {
    var current := GetFocusSettings(db);
    merged := Merge(current, updates);
    db.focusSettings := Some(Stored(merged));
  }

  /** Reading back what an update wrote returns exactly the merged record;
      an update with no fields changes no setting; applying the same update
      twice is the same as once. */
  lemma SettingsRoundTrip(s: FocusSettings, p: SettingsPatch)
    ensures Merge(DefaultSettings, Stored(s)) == s
    ensures Merge(s, SettingsPatch(None, None, None, None, None, None, None)) == s
    ensures Merge(Merge(s, p), p) == Merge(s, p)
  {
  }
}
