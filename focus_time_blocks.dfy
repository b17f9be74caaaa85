/** The scheduling operations built on the effective layout: how much of an
    hour is left, adding a block with a capacity check, choosing an hour,
    a block's effective window, reordering a slot and the sweep that marks
    elapsed blocks as skipped.  Every operation reads the clock through a
    `Clock` parameter and takes fresh ids as arguments. */
module FocusTimeBlocks {
  import opened Wrappers
  import opened Types
  import opened Db
  import opened TimeBlockTable
  import opened EffectiveLayout

  /** The slot is the one the clock is in right now. */
  predicate IsCurrentHour(date: string, hour: int, clock: Clock) {
    date == clock.today && hour == clock.hour
  }

  /** Where a new block would start after a slot whose effective end is
      `effectiveEnd`: there, and in the current hour not before the present
      minute. */
  function StartAfter(effectiveEnd: int, current: bool, minute: int): int {
    if current then Max(minute, effectiveEnd) else effectiveEnd
  }

  /** The minutes of the hour left after that start. */
  function CapacityAfter(effectiveEnd: int, current: bool, minute: int): int {
    Max(0, 60 - StartAfter(effectiveEnd, current, minute))
  }

  function NextStart(rows: seq<TimeBlock>, date: string, hour: int, clock: Clock): int {
    StartAfter(EffectiveEnd(InSlot(rows, date, hour)), IsCurrentHour(date, hour, clock), clock.minute)
  }

  /** `getRemainingCapacity(date, hour)`: the minutes left in the hour. */
  function RemainingCapacity(rows: seq<TimeBlock>, date: string, hour: int, clock: Clock): int {
    CapacityAfter(EffectiveEnd(InSlot(rows, date, hour)), IsCurrentHour(date, hour, clock), clock.minute)
  }

  /** The capacity after a non-negative end lies in [0, 60], leaves no
      room before the present minute in the current hour, is the whole
      hour after an empty slot outside it, and fills the hour up from the
      start. */
  lemma CapacityAfterRange(e: int, current: bool, minute: int)
    requires e >= 0
    ensures 0 <= CapacityAfter(e, current, minute) <= 60
    ensures current ==> CapacityAfter(e, current, minute) <= Max(0, 60 - minute)
    ensures !current && e == 0 ==> CapacityAfter(e, current, minute) == 60
    ensures CapacityAfter(e, current, minute) > 0 ==>
      StartAfter(e, current, minute) + CapacityAfter(e, current, minute) == 60
  {
  }

  /** Whatever is known to end by the effective end, the capacity leaves
      it no room. */
  lemma CapacityBelow(e: int, current: bool, minute: int, used: int)
    requires used <= e
    ensures CapacityAfter(e, current, minute) <= Max(0, 60 - used)
  {
  }

  /** The capacity lies in [0, 60]; it is never more than the durations,
      the hints or (in the current hour) the elapsed minutes leave free, and
      a slot outside the current hour with no blocks is entirely free. */
  lemma CapacityBounds(rows: seq<TimeBlock>, date: string, hour: int, clock: Clock)
    requires NonNegativeDurations(InSlot(rows, date, hour))
    ensures 0 <= RemainingCapacity(rows, date, hour, clock) <= 60
    ensures RemainingCapacity(rows, date, hour, clock) <= Max(0, 60 - Total(InSlot(rows, date, hour)))
    ensures forall b :: b in rows && b.date == date && b.startHour == hour ==>
      RemainingCapacity(rows, date, hour, clock) <= Max(0, 60 - (b.startMinute + b.durationMinutes))
    ensures IsCurrentHour(date, hour, clock) ==>
      RemainingCapacity(rows, date, hour, clock) <= Max(0, 60 - clock.minute)
    ensures InSlot(rows, date, hour) == [] && !IsCurrentHour(date, hour, clock) ==>
      RemainingCapacity(rows, date, hour, clock) == 60
    ensures RemainingCapacity(rows, date, hour, clock) > 0 ==>
      NextStart(rows, date, hour, clock) + RemainingCapacity(rows, date, hour, clock) == 60
  {
    CapacityInRange(rows, date, hour, clock);
    CapacityWithinTotal(rows, date, hour, clock);
    CapacityWithinHints(rows, date, hour, clock);
  }

  lemma CapacityInRange(rows: seq<TimeBlock>, date: string, hour: int, clock: Clock)
    requires NonNegativeDurations(InSlot(rows, date, hour))
    ensures 0 <= RemainingCapacity(rows, date, hour, clock) <= 60
    ensures IsCurrentHour(date, hour, clock) ==>
      RemainingCapacity(rows, date, hour, clock) <= Max(0, 60 - clock.minute)
    ensures InSlot(rows, date, hour) == [] && !IsCurrentHour(date, hour, clock) ==>
      RemainingCapacity(rows, date, hour, clock) == 60
    ensures RemainingCapacity(rows, date, hour, clock) > 0 ==>
      NextStart(rows, date, hour, clock) + RemainingCapacity(rows, date, hour, clock) == 60
  {
    var slot := InSlot(rows, date, hour);
    EndNonNegative(slot);
    CapacityAfterRange(EffectiveEnd(slot), IsCurrentHour(date, hour, clock), clock.minute);
  }

  lemma CapacityWithinTotal(rows: seq<TimeBlock>, date: string, hour: int, clock: Clock)
    requires NonNegativeDurations(InSlot(rows, date, hour))
    ensures RemainingCapacity(rows, date, hour, clock) <= Max(0, 60 - Total(InSlot(rows, date, hour)))
  {
    var slot := InSlot(rows, date, hour);
    EndCoversTotal(slot);
    EndWithinTotal(slot, IsCurrentHour(date, hour, clock), clock.minute, EffectiveEnd(slot));
  }

  lemma EndWithinTotal(slot: seq<TimeBlock>, current: bool, minute: int, e: int)
    requires e >= Total(slot)
    ensures CapacityAfter(e, current, minute) <= Max(0, 60 - Total(slot))
  {
    CapacityBelow(e, current, minute, Total(slot));
  }

  lemma CapacityWithinHints(rows: seq<TimeBlock>, date: string, hour: int, clock: Clock)
    requires NonNegativeDurations(InSlot(rows, date, hour))
    ensures forall b :: b in rows && b.date == date && b.startHour == hour ==>
      RemainingCapacity(rows, date, hour, clock) <= Max(0, 60 - (b.startMinute + b.durationMinutes))
  {
    var slot := InSlot(rows, date, hour);
    forall b | b in rows && b.date == date && b.startHour == hour
      ensures RemainingCapacity(rows, date, hour, clock) <= Max(0, 60 - (b.startMinute + b.durationMinutes))
    {
      assert b in slot;
      EndCoversBlock(slot, b);
      CapacityBelow(EffectiveEnd(slot), IsCurrentHour(date, hour, clock), clock.minute,
                    b.startMinute + b.durationMinutes);
    }
  }

  // ─── createTimeBlock ──────────────────────────────────────────────────────

  datatype ScheduleError = CapacityExceeded(durationMinutes: int, capacity: int)

  /** The record `createTimeBlock` adds: scheduled, after the slot's largest
      order, hinted at the present minute in the current hour and at 0
      otherwise. */
  function NewBlock(rows: seq<TimeBlock>, id: string, cardId: string, pageId: string, date: string,
                    startHour: int, durationMinutes: int, clock: Clock): TimeBlock
  {
    TimeBlock(id, cardId, pageId, date, startHour,
              if IsCurrentHour(date, startHour, clock) then clock.minute else 0,
              durationMinutes, Scheduled, NextOrder(InSlot(rows, date, startHour)),
              clock.nowMs, clock.nowMs)
  }

  /** `createTimeBlock`: refuses a duration above the remaining capacity and
      adds nothing; otherwise appends exactly one new record. */
  method CreateTimeBlock(db: Database, cardId: string, pageId: string, date: string, startHour: int,
                         durationMinutes: int, clock: Clock, id: string)
    returns (r: Result<TimeBlock, ScheduleError>)
    requires UniqueBlockIds(db.timeBlocks) && id !in BlockIds(db.timeBlocks)
    modifies db`timeBlocks
    ensures UniqueBlockIds(db.timeBlocks)
    ensures r.Err? <==> durationMinutes > RemainingCapacity(old(db.timeBlocks), date, startHour, clock)
    ensures r.Err? ==> db.timeBlocks == old(db.timeBlocks)
    ensures r.Err? ==>
      r.error == CapacityExceeded(durationMinutes, RemainingCapacity(old(db.timeBlocks), date, startHour, clock))
    ensures r.Ok? ==>
      r.value == NewBlock(old(db.timeBlocks), id, cardId, pageId, date, startHour, durationMinutes, clock) &&
      db.timeBlocks == old(db.timeBlocks) + [r.value]
  {
    var capacity := RemainingCapacity(db.timeBlocks, date, startHour, clock);
    if durationMinutes > capacity {
      return Err(CapacityExceeded(durationMinutes, capacity));
    }
    var block := NewBlock(db.timeBlocks, id, cardId, pageId, date, startHour, durationMinutes, clock);
    db.timeBlocks := db.timeBlocks + [block];
    r := Ok(block);
  }

  /** What a successful `createTimeBlock` does to its slot: the new block
      sorts last, the slot's effective end moves to where the block was
      due to start plus its duration (never past the hour for a positive
      duration), the capacity drops by exactly that duration, and every
      other slot is untouched. */
  lemma CreateConsumesCapacity(rows: seq<TimeBlock>, id: string, cardId: string, pageId: string,
                               date: string, hour: int, d: int, clock: Clock)
    requires NonNegativeDurations(InSlot(rows, date, hour))
    requires 0 <= d <= RemainingCapacity(rows, date, hour, clock)
    ensures var rows' := rows + [NewBlock(rows, id, cardId, pageId, date, hour, d, clock)];
      EffectiveEnd(InSlot(rows', date, hour)) == NextStart(rows, date, hour, clock) + d &&
      (d > 0 ==> EffectiveEnd(InSlot(rows', date, hour)) <= 60) &&
      RemainingCapacity(rows', date, hour, clock) == RemainingCapacity(rows, date, hour, clock) - d
    ensures var rows' := rows + [NewBlock(rows, id, cardId, pageId, date, hour, d, clock)];
      forall date', hour' :: date' != date || hour' != hour ==>
        InSlot(rows', date', hour') == InSlot(rows, date', hour')
  {
    var b := NewBlock(rows, id, cardId, pageId, date, hour, d, clock);
    BookingEnd(rows, b, date, hour, clock);
    forall date', hour' | date' != date || hour' != hour
      ensures InSlot(rows + [b], date', hour') == InSlot(rows, date', hour')
    {
      InSlotAppend(rows, b, date', hour');
    }
  }

  /** The slot's end after appending the new block `b`: the block starts
      where the capacity began and the rest is arithmetic. */
  lemma BookingEnd(rows: seq<TimeBlock>, b: TimeBlock, date: string, hour: int, clock: Clock)
    requires NonNegativeDurations(InSlot(rows, date, hour))
    requires b.date == date && b.startHour == hour && b.order == NextOrder(InSlot(rows, date, hour))
    requires b.startMinute == if IsCurrentHour(date, hour, clock) then clock.minute else 0
    requires 0 <= b.durationMinutes <= RemainingCapacity(rows, date, hour, clock)
    ensures EffectiveEnd(InSlot(rows + [b], date, hour)) == NextStart(rows, date, hour, clock) + b.durationMinutes
    ensures b.durationMinutes > 0 ==> EffectiveEnd(InSlot(rows + [b], date, hour)) <= 60
    ensures RemainingCapacity(rows + [b], date, hour, clock)
         == RemainingCapacity(rows, date, hour, clock) - b.durationMinutes
  {
    var slot := InSlot(rows, date, hour);
    InSlotAppend(rows, b, date, hour);
    NextOrderAppends(slot);
    EffectiveEndAppend(slot, b);
    EndNonNegative(slot);
    BookingArith(EffectiveEnd(slot), EffectiveEnd(slot + [b]), IsCurrentHour(date, hour, clock), clock.minute,
                 b.startMinute, b.durationMinutes);
  }

  /** The arithmetic of a booking: hinting the block at the present minute
      in the current hour (0 otherwise) makes it start where the capacity
      began, so its duration is taken off the capacity exactly. */
  lemma BookingArith(e: int, e': int, current: bool, minute: int, hint: int, d: int)
    requires e >= 0 && hint == (if current then minute else 0)
    requires e' == Max(e, hint) + d
    requires 0 <= d <= CapacityAfter(e, current, minute)
    ensures e' == StartAfter(e, current, minute) + d
    ensures d > 0 ==> e' <= 60
    ensures CapacityAfter(e', current, minute) == CapacityAfter(e, current, minute) - d
  {
  }

  // ─── updateTimeBlock, deleteTimeBlock, removeTimeBlocksForCard ─────────────

  /** `updateTimeBlock`: the record with key `id` takes the given changes
      and a new `updatedAt`; nothing else changes. */
  method UpdateTimeBlock(db: Database, id: string, changes: BlockChanges, clock: Clock)
    modifies db`timeBlocks
    ensures db.timeBlocks == UpdateById(old(db.timeBlocks), id, changes, clock.nowMs)
  {
    db.timeBlocks := UpdateById(db.timeBlocks, id, changes, clock.nowMs);
  }

  /** An update leaves every key where it was and touches no other record;
      the keyed record keeps its card, page and creation time, is stamped
      with the update time, takes each of the six fields given and keeps
      each one omitted. */
  lemma UpdateTouchesOnlyItsRecord(rows: seq<TimeBlock>, id: string, ch: BlockChanges, now: int)
    requires UniqueBlockIds(rows)
    ensures BlockIds(UpdateById(rows, id, ch, now)) == BlockIds(rows)
    ensures UniqueBlockIds(UpdateById(rows, id, ch, now))
    ensures forall k :: 0 <= k < |rows| && rows[k].id != id ==> UpdateById(rows, id, ch, now)[k] == rows[k]
    ensures forall k :: 0 <= k < |rows| && rows[k].id == id ==>
      var b := UpdateById(rows, id, ch, now)[k];
      b.cardId == rows[k].cardId && b.pageId == rows[k].pageId &&
      b.createdAt == rows[k].createdAt && b.updatedAt == now &&
      (ch.startHour.Some? ==> b.startHour == ch.startHour.value) &&
      (ch.startHour.None? ==> b.startHour == rows[k].startHour) &&
      (ch.startMinute.Some? ==> b.startMinute == ch.startMinute.value) &&
      (ch.startMinute.None? ==> b.startMinute == rows[k].startMinute) &&
      (ch.date.Some? ==> b.date == ch.date.value) &&
      (ch.date.None? ==> b.date == rows[k].date) &&
      (ch.durationMinutes.Some? ==> b.durationMinutes == ch.durationMinutes.value) &&
      (ch.durationMinutes.None? ==> b.durationMinutes == rows[k].durationMinutes) &&
      (ch.status.Some? ==> b.status == ch.status.value) &&
      (ch.status.None? ==> b.status == rows[k].status) &&
      (ch.order.Some? ==> b.order == ch.order.value) &&
      (ch.order.None? ==> b.order == rows[k].order)
    ensures ch == NoChanges ==> forall k :: 0 <= k < |rows| ==>
      UpdateById(rows, id, ch, now)[k] == if rows[k].id == id then rows[k].(updatedAt := now) else rows[k]
  {
    var r := UpdateById(rows, id, ch, now);
    forall x | x in BlockIds(r)
      ensures x in BlockIds(rows)
    {
      var b :| b in r && b.id == x;
      var k :| 0 <= k < |r| && r[k] == b;
      assert rows[k].id == x;
    }
    forall x | x in BlockIds(rows)
      ensures x in BlockIds(r)
    {
      var b :| b in rows && b.id == x;
      var k :| 0 <= k < |rows| && rows[k] == b;
      assert r[k].id == x;
    }
  }

  /** `deleteTimeBlock`: removes the record with that key, if any. */
  method DeleteTimeBlock(db: Database, id: string)
    modifies db`timeBlocks
    ensures db.timeBlocks == DeleteById(old(db.timeBlocks), id)
    ensures forall b :: b in db.timeBlocks <==> b in old(db.timeBlocks) && b.id != id
  {
    db.timeBlocks := DeleteById(db.timeBlocks, id);
  }

  /** The records that do not belong to `cardId`. */
  function WithoutCard(rows: seq<TimeBlock>, cardId: string): (r: seq<TimeBlock>)
    ensures forall b :: b in r <==> b in rows && b.cardId != cardId
    ensures |r| <= |rows|
  {
    if rows == [] then []
    else (if rows[0].cardId != cardId then [rows[0]] else []) + WithoutCard(rows[1..], cardId)
  }

  /** `removeTimeBlocksForCard`: every block of the card goes, every other
      block stays. */
  method RemoveTimeBlocksForCard(db: Database, cardId: string)
    modifies db`timeBlocks
    ensures db.timeBlocks == WithoutCard(old(db.timeBlocks), cardId)
  {
    db.timeBlocks := WithoutCard(db.timeBlocks, cardId);
  }

  // ─── findAvailableHour ────────────────────────────────────────────────────

  /** Hour `h` has at least `minCapacity` minutes left. */
  predicate HasRoom(rows: seq<TimeBlock>, date: string, h: int, clock: Clock, minCapacity: int) {
    RemainingCapacity(rows, date, h, clock) >= minCapacity
  }

  /** Hour `h` is inside the working day and, today, not already over. */
  predicate Allowed(date: string, h: int, dayStartHour: int, dayEndHour: int, clock: Clock) {
    dayStartHour <= h < dayEndHour && !(date == clock.today && h < clock.hour)
  }

  /** The present hour is today's, inside the working day and has room. */
  predicate CurrentHourFits(rows: seq<TimeBlock>, date: string, dayStartHour: int, dayEndHour: int,
                            minCapacity: int, clock: Clock)
  {
    date == clock.today && dayStartHour <= clock.hour < dayEndHour &&
    HasRoom(rows, date, clock.hour, clock, minCapacity)
  }

  /** The search both variants of `findAvailableHour` run, with `room(h)`
      standing for "hour `h` has enough capacity": the present hour when it
      is today's, inside the day and has room; else the earliest allowed
      hour with room; else the start of the day. */
  method FirstFreeHour(room: int -> bool, date: string, dayStartHour: int, dayEndHour: int, clock: Clock)
    returns (hour: int)
    ensures (date == clock.today && dayStartHour <= clock.hour < dayEndHour && room(clock.hour)) ==>
      hour == clock.hour
    ensures (!(date == clock.today && dayStartHour <= clock.hour < dayEndHour && room(clock.hour)) &&
             exists h :: Allowed(date, h, dayStartHour, dayEndHour, clock) && room(h))
      ==> (Allowed(date, hour, dayStartHour, dayEndHour, clock) && room(hour) &&
           forall h :: h < hour && Allowed(date, h, dayStartHour, dayEndHour, clock) ==> !room(h))
    ensures ((forall h :: Allowed(date, h, dayStartHour, dayEndHour, clock) ==> !room(h)) &&
             !(date == clock.today && dayStartHour <= clock.hour < dayEndHour && room(clock.hour)))
      ==> hour == dayStartHour
  {
    var isToday := date == clock.today;
    var currentHour := if isToday then clock.hour else -1;
    if isToday && currentHour >= dayStartHour && currentHour < dayEndHour && room(currentHour) {
      return currentHour;
    }
    var h := dayStartHour;
    while h < dayEndHour
      invariant dayStartHour <= h
      invariant forall g :: g < h && Allowed(date, g, dayStartHour, dayEndHour, clock) ==> !room(g)
      decreases dayEndHour - h
    {
      if !(isToday && h < currentHour) && room(h) {
        return h;
      }
      h := h + 1;
    }
    return dayStartHour;
  }

  /** `findAvailableHour`: the present hour when it fits; otherwise the
      earliest allowed hour with room; otherwise the start of the day. */
  method FindAvailableHour(db: Database, date: string, dayStartHour: int, dayEndHour: int,
                           minCapacity: int, clock: Clock)
    returns (hour: int)
    ensures CurrentHourFits(db.timeBlocks, date, dayStartHour, dayEndHour, minCapacity, clock) ==>
      hour == clock.hour
    ensures (!CurrentHourFits(db.timeBlocks, date, dayStartHour, dayEndHour, minCapacity, clock) &&
             exists h :: Allowed(date, h, dayStartHour, dayEndHour, clock) && HasRoom(db.timeBlocks, date, h, clock, minCapacity))
      ==> (Allowed(date, hour, dayStartHour, dayEndHour, clock) &&
           HasRoom(db.timeBlocks, date, hour, clock, minCapacity) &&
           forall h :: h < hour && Allowed(date, h, dayStartHour, dayEndHour, clock) ==>
             !HasRoom(db.timeBlocks, date, h, clock, minCapacity))
    ensures ((forall h :: Allowed(date, h, dayStartHour, dayEndHour, clock) ==> !HasRoom(db.timeBlocks, date, h, clock, minCapacity)) &&
             !CurrentHourFits(db.timeBlocks, date, dayStartHour, dayEndHour, minCapacity, clock))
      ==> hour == dayStartHour
  {
    var rows := db.timeBlocks;
    hour := FirstFreeHour(h => HasRoom(rows, date, h, clock, minCapacity), date, dayStartHour, dayEndHour, clock);
  }

  // ─── getEffectiveBlockTime ────────────────────────────────────────────────

  /** A block's effective window, in minutes after midnight of its date
      (the source builds two `Date`s with `setHours(startHour, minute)`). */
  datatype Window = Window(start: int, end: int)

  /** `getEffectiveBlockTime(block)`: the window the layout of the block's
      slot gives the stored block with the same key, or `None`. */
  function EffectiveBlockTime(rows: seq<TimeBlock>, block: TimeBlock): Option<Window> {
    WindowAt(block.startHour, FindPlacement(Layout(InSlot(rows, block.date, block.startHour)), block.id))
  }

  /** A placement within hour `hour` as minutes after midnight. */
  function WindowAt(hour: int, p: Option<Placement>): Option<Window> {
    if p.None? then None
    else Some(Window(hour * 60 + p.value.start, hour * 60 + p.value.end))
  }

  /** There is no window exactly when no block with that key is stored in
      the slot the argument names. */
  lemma EffectiveBlockTimeMissing(rows: seq<TimeBlock>, block: TimeBlock)
    ensures EffectiveBlockTime(rows, block).None? <==>
      forall b :: b in rows && b.date == block.date && b.startHour == block.startHour ==> b.id != block.id
  {
    var slot := InSlot(rows, block.date, block.startHour);
    var sorted := SortByOrder(slot);
    FindPlacementMissing(sorted, FirstCursor(sorted), block.id);
    SortKeepsMembers(slot);
    if EffectiveBlockTime(rows, block).None? {
      forall b | b in rows && b.date == block.date && b.startHour == block.startHour
        ensures b.id != block.id
      {
        assert b in sorted;
      }
    } else {
      var b :| b in sorted && b.id == block.id;
      assert b in rows && b.date == block.date && b.startHour == block.startHour;
    }
  }

  /** A found window belongs to the stored block with that key: it lasts
      exactly that block's duration and does not open before its hint. */
  lemma EffectiveBlockTimeOfStored(rows: seq<TimeBlock>, block: TimeBlock)
    requires UniqueBlockIds(rows)
    ensures EffectiveBlockTime(rows, block).Some? ==>
      exists b :: b in rows && b.id == block.id && b.date == block.date && b.startHour == block.startHour &&
        EffectiveBlockTime(rows, block).value.end - EffectiveBlockTime(rows, block).value.start == b.durationMinutes &&
        EffectiveBlockTime(rows, block).value.start >= block.startHour * 60 + b.startMinute
  {
    var slot := InSlot(rows, block.date, block.startHour);
    LayoutFound(slot, block.id);
    var p := FindPlacement(Layout(slot), block.id);
    if p.Some? {
      assert p.value.block in slot;
    }
  }

  /** Two different stored blocks of one slot never have overlapping
      windows. */
  lemma EffectiveBlockTimesDisjoint(rows: seq<TimeBlock>, a: TimeBlock, b: TimeBlock)
    requires UniqueBlockIds(rows) && NonNegativeDurations(InSlot(rows, a.date, a.startHour))
    requires a in rows && b in rows && a.id != b.id
    requires a.date == b.date && a.startHour == b.startHour
    ensures EffectiveBlockTime(rows, a).Some? && EffectiveBlockTime(rows, b).Some?
    ensures EffectiveBlockTime(rows, a).value.end <= EffectiveBlockTime(rows, b).value.start ||
            EffectiveBlockTime(rows, b).value.end <= EffectiveBlockTime(rows, a).value.start
  {
    var slot := InSlot(rows, a.date, a.startHour);
    var sorted := SortByOrder(slot);
    var pos := FirstCursor(sorted);
    InSlotUnique(rows, a.date, a.startHour);
    SortKeepsMembers(slot);
    SortKeepsIds(slot);
    var i :| 0 <= i < |sorted| && sorted[i] == a;
    var j :| 0 <= j < |sorted| && sorted[j] == b;
    FindPlacementAt(sorted, pos, i);
    FindPlacementAt(sorted, pos, j);
    assert NonNegativeDurations(sorted) by {
      forall x | x in sorted ensures x.durationMinutes >= 0 {
        assert x in slot;
      }
    }
    if i < j {
      EndBeforeStart(sorted, pos, i, j);
    } else {
      EndBeforeStart(sorted, pos, j, i);
    }
  }

  /** The worked example of the slot 10:00 on 2026-02-12: A (hint 0, 20 min),
      B (hint 30, 10 min), C (hint 25, 15 min) in that order put B at
      10:30–10:40 and C at 10:40–10:55; a key not in the slot has no window. */
  lemma ScenarioStackedBlocksWithGaps()
    ensures var a := TimeBlock("a", "card", "page", "2026-02-12", 10, 0, 20, Scheduled, 0, 0, 0);
      var b := TimeBlock("b", "card", "page", "2026-02-12", 10, 30, 10, Scheduled, 1, 0, 0);
      var c := TimeBlock("c", "card", "page", "2026-02-12", 10, 25, 15, Scheduled, 2, 0, 0);
      var missing := TimeBlock("missing", "card", "page", "2026-02-12", 10, 0, 10, Scheduled, 0, 0, 0);
      EffectiveBlockTime([a, b, c], b) == Some(Window(10 * 60 + 30, 10 * 60 + 40)) &&
      EffectiveBlockTime([a, b, c], c) == Some(Window(10 * 60 + 40, 10 * 60 + 55)) &&
      EffectiveBlockTime([a, b, c], missing) == None
  {
    var a := TimeBlock("a", "card", "page", "2026-02-12", 10, 0, 20, Scheduled, 0, 0, 0);
    var b := TimeBlock("b", "card", "page", "2026-02-12", 10, 30, 10, Scheduled, 1, 0, 0);
    var c := TimeBlock("c", "card", "page", "2026-02-12", 10, 25, 15, Scheduled, 2, 0, 0);
    var pa, pb, pc := Placement(a, 0, 20), Placement(b, 30, 40), Placement(c, 40, 55);
    ScenarioLayout(a, b, c);
    var ps := [pa, pb, pc];
    assert ps[1..] == [pb, pc] && [pb, pc][1..] == [pc] && [pc][1..] == [];
    assert "a" != "b" && "a" != "c" && "b" != "c";
    assert "a" != "missing" && "b" != "missing" && "c" != "missing";
    assert FindPlacement([pc], "c") == Some(pc);
    assert FindPlacement([pb, pc], "c") == Some(pc);
    assert FindPlacement(ps, "c") == Some(pc);
    assert FindPlacement(ps, "b") == Some(pb);
    assert FindPlacement([pc], "missing") == None;
    assert FindPlacement([pb, pc], "missing") == None;
    assert FindPlacement(ps, "missing") == None;
  }

  lemma ScenarioLayout(a: TimeBlock, b: TimeBlock, c: TimeBlock)
    requires a == TimeBlock("a", "card", "page", "2026-02-12", 10, 0, 20, Scheduled, 0, 0, 0)
    requires b == TimeBlock("b", "card", "page", "2026-02-12", 10, 30, 10, Scheduled, 1, 0, 0)
    requires c == TimeBlock("c", "card", "page", "2026-02-12", 10, 25, 15, Scheduled, 2, 0, 0)
    ensures Layout(InSlot([a, b, c], "2026-02-12", 10))
         == [Placement(a, 0, 20), Placement(b, 30, 40), Placement(c, 40, 55)]
  {
    InSlotWhole([a, b, c], "2026-02-12", 10);
    SortInOrder(a, b, c);
    assert FirstCursor([a, b, c]) == 0;
    ScenarioPlace(a, b, c);
  }

  lemma SortInOrder(a: TimeBlock, b: TimeBlock, c: TimeBlock)
    requires a.order < b.order < c.order
    ensures SortByOrder([a, b, c]) == [a, b, c]
  {
    assert SortByOrder([a]) == [a];
    SortAppendLast([a], b);
    assert [a] + [b] == [a, b];
    SortAppendLast([a, b], c);
    assert [a, b] + [c] == [a, b, c];
  }

  lemma ScenarioPlace(a: TimeBlock, b: TimeBlock, c: TimeBlock)
    requires a.startMinute == 0 && a.durationMinutes == 20
    requires b.startMinute == 30 && b.durationMinutes == 10
    requires c.startMinute == 25 && c.durationMinutes == 15
    ensures Place([a, b, c], 0) == [Placement(a, 0, 20), Placement(b, 30, 40), Placement(c, 40, 55)]
  {
    var pc := Place([c], 40);
    assert pc == [Placement(c, 40, 55)];
    assert [b, c][1..] == [c];
    var pb := Place([b, c], 20);
    assert pb == [Placement(b, 30, 40)] + pc;
    assert [a, b, c][1..] == [b, c];
    assert Place([a, b, c], 0) == [Placement(a, 0, 20)] + pb;
  }

  /** A table holding only blocks of one slot is that slot. */
  lemma {:induction false} InSlotWhole(rows: seq<TimeBlock>, date: string, hour: int)
    requires forall b :: b in rows ==> b.date == date && b.startHour == hour
    ensures InSlot(rows, date, hour) == rows
  {
    if rows != [] {
      InSlotWhole(rows[1..], date, hour);
      assert OnDate(rows, date) == [rows[0]] + OnDate(rows[1..], date);
      assert OnDate(rows, date)[1..] == OnDate(rows[1..], date);
    }
  }

  // ─── reorderBlocksInHour ──────────────────────────────────────────────────

  /** The last position of `x` in `ids`, or -1: with repeated keys the last
      write wins. */
  function LastIndexOf(ids: seq<string>, x: string): (i: int)
    ensures -1 <= i < |ids|
    ensures i >= 0 ==> ids[i] == x && forall k :: i < k < |ids| ==> ids[k] != x
    ensures i == -1 <==> x !in ids
  {
    if ids == [] then -1
    else if ids[|ids| - 1] == x then |ids| - 1
    else LastIndexOf(ids[..|ids| - 1], x)
  }

  /** The table after `reorderBlocksInHour(ids)`: each named record takes
      its (last) position in `ids` as its order. */
  function Reordered(rows: seq<TimeBlock>, ids: seq<string>, now: int): seq<TimeBlock> {
    seq(|rows|, k requires 0 <= k < |rows| =>
      if rows[k].id in ids then rows[k].(order := LastIndexOf(ids, rows[k].id), updatedAt := now)
      else rows[k])
  }

  method ReorderBlocksInHour(db: Database, orderedIds: seq<string>, clock: Clock)
    modifies db`timeBlocks
    ensures db.timeBlocks == Reordered(old(db.timeBlocks), orderedIds, clock.nowMs)
  {
    ghost var rows0 := db.timeBlocks;
    var now := clock.nowMs;
    for i := 0 to |orderedIds|
      invariant db.timeBlocks == Reordered(rows0, orderedIds[..i], now)
    {
      ReorderStep(rows0, orderedIds, i, now);
      db.timeBlocks := UpdateById(db.timeBlocks, orderedIds[i], BlockChanges(None, None, None, None, None, Some(i)), now);
    }
    assert orderedIds[..|orderedIds|] == orderedIds;
  }

  lemma ReorderStep(rows: seq<TimeBlock>, ids: seq<string>, i: int, now: int)
    requires 0 <= i < |ids|
    ensures UpdateById(Reordered(rows, ids[..i], now), ids[i], BlockChanges(None, None, None, None, None, Some(i)), now)
         == Reordered(rows, ids[..i + 1], now)
  {
    assert ids[..i + 1][..i] == ids[..i];
    forall k | 0 <= k < |rows|
      ensures UpdateById(Reordered(rows, ids[..i], now), ids[i], BlockChanges(None, None, None, None, None, Some(i)), now)[k]
           == Reordered(rows, ids[..i + 1], now)[k]
    {
      assert rows[k].id in ids[..i + 1] <==> rows[k].id in ids[..i] || rows[k].id == ids[i];
    }
  }

  /** After a reorder, a record named in `ids` has the position of its key
      (its only position when keys are distinct) as its order; apart from
      `order` and `updatedAt` nothing about any record changes, and records
      not named are untouched. */
  lemma ReorderAssignsPositions(rows: seq<TimeBlock>, ids: seq<string>, now: int)
    ensures |Reordered(rows, ids, now)| == |rows|
    ensures forall k :: 0 <= k < |rows| ==>
      Reordered(rows, ids, now)[k].(order := rows[k].order, updatedAt := rows[k].updatedAt) == rows[k]
    ensures forall k :: 0 <= k < |rows| && rows[k].id !in ids ==> Reordered(rows, ids, now)[k] == rows[k]
    ensures forall k, i ::
      (0 <= k < |rows| && 0 <= i < |ids| && ids[i] == rows[k].id &&
       forall j :: 0 <= j < |ids| && j != i ==> ids[j] != ids[i])
      ==> Reordered(rows, ids, now)[k].order == i
  {
  }

  // ─── markSkippedBlocks ────────────────────────────────────────────────────

  /** The sweep's notion of the present hour of `date`: the clock's hour
      today, 24 for an earlier date (every hour is over), -1 for a later one;
      dates compare as strings. */
  function SweepHour(date: string, clock: Clock): int {
    if date == clock.today then clock.hour else if LexLess(date, clock.today) then 24 else -1
  }

  /** The sweep skips block `b` of `date`: it is still scheduled and either
      its hour is over, or it is in the present hour and its effective
      window has ended by the present minute. */
  predicate Elapsed(rows: seq<TimeBlock>, b: TimeBlock, date: string, clock: Clock) {
    b.date == date && b.status == Scheduled &&
    (b.startHour < SweepHour(date, clock) ||
     (b.startHour == SweepHour(date, clock) && date == clock.today &&
      EffectiveBlockTime(rows, b).Some? &&
      EffectiveBlockTime(rows, b).value.end <= b.startHour * 60 + clock.minute))
  }

  /** The table after `markSkippedBlocks(date)`. */
  function Swept(rows: seq<TimeBlock>, date: string, clock: Clock): (r: seq<TimeBlock>)
    ensures |r| == |rows|
  {
    seq(|rows|, k requires 0 <= k < |rows| =>
      if Elapsed(rows, rows[k], date, clock) then Skip(rows[k], clock.nowMs) else rows[k])
  }

  /** The rows of `rows0` the sweep of `date` skips. */
  ghost function Due(rows0: seq<TimeBlock>, date: string, clock: Clock): TimeBlock -> bool {
    x => Elapsed(rows0, x, date, clock)
  }

  method MarkSkippedBlocks(db: Database, date: string, clock: Clock)
    requires UniqueBlockIds(db.timeBlocks)
    modifies db`timeBlocks
    ensures db.timeBlocks == Swept(old(db.timeBlocks), date, clock)
  {
    ghost var rows0 := db.timeBlocks;
    var today := clock.today;
    var blocks := OnDate(db.timeBlocks, date);
    var currentHour := if date == today then clock.hour else if LexLess(date, today) then 24 else -1;

    var byHour, hours := GroupByHour(blocks);
    ghost var done := SweepHours(db, rows0, byHour, hours, date, currentHour, clock);
    SweepCovered(rows0, date, byHour, hours, done);
    SweptFromPartly(db.timeBlocks, rows0, date, clock, done);
  }

  /** The loop over the grouped hours, handling one hour at a time. */
  method SweepHours(db: Database, ghost rows0: seq<TimeBlock>, byHour: map<int, seq<TimeBlock>>,
                     hours: seq<int>, date: string, currentHour: int, clock: Clock)
    returns (ghost done: set<int>)
    requires db.timeBlocks == rows0 && UniqueBlockIds(rows0) && currentHour == SweepHour(date, clock)
    requires forall h :: h in byHour <==> h in hours
    requires forall h :: h in byHour ==> byHour[h] == InHour(OnDate(rows0, date), h)
    modifies db`timeBlocks
    ensures forall h :: h in done <==> h in hours
    ensures PartlySkipped(db.timeBlocks, rows0, Due(rows0, date, clock), done, [], clock.nowMs)
  {
    done := {};
    for g := 0 to |hours|
      invariant forall h :: h in done <==> h in hours[..g]
      invariant PartlySkipped(db.timeBlocks, rows0, Due(rows0, date, clock), done, [], clock.nowMs)
    {
      var hour := hours[g];
      SweepOneHour(db, rows0, done, byHour[hour], date, hour, currentHour, clock);
      done := done + {hour};
      assert hours[..g + 1] == hours[..g] + [hour];
    }
    assert hours[..|hours|] == hours;
  }

  /** Once every hour holding a block of the date is handled, the table is
      the sweep of the original one. */
  lemma SweptFromPartly(rows: seq<TimeBlock>, rows0: seq<TimeBlock>, date: string, clock: Clock, done: set<int>)
    requires PartlySkipped(rows, rows0, Due(rows0, date, clock), done, [], clock.nowMs)
    requires forall b :: b in rows0 && b.date == date ==> b.startHour in done
    ensures rows == Swept(rows0, date, clock)
  {
    SweepComplete(rows, rows0, Due(rows0, date, clock), done, clock.nowMs);
  }

  /** One hour of the sweep: an hour that is over loses all its scheduled
      blocks, the present hour those whose effective end has passed, a
      later hour none. */
  method SweepOneHour(db: Database, ghost rows0: seq<TimeBlock>, ghost done: set<int>,
                      hourBlocks: seq<TimeBlock>, date: string, hour: int, currentHour: int, clock: Clock)
    requires UniqueBlockIds(rows0) && currentHour == SweepHour(date, clock)
    requires hourBlocks == InHour(OnDate(rows0, date), hour)
    requires PartlySkipped(db.timeBlocks, rows0, Due(rows0, date, clock), done, [], clock.nowMs)
    modifies db`timeBlocks
    ensures PartlySkipped(db.timeBlocks, rows0, Due(rows0, date, clock), done + {hour}, [], clock.nowMs)
  {
    var sorted := SortByOrder(hourBlocks);
    assert sorted == SortByOrder(InSlot(rows0, date, hour));
    if hour < currentHour {
      DueInHourOver(rows0, date, clock, hour);
      SkipHourOver(db, rows0, Due(rows0, date, clock), done, sorted, date, hour, clock.nowMs);
    } else if hour == currentHour && date == clock.today {
      SkipElapsedInHour(db, rows0, done, sorted, date, hour, clock);
    } else {
      PassHour(db.timeBlocks, rows0, Due(rows0, date, clock), done, clock.nowMs, hour);
    }
  }

  /** The sweep's loop over an hour that is over: every scheduled block of
      it is skipped.  Both variants of the sweep share it; `due` says which
      rows the variant skips. */
  method SkipHourOver(db: Database, ghost rows0: seq<TimeBlock>, ghost due: TimeBlock -> bool,
                      ghost done: set<int>, sorted: seq<TimeBlock>, date: string, hour: int, now: int)
    requires UniqueBlockIds(rows0)
    requires sorted == SortByOrder(InSlot(rows0, date, hour))
    requires forall x: TimeBlock :: due(x) ==> x.date == date
    requires forall x :: x in sorted ==> (due(x) <==> x.status == Scheduled)
    requires PartlySkipped(db.timeBlocks, rows0, due, done, [], now)
    modifies db`timeBlocks
    ensures PartlySkipped(db.timeBlocks, rows0, due, done + {hour}, [], now)
  {
    SortKeepsMembers(InSlot(rows0, date, hour));
    for j := 0 to |sorted|
      invariant PartlySkipped(db.timeBlocks, rows0, due, done, sorted[..j], now)
    {
      var b := sorted[j];
      assert b in sorted;
      if b.status == Scheduled {
        SkipStep(db.timeBlocks, rows0, due, done, sorted, j, now);
        db.timeBlocks := UpdateById(db.timeBlocks, b.id, SkipChange, now);
      } else {
        KeepStep(db.timeBlocks, rows0, due, done, sorted, j, now);
      }
    }
    CloseHour(db.timeBlocks, rows0, due, done, sorted, now, date, hour);
  }

  /** In an hour that is over, the sweep's due rows are its scheduled ones. */
  lemma DueInHourOver(rows0: seq<TimeBlock>, date: string, clock: Clock, hour: int)
    requires hour < SweepHour(date, clock)
    ensures forall x: TimeBlock :: Due(rows0, date, clock)(x) ==> x.date == date
    ensures forall x :: x in SortByOrder(InSlot(rows0, date, hour)) ==>
      (Due(rows0, date, clock)(x) <==> x.status == Scheduled)
  {
    SortKeepsMembers(InSlot(rows0, date, hour));
  }

  /** The sweep's loop over the present hour: the cursor walks the layout
      and a scheduled block is skipped when its window ends by now. */
  method SkipElapsedInHour(db: Database, ghost rows0: seq<TimeBlock>, ghost done: set<int>,
                           sorted: seq<TimeBlock>, date: string, hour: int, clock: Clock)
    requires UniqueBlockIds(rows0) && date == clock.today && hour == clock.hour
    requires sorted == SortByOrder(InSlot(rows0, date, hour))
    requires PartlySkipped(db.timeBlocks, rows0, Due(rows0, date, clock), done, [], clock.nowMs)
    modifies db`timeBlocks
    ensures PartlySkipped(db.timeBlocks, rows0, Due(rows0, date, clock), done + {hour}, [], clock.nowMs)
  {
    ghost var due := Due(rows0, date, clock);
    SortKeepsMembers(InSlot(rows0, date, hour));
    var currentMinute := clock.minute;
    var currentPos := 0;
    if |sorted| > 0 && sorted[0].startMinute > 0 {
      currentPos := sorted[0].startMinute;
    }
    ghost var ps := Place(sorted, currentPos);
    for j := 0 to |sorted|
      invariant PartlySkipped(db.timeBlocks, rows0, due, done, sorted[..j], clock.nowMs)
      invariant j > 0 ==> currentPos == ps[j - 1].end
      invariant j == 0 ==> currentPos == FirstCursor(sorted)
    {
      var b := sorted[j];
      var start := Max(currentPos, b.startMinute);
      var blockEnd := start + b.durationMinutes;
      CursorStep(sorted, FirstCursor(sorted), j, currentPos);
      ElapsedInPresentHour(rows0, date, clock, j);
      if b.status == Scheduled && blockEnd <= currentMinute {
        SkipStep(db.timeBlocks, rows0, due, done, sorted, j, clock.nowMs);
        db.timeBlocks := UpdateById(db.timeBlocks, b.id, SkipChange, clock.nowMs);
      } else {
        KeepStep(db.timeBlocks, rows0, due, done, sorted, j, clock.nowMs);
      }
      currentPos := blockEnd;
    }
    CloseHour(db.timeBlocks, rows0, due, done, sorted, clock.nowMs, date, hour);
  }

  /** One step of the cursor loop lands on the layout's window. */
  lemma CursorStep(sorted: seq<TimeBlock>, pos: int, j: int, cursor: int)
    requires 0 <= j < |sorted|
    requires j > 0 ==> cursor == Place(sorted, pos)[j - 1].end
    requires j == 0 ==> cursor == pos
    ensures Place(sorted, pos)[j].end == Max(cursor, sorted[j].startMinute) + sorted[j].durationMinutes
  {
    PlaceFacts(sorted, pos);
  }

  /** In the present hour, the block at position `j` of the sorted slot is
      due exactly when it is scheduled and its layout window ends by now. */
  lemma ElapsedInPresentHour(rows0: seq<TimeBlock>, date: string, clock: Clock, j: int)
    requires UniqueBlockIds(rows0) && date == clock.today
    requires 0 <= j < |SortByOrder(InSlot(rows0, date, clock.hour))|
    ensures var sorted := SortByOrder(InSlot(rows0, date, clock.hour));
      sorted[j] in rows0 &&
      (Due(rows0, date, clock)(sorted[j]) <==>
        sorted[j].status == Scheduled && Place(sorted, FirstCursor(sorted))[j].end <= clock.minute)
  {
    var slot := InSlot(rows0, date, clock.hour);
    var sorted := SortByOrder(slot);
    InSlotUnique(rows0, date, clock.hour);
    SortKeepsMembers(slot);
    SortKeepsIds(slot);
    FindPlacementAt(sorted, FirstCursor(sorted), j);
    assert sorted[j] in slot;
  }

  // ─── What the sweep promises ──────────────────────────────────────────────

  /** The sweep only turns scheduled blocks of `date` into skipped ones
      (stamping `updatedAt`); completed and skipped blocks, blocks of other
      dates and every block's place in the layout stay as they were. */
  lemma SweptOnlySkips(rows: seq<TimeBlock>, date: string, clock: Clock)
    ensures ShapeEq(rows, Swept(rows, date, clock))
    ensures forall k :: 0 <= k < |rows| ==>
      Swept(rows, date, clock)[k] == rows[k] ||
      (rows[k].status == Scheduled && rows[k].date == date &&
       Swept(rows, date, clock)[k] == rows[k].(status := Skipped, updatedAt := clock.nowMs))
    ensures forall k :: 0 <= k < |rows| && (rows[k].status != Scheduled || rows[k].date != date) ==>
      Swept(rows, date, clock)[k] == rows[k]
  {
  }

  /** For a date before today every scheduled block of the day is skipped. */
  lemma SweptPastDate(rows: seq<TimeBlock>, date: string, clock: Clock)
    requires LexLess(date, clock.today)
    ensures forall k ::
      (0 <= k < |rows| && rows[k].date == date && rows[k].status == Scheduled && 0 <= rows[k].startHour < 24)
      ==> Swept(rows, date, clock)[k].status == Skipped
  {
    if date == clock.today {
      LexLessIrreflexive(date);
    }
  }

  /** For a date after today nothing is skipped. */
  lemma SweptFutureDate(rows: seq<TimeBlock>, date: string, clock: Clock)
    requires date != clock.today && !LexLess(date, clock.today)
    requires forall b :: b in rows ==> 0 <= b.startHour
    ensures Swept(rows, date, clock) == rows
  {
    assert forall k :: 0 <= k < |rows| ==> rows[k] in rows;
  }

  /** Today, a scheduled block is skipped when its hour is over; in the
      present hour exactly when its effective window (which every stored
      block has) has ended by the present minute; in a later hour never. */
  lemma SweptToday(rows: seq<TimeBlock>, clock: Clock, k: int)
    requires 0 <= k < |rows| && rows[k].date == clock.today && rows[k].status == Scheduled
    ensures rows[k].startHour < clock.hour ==> Swept(rows, clock.today, clock)[k].status == Skipped
    ensures rows[k].startHour > clock.hour ==> Swept(rows, clock.today, clock)[k] == rows[k]
    ensures rows[k].startHour == clock.hour ==>
      EffectiveBlockTime(rows, rows[k]).Some? &&
      (Swept(rows, clock.today, clock)[k].status == Skipped <==>
        EffectiveBlockTime(rows, rows[k]).value.end <= clock.hour * 60 + clock.minute)
  {
    EffectiveBlockTimeMissing(rows, rows[k]);
  }

  /** Blocks of the same shape in tables of the same shape have the same
      window. */
  lemma WindowShape(rows: seq<TimeBlock>, rows': seq<TimeBlock>, b: TimeBlock, b': TimeBlock)
    requires ShapeEq(rows, rows') && SameShape(b, b')
    ensures EffectiveBlockTime(rows, b) == EffectiveBlockTime(rows', b')
  {
    var slot, slot' := InSlot(rows, b.date, b.startHour), InSlot(rows', b.date, b.startHour);
    InSlotShape(rows, rows', b.date, b.startHour);
    LayoutShape(slot, slot', b.id);
    SameWindow(b.startHour, FindPlacement(Layout(slot), b.id), FindPlacement(Layout(slot'), b.id));
  }

  lemma SameWindow(hour: int, p: Option<Placement>, q: Option<Placement>)
    requires p.Some? == q.Some?
    requires p.Some? ==> p.value.start == q.value.start && p.value.end == q.value.end
    ensures WindowAt(hour, p) == WindowAt(hour, q)
  {
  }

  lemma WindowFromPlacement(rows: seq<TimeBlock>, b: TimeBlock)
    ensures var sorted := SortByOrder(InSlot(rows, b.date, b.startHour));
      var p := FindPlacement(Place(sorted, FirstCursor(sorted)), b.id);
      (EffectiveBlockTime(rows, b).Some? <==> p.Some?) &&
      (p.Some? ==> EffectiveBlockTime(rows, b).value == Window(b.startHour * 60 + p.value.start, b.startHour * 60 + p.value.end))
  {
  }

  /** A second sweep with the same clock reading changes nothing. */
  lemma SweepIdempotent(rows: seq<TimeBlock>, date: string, clock: Clock)
    ensures Swept(Swept(rows, date, clock), date, clock) == Swept(rows, date, clock)
  {
    var r1 := Swept(rows, date, clock);
    SweptOnlySkips(rows, date, clock);
    forall k | 0 <= k < |r1|
      ensures !Elapsed(r1, r1[k], date, clock)
    {
      WindowShape(rows, r1, rows[k], r1[k]);
    }
  }
}
