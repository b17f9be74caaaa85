/** The focus view's helpers: the context shown for one hour row, the
    12-hour clock label, and moving a block to the end of another hour. */
module FocusViewUtils {
  import opened Wrappers
  import opened Types
  import opened Db
  import opened TimeBlockTable
  import opened EffectiveLayout
  import opened FocusTimeBlocks
  import opened FocusHelpers

  // ─── Hour context ─────────────────────────────────────────────────────────

  datatype HourContext = HourContext(hour: int, capacity: int, isCurrentHour: bool)

  /** `getHourContext`: the older capacity of the hour and whether it is the
      present hour of today. */
  function GetHourContext(rows: seq<TimeBlock>, selectedDate: string, hour: int, clock: Clock): (r: HourContext)
    ensures r.hour == hour
    ensures r.isCurrentHour <==> selectedDate == clock.today && hour == clock.hour
    ensures r.capacity == LegacyCapacity(rows, selectedDate, hour, clock)
  {
    HourContext(hour, LegacyCapacity(rows, selectedDate, hour, clock),
                selectedDate == clock.today && hour == clock.hour)
  }

  /** The capacity shown never goes below 0 nor, with a valid clock and
      non-negative durations, above the minutes left in the hour. */
  lemma HourContextBounds(rows: seq<TimeBlock>, selectedDate: string, hour: int, clock: Clock)
    requires ValidClock(clock) && NonNegativeDurations(InSlot(rows, selectedDate, hour))
    ensures var c := GetHourContext(rows, selectedDate, hour, clock);
      0 <= c.capacity <= (if c.isCurrentHour then 60 - clock.minute else 60)
  {
    TotalNonNegative(InSlot(rows, selectedDate, hour));
  }

  // ─── Clock label ──────────────────────────────────────────────────────────

  function Digit(d: int): char
    requires 0 <= d < 10
  {
    ('0' as int + d) as char
  }

  function DigitValue(c: char): int {
    c as int - '0' as int
  }

  predicate IsDigit(c: char) {
    '0' <= c <= '9'
  }

  /** The hour on a 12-hour dial: 0 and 12 both read 12. */
  function DisplayHour(hours: int): (h: int)
    requires 0 <= hours < 24
    ensures 1 <= h <= 12
    ensures h % 12 == hours % 12
  {
    if hours % 12 == 0 then 12 else hours % 12
  }

  /** A number in 1..12 as decimal digits, without padding. */
  function HourText(h: int): (s: string)
    requires 1 <= h <= 12
    ensures 1 <= |s| <= 2 && forall i :: 0 <= i < |s| ==> IsDigit(s[i])
  {
    if h < 10 then [Digit(h)] else [Digit(h / 10), Digit(h % 10)]
  }

  /** `formatClockTime`: `h:mm AM` or `h:mm PM`. */
  function FormatClockTime(hours: int, minutes: int): (s: string)
    requires 0 <= hours < 24 && 0 <= minutes < 60
    ensures |s| == |HourText(DisplayHour(hours))| + 6
    ensures s[|s| - 6] == ':' && s[|s| - 3] == ' ' && s[|s| - 1] == 'M'
    ensures s[|s| - 2] == 'P' <==> hours >= 12
    ensures s[|s| - 2] == 'A' <==> hours < 12
    ensures IsDigit(s[|s| - 5]) && IsDigit(s[|s| - 4])
  {
    HourText(DisplayHour(hours)) + [':', Digit(minutes / 10), Digit(minutes % 10), ' ']
      + (if hours >= 12 then "PM" else "AM")
  }

  /** Reads a label back into hours and minutes. */
  function ParseClockTime(s: string): Option<(int, int)> {
    if |s| < 7 || |s| > 8 || s[|s| - 6] != ':' || s[|s| - 3] != ' ' || s[|s| - 1] != 'M' then None
    else
      var hourText := s[..|s| - 6];
      var h := if |hourText| == 1 then DigitValue(hourText[0]) else 10 * DigitValue(hourText[0]) + DigitValue(hourText[1]);
      var m := 10 * DigitValue(s[|s| - 5]) + DigitValue(s[|s| - 4]);
      var pm := s[|s| - 2] == 'P';
      Some(((h % 12) + (if pm then 12 else 0), m))
  }

  /** The label loses nothing: reading it back gives the time it shows, so
      two different times never share a label. */
  lemma FormatClockTimeRoundTrip(hours: int, minutes: int)
    requires 0 <= hours < 24 && 0 <= minutes < 60
    ensures ParseClockTime(FormatClockTime(hours, minutes)) == Some((hours, minutes))
  {
    var dh := DisplayHour(hours);
    var s := FormatClockTime(hours, minutes);
    var ht := HourText(dh);
    assert s[..|s| - 6] == ht;
    assert s[|s| - 5] == Digit(minutes / 10) && s[|s| - 4] == Digit(minutes % 10);
  }

  lemma FormatClockTimeInjective(h1: int, m1: int, h2: int, m2: int)
    requires 0 <= h1 < 24 && 0 <= m1 < 60 && 0 <= h2 < 24 && 0 <= m2 < 60
    requires FormatClockTime(h1, m1) == FormatClockTime(h2, m2)
    ensures h1 == h2 && m1 == m2
  {
    FormatClockTimeRoundTrip(h1, m1);
    FormatClockTimeRoundTrip(h2, m2);
  }

  // ─── Moving a block ───────────────────────────────────────────────────────

  /** The change `moveBlockToHour` asks for: the new hour, and the order just
      after the greatest order already in that hour of the selected date. */
  function MoveChange(rows: seq<TimeBlock>, newHour: int, selectedDate: string): BlockChanges {
    BlockChanges(Some(newHour), None, None, None, None, Some(NextOrder(InSlot(rows, selectedDate, newHour))))
  }

  /** `moveBlockToHour`: no capacity check, only hour and order change. */
  method MoveBlockToHour(db: Database, blockId: string, newHour: int, selectedDate: string, clock: Clock)
    modifies db`timeBlocks
    ensures db.timeBlocks == UpdateById(old(db.timeBlocks), blockId, MoveChange(old(db.timeBlocks), newHour, selectedDate), clock.nowMs)
  {
    var allBlocks := OnDate(db.timeBlocks, selectedDate);
    var targetBlocks := InHour(allBlocks, newHour);
    var maxOrder := if |targetBlocks| > 0 then MaxOrder(targetBlocks) else -1;
    UpdateTimeBlock(db, blockId, BlockChanges(Some(newHour), None, None, None, None, Some(maxOrder + 1)), clock);
  }

  /** After a move the block sits in the new hour with its date, hint,
      duration and status as they were, ranked after every block already
      there; all other rows are untouched. */
  lemma MoveKeepsBlock(rows: seq<TimeBlock>, blockId: string, newHour: int, selectedDate: string, now: int, k: int)
    requires 0 <= k < |rows|
    ensures var rows' := UpdateById(rows, blockId, MoveChange(rows, newHour, selectedDate), now);
      (rows[k].id != blockId ==> rows'[k] == rows[k]) &&
      (rows[k].id == blockId ==>
        rows'[k].startHour == newHour && rows'[k].date == rows[k].date &&
        rows'[k].startMinute == rows[k].startMinute && rows'[k].durationMinutes == rows[k].durationMinutes &&
        rows'[k].status == rows[k].status && rows'[k].cardId == rows[k].cardId &&
        (forall b :: b in InSlot(rows, selectedDate, newHour) ==> b.order < rows'[k].order) &&
        (InSlot(rows, selectedDate, newHour) == [] ==> rows'[k].order == 0))
  {
    NextOrderAppends(InSlot(rows, selectedDate, newHour));
  }

  /** In a sequence sorted by order, an element ranked strictly after all
      others comes last. */
  lemma StrictMaxComesLast(s: seq<TimeBlock>, x: TimeBlock)
    requires SortedByOrder(s) && x in s
    requires forall y :: y in s && y != x ==> y.order < x.order
    ensures s[|s| - 1] == x
  {
    var i :| 0 <= i < |s| && s[i] == x;
    assert s[i].order <= s[|s| - 1].order;
  }

  /** The moved row is in its new slot and every other row there ranks
      before it. */
  lemma MovedRanksLast(rows: seq<TimeBlock>, blockId: string, newHour: int, selectedDate: string, now: int, k: int)
    requires UniqueBlockIds(rows) && 0 <= k < |rows| && rows[k].id == blockId && rows[k].date == selectedDate
    ensures var rows' := UpdateById(rows, blockId, MoveChange(rows, newHour, selectedDate), now);
      var slot' := InSlot(rows', selectedDate, newHour);
      rows'[k] in slot' && forall y :: y in slot' && y != rows'[k] ==> y.order < rows'[k].order
  {
    var ch := MoveChange(rows, newHour, selectedDate);
    var rows' := UpdateById(rows, blockId, ch, now);
    var slot := InSlot(rows, selectedDate, newHour);
    var slot' := InSlot(rows', selectedDate, newHour);
    var x := rows'[k];
    NextOrderAppends(slot);
    assert x in rows';
    forall y | y in slot' && y != x
      ensures y.order < x.order
    {
      var j :| 0 <= j < |rows'| && rows'[j] == y;
      assert j != k;
      assert rows[j].id != blockId;
      assert rows[j] == y;
      assert y in slot;
    }
  }

  /** Sorting by order puts an element ranked after all others last. */
  lemma SortPutsStrictMaxLast(slot: seq<TimeBlock>, x: TimeBlock)
    requires x in slot
    requires forall y :: y in slot && y != x ==> y.order < x.order
    ensures SortByOrder(slot) != [] && SortByOrder(slot)[|SortByOrder(slot)| - 1] == x
  {
    SortIsSortedPermutation(slot);
    SortKeepsMembers(slot);
    StrictMaxComesLast(SortByOrder(slot), x);
  }

  /** A block moved within the selected date lands at the end of its new
      hour's layout. */
  lemma MovedBlockLaysOutLast(rows: seq<TimeBlock>, blockId: string, newHour: int, selectedDate: string, now: int, k: int)
    requires UniqueBlockIds(rows) && 0 <= k < |rows| && rows[k].id == blockId && rows[k].date == selectedDate
    ensures var rows' := UpdateById(rows, blockId, MoveChange(rows, newHour, selectedDate), now);
      var sorted := SortByOrder(InSlot(rows', selectedDate, newHour));
      sorted != [] && sorted[|sorted| - 1] == rows'[k]
  {
    var rows' := UpdateById(rows, blockId, MoveChange(rows, newHour, selectedDate), now);
    MovedRanksLast(rows, blockId, newHour, selectedDate, now, k);
    SortPutsStrictMaxLast(InSlot(rows', selectedDate, newHour), rows'[k]);
  }
}
