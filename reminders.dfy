/** One poll of the unstarted-task reminder: pick the block of today's
    present hour whose stacked window holds the present minute, and remind
    about it unless a session already runs it, it was reminded too
    recently, or its card or board is gone.  The toast, the chime, the
    timer that repeats the poll and the copy of the history kept in local
    storage are not part of this model. */
module UnstartedReminders {
  import opened Wrappers
  import opened Types
  import opened Db
  import opened TimeBlockTable
  import opened EffectiveLayout
  import opened FocusHelpers

  /** The running focus session, as far as the reminder looks at it. */
  datatype Session = Session(cardId: string, timeBlockId: Option<string>)

  const MsPerMinute := 60000

  // ─── Specification ────────────────────────────────────────────────────────

  function ScheduledOnly(bs: seq<TimeBlock>): (r: seq<TimeBlock>)
    ensures forall b :: b in r <==> b in bs && b.status == Scheduled
  {
    if bs == [] then []
    else (if bs[0].status == Scheduled then [bs[0]] else []) + ScheduledOnly(bs[1..])
  }

  /** The candidates, in the order the poll walks them. */
  function Candidates(rows: seq<TimeBlock>, clock: Clock): (r: seq<TimeBlock>)
    ensures forall b :: b in r <==>
      b in rows && b.date == clock.today && b.status == Scheduled && b.startHour == clock.hour
  {
    SortKeepsMembers(ScheduledOnly(InSlot(rows, clock.today, clock.hour)));
    SortByOrder(ScheduledOnly(InSlot(rows, clock.today, clock.hour)))
  }

  /** The first block, stacking from `offset`, whose window
      `[offset, offset + duration)` holds `minute`. */
  function ActiveFrom(bs: seq<TimeBlock>, offset: int, minute: int): Option<TimeBlock> {
    if bs == [] then None
    else if offset <= minute < offset + bs[0].durationMinutes then Some(bs[0])
    else ActiveFrom(bs[1..], offset + bs[0].durationMinutes, minute)
  }

  predicate Holds(p: Placement, minute: int) {
    p.start <= minute < p.end
  }

  /** The block's window, stacked from minute 0, holds the minute and no
      earlier candidate's window does. */
  predicate IsActive(bs: seq<TimeBlock>, b: TimeBlock, minute: int) {
    exists j :: 0 <= j < |bs| && bs[j] == b && Holds(Stack(bs, 0)[j], minute) &&
      forall i :: 0 <= i < j ==> !Holds(Stack(bs, 0)[i], minute)
  }

  predicate Suppressed(b: TimeBlock, session: Option<Session>) {
    session.Some? && (session.value.cardId == b.cardId || session.value.timeBlockId == Some(b.id))
  }

  /** Fewer than `interval` minutes since the last reminder for this id
      (never reminded counts as reminded at time 0). */
  predicate RateLimited(b: TimeBlock, interval: int, nowMs: int, lastNotified: map<string, int>) {
    var last := if b.id in lastNotified then lastNotified[b.id] else 0;
    nowMs - last < interval * MsPerMinute
  }

  predicate CardAndBoardFound(b: TimeBlock, cards: seq<KanbanCard>, pages: seq<Page>) {
    (exists c :: c in cards && c.id == b.cardId) && (exists p :: p in pages && p.id == b.pageId)
  }

  /** The block one poll reminds about, if any. */
  function Reminder(rows: seq<TimeBlock>, cards: seq<KanbanCard>, pages: seq<Page>, zenMode: bool,
                    session: Option<Session>, interval: int, clock: Clock, lastNotified: map<string, int>)
    : Option<TimeBlock>
  {
    if zenMode || interval == 0 then None
    else
      var active := ActiveFrom(Candidates(rows, clock), 0, clock.minute);
      if active.None? then None
      else if Suppressed(active.value, session) then None
      else if RateLimited(active.value, interval, clock.nowMs, lastNotified) then None
      else if !CardAndBoardFound(active.value, cards, pages) then None
      else active
  }

  // ─── The poll ─────────────────────────────────────────────────────────────

  /** The reminder history the hook keeps between polls. */
  class ReminderHistory {
    var lastNotifiedAt: map<string, int>

    constructor (initial: map<string, int>)
      ensures lastNotifiedAt == initial
    {
      lastNotifiedAt := initial;
    }

    /** `checkUnstartedTasks`.  Reading the settings may first store the
        defaults; the history changes only for the block reminded about. */
    method CheckUnstartedTasks(db: Database, zenMode: bool, session: Option<Session>, clock: Clock)
      returns (reminded: Option<TimeBlock>)
      modifies this, db`focusSettings
      ensures zenMode ==>
        (reminded.None? && lastNotifiedAt == old(lastNotifiedAt) && db.focusSettings == old(db.focusSettings))
      ensures !zenMode ==>
        db.focusSettings == Some(if old(db.focusSettings).Some? then old(db.focusSettings).value else Stored(DefaultSettings))
      ensures reminded == Reminder(db.timeBlocks, db.kanbanCards, db.pages, zenMode, session,
                                   SettingsOf(old(db.focusSettings)).reminderIntervalMinutes, clock, old(lastNotifiedAt))
      ensures lastNotifiedAt == if reminded.Some? then old(lastNotifiedAt)[reminded.value.id := clock.nowMs]
                                else old(lastNotifiedAt)
    {
      if zenMode {
        return None;
      }
      var settings := GetFocusSettings(db);
      var reminderInterval := settings.reminderIntervalMinutes;
      if reminderInterval == 0 {
        return None;
      }
      var sortedBlocks := Candidates(db.timeBlocks, clock);
      var activeBlock := FindActiveBlock(sortedBlocks, clock.minute);
      if activeBlock.None? {
        return None;
      }
      var block := activeBlock.value;
      if Suppressed(block, session) {
        return None;
      }
      var lastNotified := if block.id in lastNotifiedAt then lastNotifiedAt[block.id] else 0;
      if clock.nowMs - lastNotified < reminderInterval * MsPerMinute {
        return None;
      }
      if !CardAndBoardFound(block, db.kanbanCards, db.pages) {
        return None;
      }
      lastNotifiedAt := lastNotifiedAt[block.id := clock.nowMs];
      reminded := Some(block);
    }
  }

  /** The search loop: offsets accumulate from 0 and the first block whose
      window holds the minute ends it. */
  method FindActiveBlock(sortedBlocks: seq<TimeBlock>, currentMinuteNow: int) returns (activeBlock: Option<TimeBlock>)
    ensures activeBlock == ActiveFrom(sortedBlocks, 0, currentMinuteNow)
  {
    var offset := 0;
    activeBlock := None;
    var i := 0;
    while i < |sortedBlocks|
      invariant 0 <= i <= |sortedBlocks|
      invariant ActiveFrom(sortedBlocks, 0, currentMinuteNow) == ActiveFrom(sortedBlocks[i..], offset, currentMinuteNow)
    {
      var block := sortedBlocks[i];
      var blockEnd := offset + block.durationMinutes;
      assert sortedBlocks[i..][1..] == sortedBlocks[i + 1..];
      if currentMinuteNow >= offset && currentMinuteNow < blockEnd {
        activeBlock := Some(block);
        return;
      }
      offset := blockEnd;
      i := i + 1;
    }
    assert sortedBlocks[i..] == [];
  }

  // ─── Properties ───────────────────────────────────────────────────────────

  /** The stacked search finds exactly the first block whose window holds
      the minute. */
  lemma {:induction false} ActiveFromIsFirstHolding(bs: seq<TimeBlock>, offset: int, minute: int)
    ensures ActiveFrom(bs, offset, minute).Some? ==>
      exists j :: 0 <= j < |bs| && bs[j] == ActiveFrom(bs, offset, minute).value &&
        Holds(Stack(bs, offset)[j], minute) && forall i :: 0 <= i < j ==> !Holds(Stack(bs, offset)[i], minute)
    ensures ActiveFrom(bs, offset, minute).None? ==> forall j :: 0 <= j < |bs| ==> !Holds(Stack(bs, offset)[j], minute)
  {
    if bs != [] {
      var next := offset + bs[0].durationMinutes;
      var tail := bs[1..];
      var st, rest := Stack(bs, offset), Stack(tail, next);
      ActiveFromIsFirstHolding(tail, next, minute);
      assert st == [Placement(bs[0], offset, next)] + rest;
      if offset <= minute < next {
        assert Holds(st[0], minute);
      } else {
        assert ActiveFrom(bs, offset, minute) == ActiveFrom(tail, next, minute);
        assert !Holds(st[0], minute);
        forall j | 0 < j < |bs| ensures st[j] == rest[j - 1] && bs[j] == tail[j - 1] {
        }
        if ActiveFrom(tail, next, minute).Some? {
          var j :| 0 <= j < |tail| && tail[j] == ActiveFrom(tail, next, minute).value &&
            Holds(rest[j], minute) && forall i :: 0 <= i < j ==> !Holds(rest[i], minute);
          assert bs[j + 1] == tail[j] && st[j + 1] == rest[j];
          forall i | 0 <= i < j + 1 ensures !Holds(st[i], minute) {
            if i > 0 {
              assert st[i] == rest[i - 1];
            }
          }
        }
      }
    }
  }

  /** If two indices both qualify as the first holding one, they agree: the
      active block is unique when ids are. */
  lemma ActiveIsUnique(bs: seq<TimeBlock>, b: TimeBlock, minute: int)
    requires IsActive(bs, b, minute)
    ensures ActiveFrom(bs, 0, minute) == Some(b)
  {
    ActiveFromIsFirstHolding(bs, 0, minute);
    var j :| 0 <= j < |bs| && bs[j] == b && Holds(Stack(bs, 0)[j], minute) &&
      forall i :: 0 <= i < j ==> !Holds(Stack(bs, 0)[i], minute);
    var a := ActiveFrom(bs, 0, minute);
    assert a.Some?;
    var k :| 0 <= k < |bs| && bs[k] == a.value && Holds(Stack(bs, 0)[k], minute) &&
      forall i :: 0 <= i < k ==> !Holds(Stack(bs, 0)[i], minute);
    assert k == j;
  }

  /** A poll reminds about block `b` exactly when it is not in zen mode, the
      interval is not 0, `b` is the active candidate, no session runs it,
      the interval has passed since its last reminder, and its card and
      board exist. */
  lemma ReminderExactly(rows: seq<TimeBlock>, cards: seq<KanbanCard>, pages: seq<Page>, zenMode: bool,
                        session: Option<Session>, interval: int, clock: Clock, lastNotified: map<string, int>,
                        b: TimeBlock)
    ensures Reminder(rows, cards, pages, zenMode, session, interval, clock, lastNotified) == Some(b) <==>
      !zenMode && interval != 0 && IsActive(Candidates(rows, clock), b, clock.minute) &&
      !Suppressed(b, session) && !RateLimited(b, interval, clock.nowMs, lastNotified) &&
      CardAndBoardFound(b, cards, pages)
  {
    var cs := Candidates(rows, clock);
    ActiveFromIsFirstHolding(cs, 0, clock.minute);
    if IsActive(cs, b, clock.minute) {
      ActiveIsUnique(cs, b, clock.minute);
    }
  }

  /** Whatever is reminded about is a scheduled block of today's present
      hour whose stacked window holds the present minute. */
  lemma RemindedIsCurrent(rows: seq<TimeBlock>, cards: seq<KanbanCard>, pages: seq<Page>, zenMode: bool,
                          session: Option<Session>, interval: int, clock: Clock, lastNotified: map<string, int>)
    ensures var r := Reminder(rows, cards, pages, zenMode, session, interval, clock, lastNotified);
      r.Some? ==> (r.value in rows && r.value.date == clock.today && r.value.status == Scheduled &&
                   r.value.startHour == clock.hour && r.value.durationMinutes > 0)
  {
    var r := Reminder(rows, cards, pages, zenMode, session, interval, clock, lastNotified);
    if r.Some? {
      ReminderExactly(rows, cards, pages, zenMode, session, interval, clock, lastNotified, r.value);
      var cs := Candidates(rows, clock);
      var j :| 0 <= j < |cs| && cs[j] == r.value && Holds(Stack(cs, 0)[j], clock.minute) &&
        forall i :: 0 <= i < j ==> !Holds(Stack(cs, 0)[i], clock.minute);
      StackFacts(cs, 0);
      assert cs[j] in cs;
    }
  }

  /** Once reminded, a block is not reminded again by a poll that comes
      less than the interval later, whatever else holds. */
  lemma NoRepeatWithinInterval(rows: seq<TimeBlock>, cards: seq<KanbanCard>, pages: seq<Page>,
                               session: Option<Session>, interval: int, clock: Clock, later: Clock,
                               lastNotified: map<string, int>, b: TimeBlock)
    requires Reminder(rows, cards, pages, false, session, interval, clock, lastNotified) == Some(b)
    requires clock.nowMs <= later.nowMs < clock.nowMs + interval * MsPerMinute
    ensures Reminder(rows, cards, pages, false, session, interval, later, lastNotified[b.id := clock.nowMs]) != Some(b)
  {
    ReminderExactly(rows, cards, pages, false, session, interval, later, lastNotified[b.id := clock.nowMs], b);
  }

  /** Break blocks are never reminded about while no card carries the break
      sentinel as its id. */
  lemma BreakBlocksNotReminded(rows: seq<TimeBlock>, cards: seq<KanbanCard>, pages: seq<Page>, zenMode: bool,
                               session: Option<Session>, interval: int, clock: Clock, lastNotified: map<string, int>)
    requires forall c :: c in cards ==> c.id != BreakCardId
    ensures var r := Reminder(rows, cards, pages, zenMode, session, interval, clock, lastNotified);
      r.Some? ==> !IsBreakBlock(r.value)
  {
  }
}
