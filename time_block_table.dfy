/** The time-block table: the slot queries every scheduling operation starts
    from (`where("date").equals(date)` followed by a `startHour` filter), the
    "append after the largest order" rule, and the table's `update`/`delete`
    primitives. */
module TimeBlockTable {
  import opened Wrappers
  import opened Types

  // ─── Queries ──────────────────────────────────────────────────────────────

  /** The blocks of one date, in table order. */
  function OnDate(rows: seq<TimeBlock>, date: string): (r: seq<TimeBlock>)
    ensures forall b :: b in r <==> b in rows && b.date == date
    ensures |r| <= |rows|
  {
    if rows == [] then []
    else (if rows[0].date == date then [rows[0]] else []) + OnDate(rows[1..], date)
  }

  /** The blocks of one hour, in the given order. */
  function InHour(bs: seq<TimeBlock>, hour: int): (r: seq<TimeBlock>)
    ensures forall b :: b in r <==> b in bs && b.startHour == hour
    ensures |r| <= |bs|
  {
    if bs == [] then []
    else (if bs[0].startHour == hour then [bs[0]] else []) + InHour(bs[1..], hour)
  }

  /** The blocks of slot (date, hour). */
  function InSlot(rows: seq<TimeBlock>, date: string, hour: int): (r: seq<TimeBlock>)
    ensures forall b :: b in r <==> b in rows && b.date == date && b.startHour == hour
  {
    InHour(OnDate(rows, date), hour)
  }

  lemma TailUnique(s: seq<TimeBlock>)
    requires UniqueBlockIds(s) && s != []
    ensures UniqueBlockIds(s[1..])
    ensures forall b :: b in s[1..] ==> b.id != s[0].id
  {
    var tail := s[1..];
    forall i, j | 0 <= i < j < |tail| ensures tail[i].id != tail[j].id {
      assert tail[i] == s[i + 1] && tail[j] == s[j + 1];
    }
    forall b | b in tail ensures b.id != s[0].id {
      var k :| 0 <= k < |tail| && tail[k] == b;
      assert tail[k] == s[k + 1];
    }
  }

  lemma ConsUnique(x: TimeBlock, s: seq<TimeBlock>)
    requires UniqueBlockIds(s)
    requires forall b :: b in s ==> b.id != x.id
    ensures UniqueBlockIds([x] + s)
  {
    var r := [x] + s;
    forall i, j | 0 <= i < j < |r| ensures r[i].id != r[j].id {
      assert r[j] == s[j - 1];
      if i > 0 {
        assert r[i] == s[i - 1];
      } else {
        assert s[j - 1] in s;
      }
    }
  }

  /** A table with unique keys gives slots, dates and hours with unique
      keys. */
  lemma {:induction false} OnDateUnique(rows: seq<TimeBlock>, date: string)
    requires UniqueBlockIds(rows)
    ensures UniqueBlockIds(OnDate(rows, date))
  {
    if rows != [] {
      TailUnique(rows);
      OnDateUnique(rows[1..], date);
      if rows[0].date == date {
        ConsUnique(rows[0], OnDate(rows[1..], date));
      } else {
        assert OnDate(rows, date) == OnDate(rows[1..], date);
      }
    }
  }

  lemma {:induction false} InHourUnique(bs: seq<TimeBlock>, hour: int)
    requires UniqueBlockIds(bs)
    ensures UniqueBlockIds(InHour(bs, hour))
  {
    if bs != [] {
      TailUnique(bs);
      InHourUnique(bs[1..], hour);
      if bs[0].startHour == hour {
        ConsUnique(bs[0], InHour(bs[1..], hour));
      } else {
        assert InHour(bs, hour) == InHour(bs[1..], hour);
      }
    }
  }

  lemma InSlotUnique(rows: seq<TimeBlock>, date: string, hour: int)
    requires UniqueBlockIds(rows)
    ensures UniqueBlockIds(InSlot(rows, date, hour))
  {
    OnDateUnique(rows, date);
    InHourUnique(OnDate(rows, date), hour);
  }

  lemma {:induction false} OnDateAppend(s: seq<TimeBlock>, t: seq<TimeBlock>, date: string)
    ensures OnDate(s + t, date) == OnDate(s, date) + OnDate(t, date)
  {
    if s != [] {
      assert (s + t)[1..] == s[1..] + t;
      OnDateAppend(s[1..], t, date);
    } else {
      assert s + t == t;
    }
  }

  lemma {:induction false} InHourAppend(s: seq<TimeBlock>, t: seq<TimeBlock>, hour: int)
    ensures InHour(s + t, hour) == InHour(s, hour) + InHour(t, hour)
  {
    if s != [] {
      assert (s + t)[1..] == s[1..] + t;
      InHourAppend(s[1..], t, hour);
    } else {
      assert s + t == t;
    }
  }

  /** Appending a record to the table appends it to its own slot and leaves
      every other slot as it was. */
  lemma InSlotAppend(rows: seq<TimeBlock>, b: TimeBlock, date: string, hour: int)
    ensures InSlot(rows + [b], date, hour)
         == InSlot(rows, date, hour) + (if b.date == date && b.startHour == hour then [b] else [])
  {
    OnDateAppend(rows, [b], date);
    InHourAppend(OnDate(rows, date), OnDate([b], date), hour);
  }

  // ─── Append position ──────────────────────────────────────────────────────

  /** `Math.max(...blocks.map(b => b.order))` for a non-empty slot. */
  function MaxOrder(bs: seq<TimeBlock>): (m: int)
    requires bs != []
    ensures forall b :: b in bs ==> b.order <= m
    ensures exists b :: b in bs && b.order == m
  {
    if |bs| == 1 then bs[0].order
    else
      var rest := MaxOrder(bs[1..]);
      if bs[0].order >= rest then bs[0].order else rest
  }

  /** The order given to a block appended to a slot: one past the largest
      order present, or 0 in an empty slot. */
  function NextOrder(bs: seq<TimeBlock>): int {
    (if |bs| > 0 then MaxOrder(bs) else -1) + 1
  }

  /** The appended block ranks strictly after every block already in the
      slot, and the gap it leaves is exactly one. */
  lemma NextOrderAppends(bs: seq<TimeBlock>)
    ensures forall b :: b in bs ==> b.order < NextOrder(bs)
    ensures bs == [] ==> NextOrder(bs) == 0
    ensures bs != [] ==> exists b :: b in bs && NextOrder(bs) == b.order + 1
  {
    if bs != [] {
      var m := MaxOrder(bs);
      var top :| top in bs && top.order == m;
      assert NextOrder(bs) == top.order + 1;
    }
  }

  // ─── Updates ──────────────────────────────────────────────────────────────

  /** The fields `updateTimeBlock` may change; `None` leaves a field as is. */
  datatype BlockChanges = BlockChanges(
    startHour: Option<int>,
    startMinute: Option<int>,
    date: Option<string>,
    durationMinutes: Option<int>,
    status: Option<Status>,
    order: Option<int>)

  const NoChanges := BlockChanges(None, None, None, None, None, None)

  function Apply(b: TimeBlock, ch: BlockChanges, now: int): TimeBlock {
    b.(startHour := ch.startHour.GetOr(b.startHour),
       startMinute := ch.startMinute.GetOr(b.startMinute),
       date := ch.date.GetOr(b.date),
       durationMinutes := ch.durationMinutes.GetOr(b.durationMinutes),
       status := ch.status.GetOr(b.status),
       order := ch.order.GetOr(b.order),
       updatedAt := now)
  }

  /** `db.timeBlocks.update(id, {...changes, updatedAt: now})`: the record
      with that key takes the changes; an unknown key changes nothing. */
  function UpdateById(rows: seq<TimeBlock>, id: string, ch: BlockChanges, now: int): (r: seq<TimeBlock>)
    ensures |r| == |rows|
    ensures forall k :: 0 <= k < |rows| ==> r[k] == if rows[k].id == id then Apply(rows[k], ch, now) else rows[k]
  {
    seq(|rows|, k requires 0 <= k < |rows| => if rows[k].id == id then Apply(rows[k], ch, now) else rows[k])
  }

  /** `db.timeBlocks.delete(id)`. */
  function DeleteById(rows: seq<TimeBlock>, id: string): (r: seq<TimeBlock>)
    ensures forall b :: b in r <==> b in rows && b.id != id
  {
    if rows == [] then []
    else (if rows[0].id != id then [rows[0]] else []) + DeleteById(rows[1..], id)
  }

  lemma {:induction false} DeleteUnique(rows: seq<TimeBlock>, id: string)
    requires UniqueBlockIds(rows)
    ensures UniqueBlockIds(DeleteById(rows, id))
  {
    if rows != [] {
      TailUnique(rows);
      DeleteUnique(rows[1..], id);
      if rows[0].id != id {
        ConsUnique(rows[0], DeleteById(rows[1..], id));
      } else {
        assert DeleteById(rows, id) == DeleteById(rows[1..], id);
      }
    }
  }

  lemma UpdatePreservesIds(rows: seq<TimeBlock>, id: string, ch: BlockChanges, now: int)
    requires UniqueBlockIds(rows)
    ensures UniqueBlockIds(UpdateById(rows, id, ch, now))
  {
  }

  // ─── Records that occupy the same place ──────────────────────────────────

  /** Two versions of a block that the layout cannot tell apart: they differ
      at most in status, card, page and timestamps. */
  predicate SameShape(a: TimeBlock, b: TimeBlock) {
    a.id == b.id && a.date == b.date && a.startHour == b.startHour &&
    a.startMinute == b.startMinute && a.durationMinutes == b.durationMinutes && a.order == b.order
  }

  predicate ShapeEq(s: seq<TimeBlock>, t: seq<TimeBlock>) {
    |s| == |t| && forall i :: 0 <= i < |s| ==> SameShape(s[i], t[i])
  }

  lemma {:induction false} OnDateShape(s: seq<TimeBlock>, t: seq<TimeBlock>, date: string)
    requires ShapeEq(s, t)
    ensures ShapeEq(OnDate(s, date), OnDate(t, date))
  {
    if s != [] {
      OnDateShape(s[1..], t[1..], date);
    }
  }

  lemma {:induction false} InHourShape(s: seq<TimeBlock>, t: seq<TimeBlock>, hour: int)
    requires ShapeEq(s, t)
    ensures ShapeEq(InHour(s, hour), InHour(t, hour))
  {
    if s != [] {
      InHourShape(s[1..], t[1..], hour);
    }
  }

  lemma InSlotShape(s: seq<TimeBlock>, t: seq<TimeBlock>, date: string, hour: int)
    requires ShapeEq(s, t)
    ensures ShapeEq(InSlot(s, date, hour), InSlot(t, date, hour))
  {
    OnDateShape(s, t, date);
    InHourShape(OnDate(s, date), OnDate(t, date), hour);
  }

  // ─── The skip sweep's bookkeeping ────────────────────────────────────────

  /** The change a sweep writes: `{ status: "skipped", updatedAt: now }`. */
  function Skip(b: TimeBlock, now: int): TimeBlock {
    b.(status := Skipped, updatedAt := now)
  }

  const SkipChange := BlockChanges(None, None, None, None, Some(Skipped), None)

  /** Both sweeps first group the date's blocks by hour; `hours` lists the
      keys in the order a `Map` iterates them (first appearance). */
  method GroupByHour(blocks: seq<TimeBlock>) returns (byHour: map<int, seq<TimeBlock>>, hours: seq<int>)
    ensures forall h :: h in byHour <==> h in hours
    ensures forall h :: h in byHour ==> byHour[h] == InHour(blocks, h)
    ensures forall b :: b in blocks ==> b.startHour in byHour
  {
    byHour, hours := map[], [];
    for i := 0 to |blocks|
      invariant forall h :: h in byHour <==> h in hours
      invariant Grouped(blocks, i, byHour)
    {
      var b := blocks[i];
      var arr := if b.startHour in byHour then byHour[b.startHour] else [];
      if b.startHour !in byHour {
        hours := hours + [b.startHour];
      }
      GroupStep(blocks, i, byHour);
      byHour := byHour[b.startHour := arr + [b]];
    }
    GroupDone(blocks, byHour);
  }

  /** `byHour` maps each hour present among the first `i` blocks to those
      of its blocks, in order. */
  ghost predicate Grouped(blocks: seq<TimeBlock>, i: int, byHour: map<int, seq<TimeBlock>>)
    requires 0 <= i <= |blocks|
  {
    forall h :: (h in byHour ==> byHour[h] == InHour(blocks[..i], h)) &&
                (h !in byHour ==> InHour(blocks[..i], h) == [])
  }

  lemma GroupStep(blocks: seq<TimeBlock>, i: int, byHour: map<int, seq<TimeBlock>>)
    requires 0 <= i < |blocks| && Grouped(blocks, i, byHour)
    ensures var b := blocks[i];
      Grouped(blocks, i + 1, byHour[b.startHour :=
        (if b.startHour in byHour then byHour[b.startHour] else []) + [b]])
  {
    assert blocks[..i + 1] == blocks[..i] + [blocks[i]];
    forall h
      ensures InHour(blocks[..i + 1], h) == InHour(blocks[..i], h) + InHour([blocks[i]], h)
    {
      InHourAppend(blocks[..i], [blocks[i]], h);
    }
  }

  lemma GroupDone(blocks: seq<TimeBlock>, byHour: map<int, seq<TimeBlock>>)
    requires Grouped(blocks, |blocks|, byHour)
    ensures forall h :: h in byHour ==> byHour[h] == InHour(blocks, h)
    ensures forall b :: b in blocks ==> b.startHour in byHour
  {
    assert blocks[..|blocks|] == blocks;
    forall b | b in blocks
      ensures b.startHour in byHour
    {
      assert b in InHour(blocks, b.startHour);
    }
  }

  /** Midway through a sweep over the blocks of `date`: a row is already
      in its final state when its hour is finished or the row is among the
      blocks handled so far in the current hour, and untouched otherwise. */
  ghost predicate PartlySkipped(rows: seq<TimeBlock>, rows0: seq<TimeBlock>, due: TimeBlock -> bool,
                                done: set<int>, handled: seq<TimeBlock>, now: int)
  {
    |rows| == |rows0| &&
    forall k :: 0 <= k < |rows0| ==>
      rows[k] == if (rows0[k].startHour in done || rows0[k] in handled) && due(rows0[k])
                 then Skip(rows0[k], now) else rows0[k]
  }

  /** Handling the block at position `j` of an hour's list when it is due:
      the update skips exactly that record. */
  lemma SkipStep(rows: seq<TimeBlock>, rows0: seq<TimeBlock>, due: TimeBlock -> bool,
                 done: set<int>, hourBlocks: seq<TimeBlock>, j: int, now: int)
    requires 0 <= j < |hourBlocks|
    requires UniqueBlockIds(rows0) && hourBlocks[j] in rows0 && due(hourBlocks[j])
    requires PartlySkipped(rows, rows0, due, done, hourBlocks[..j], now)
    ensures PartlySkipped(UpdateById(rows, hourBlocks[j].id, SkipChange, now), rows0, due, done, hourBlocks[..j + 1], now)
  {
    var b := hourBlocks[j];
    assert hourBlocks[..j + 1] == hourBlocks[..j] + [b];
    var rows' := UpdateById(rows, b.id, SkipChange, now);
    forall k | 0 <= k < |rows0|
      ensures rows'[k] == if (rows0[k].startHour in done || rows0[k] in hourBlocks[..j + 1]) && due(rows0[k])
                          then Skip(rows0[k], now) else rows0[k]
    {
      if rows0[k].id == b.id {
        var k' :| 0 <= k' < |rows0| && rows0[k'] == b;
        assert k == k';
      }
    }
  }

  /** Handling a block that is not due changes nothing. */
  lemma KeepStep(rows: seq<TimeBlock>, rows0: seq<TimeBlock>, due: TimeBlock -> bool,
                 done: set<int>, hourBlocks: seq<TimeBlock>, j: int, now: int)
    requires 0 <= j < |hourBlocks| && !due(hourBlocks[j])
    requires PartlySkipped(rows, rows0, due, done, hourBlocks[..j], now)
    ensures PartlySkipped(rows, rows0, due, done, hourBlocks[..j + 1], now)
  {
    assert hourBlocks[..j + 1] == hourBlocks[..j] + [hourBlocks[j]];
  }

  /** An hour whose blocks have all been handled joins the finished hours. */
  lemma CloseHour(rows: seq<TimeBlock>, rows0: seq<TimeBlock>, due: TimeBlock -> bool,
                  done: set<int>, hourBlocks: seq<TimeBlock>, now: int, date: string, hour: int)
    requires PartlySkipped(rows, rows0, due, done, hourBlocks[..|hourBlocks|], now)
    requires forall x: TimeBlock :: due(x) ==> x.date == date
    requires forall x :: x in hourBlocks ==> x.startHour == hour
    requires forall x :: x in rows0 && x.date == date && x.startHour == hour ==> x in hourBlocks
    ensures PartlySkipped(rows, rows0, due, done + {hour}, [], now)
  {
    assert hourBlocks[..|hourBlocks|] == hourBlocks;
  }

  /** An hour none of whose blocks is due joins the finished hours as is. */
  lemma PassHour(rows: seq<TimeBlock>, rows0: seq<TimeBlock>, due: TimeBlock -> bool,
                 done: set<int>, now: int, hour: int)
    requires PartlySkipped(rows, rows0, due, done, [], now)
    requires forall x: TimeBlock :: x.startHour == hour ==> !due(x)
    ensures PartlySkipped(rows, rows0, due, done + {hour}, [], now)
  {
  }

  /** When the finished hours are exactly the hours grouped from a date's
      blocks, every block of that date lies in a finished hour. */
  lemma SweepCovered(rows0: seq<TimeBlock>, date: string, byHour: map<int, seq<TimeBlock>>,
                     hours: seq<int>, done: set<int>)
    requires forall b :: b in OnDate(rows0, date) ==> b.startHour in byHour
    requires forall h :: h in byHour <==> h in hours
    requires forall h :: h in done <==> h in hours
    ensures forall b :: b in rows0 && b.date == date ==> b.startHour in done
  {
    forall b | b in rows0 && b.date == date
      ensures b.startHour in done
    {
      assert b in OnDate(rows0, date);
    }
  }

  /** Once every hour holding a due row is finished, exactly the due rows
      have been skipped. */
  lemma SweepComplete(rows: seq<TimeBlock>, rows0: seq<TimeBlock>, due: TimeBlock -> bool,
                      done: set<int>, now: int)
    requires PartlySkipped(rows, rows0, due, done, [], now)
    requires forall x :: x in rows0 && due(x) ==> x.startHour in done
    ensures |rows| == |rows0|
    ensures forall k :: 0 <= k < |rows0| ==> rows[k] == if due(rows0[k]) then Skip(rows0[k], now) else rows0[k]
  {
  }
}
