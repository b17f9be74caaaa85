/** The capacity and layout engine of one (date, hour) slot.

    The blocks of a slot are sorted by `order` (a stable sort, as
    `Array.prototype.sort` is).  A cursor starts at the first block's
    `startMinute` when that is positive, otherwise at 0; each block then
    starts at the later of the cursor and its own `startMinute`, and the
    cursor moves to its end.  The older scheduling code instead stacks the
    blocks from minute 0 and ignores `startMinute` (`Stack`). */
module EffectiveLayout {
  import opened Wrappers
  import opened Types
  import opened TimeBlockTable

  function Max(a: int, b: int): int {
    if a >= b then a else b
  }

  predicate NonNegativeDurations(bs: seq<TimeBlock>) {
    forall b :: b in bs ==> b.durationMinutes >= 0
  }

  /** The minutes the blocks ask for, one after another. */
  function Total(bs: seq<TimeBlock>): int {
    if bs == [] then 0 else bs[0].durationMinutes + Total(bs[1..])
  }

  // ─── Sorting by order ─────────────────────────────────────────────────────

  predicate SortedByOrder(s: seq<TimeBlock>) {
    forall i, j :: 0 <= i < j < |s| ==> s[i].order <= s[j].order
  }

  /** Puts `x` before the first element of `s` whose order is not smaller,
      so that `x` precedes the elements of equal order (stability). */
  function Insert(x: TimeBlock, s: seq<TimeBlock>): (r: seq<TimeBlock>)
    ensures |r| == |s| + 1
  {
    if s == [] || x.order <= s[0].order then [x] + s
    else [s[0]] + Insert(x, s[1..])
  }

  /** Inserting neither loses nor adds a block, nor changes the total
      duration. */
  lemma {:induction false} InsertPermutes(x: TimeBlock, s: seq<TimeBlock>)
    ensures multiset(Insert(x, s)) == multiset(s) + multiset{x}
    ensures Total(Insert(x, s)) == x.durationMinutes + Total(s)
  {
    if s != [] && x.order > s[0].order {
      assert s == [s[0]] + s[1..];
      InsertPermutes(x, s[1..]);
      assert Insert(x, s)[1..] == Insert(x, s[1..]);
    }
  }

  /** A bound below `x` and every element of `s` stays below every element
      of `Insert(x, s)`. */
  lemma {:induction false} InsertLowerBound(x: TimeBlock, s: seq<TimeBlock>, m: int)
    requires m <= x.order
    requires forall k :: 0 <= k < |s| ==> m <= s[k].order
    ensures forall k :: 0 <= k < |Insert(x, s)| ==> m <= Insert(x, s)[k].order
  {
    if s != [] && x.order > s[0].order {
      InsertLowerBound(x, s[1..], m);
      assert Insert(x, s) == [s[0]] + Insert(x, s[1..]);
    }
  }

  lemma ConsSorted(a: TimeBlock, r: seq<TimeBlock>)
    requires SortedByOrder(r)
    requires forall k :: 0 <= k < |r| ==> a.order <= r[k].order
    ensures SortedByOrder([a] + r)
  {
    var s := [a] + r;
    forall i, j | 0 <= i < j < |s| ensures s[i].order <= s[j].order {
      assert s[j] == r[j - 1];
      if i > 0 {
        assert s[i] == r[i - 1];
      }
    }
  }

  lemma {:induction false} InsertSorted(x: TimeBlock, s: seq<TimeBlock>)
    requires SortedByOrder(s)
    ensures SortedByOrder(Insert(x, s))
  {
    if s == [] || x.order <= s[0].order {
      ConsSorted(x, s);
    } else {
      var tail := s[1..];
      assert SortedByOrder(tail) by {
        forall i, j | 0 <= i < j < |tail| ensures tail[i].order <= tail[j].order {
          assert tail[i] == s[i + 1] && tail[j] == s[j + 1];
        }
      }
      assert forall k :: 0 <= k < |tail| ==> s[0].order <= tail[k].order by {
        forall k | 0 <= k < |tail| ensures s[0].order <= tail[k].order {
          assert tail[k] == s[k + 1];
        }
      }
      InsertSorted(x, tail);
      InsertLowerBound(x, tail, s[0].order);
      ConsSorted(s[0], Insert(x, tail));
    }
  }

  /** `[...blocks].sort((a, b) => a.order - b.order)`. */
  function SortByOrder(s: seq<TimeBlock>): (r: seq<TimeBlock>)
    ensures |r| == |s|
  {
    if s == [] then []
    else Insert(s[0], SortByOrder(s[1..]))
  }

  /** The blocks of `s` whose order is `o`, in their order in `s`. */
  function EqOrder(s: seq<TimeBlock>, o: int): seq<TimeBlock> {
    if s == [] then []
    else (if s[0].order == o then [s[0]] else []) + EqOrder(s[1..], o)
  }

  /** An inserted block goes in front of the blocks of its own order and
      moves no other block past one of equal order. */
  lemma {:induction false} InsertEq(x: TimeBlock, s: seq<TimeBlock>, o: int)
    ensures EqOrder(Insert(x, s), o) == (if x.order == o then [x] else []) + EqOrder(s, o)
  {
    if s != [] && x.order > s[0].order {
      InsertEq(x, s[1..], o);
      assert Insert(x, s)[1..] == Insert(x, s[1..]);
    }
  }

  /** The sort is stable: blocks of equal order keep their relative order. */
  lemma {:induction false} SortIsStable(s: seq<TimeBlock>, o: int)
    ensures EqOrder(SortByOrder(s), o) == EqOrder(s, o)
  {
    if s != [] {
      SortIsStable(s[1..], o);
      InsertEq(s[0], SortByOrder(s[1..]), o);
    }
  }

  /** Sorting keeps the total duration. */
  lemma {:induction false} SortKeepsTotal(s: seq<TimeBlock>)
    ensures Total(SortByOrder(s)) == Total(s)
  {
    if s != [] {
      SortKeepsTotal(s[1..]);
      InsertPermutes(s[0], SortByOrder(s[1..]));
    }
  }

  /** The sort returns a permutation of its input, ordered by `order`. */
  lemma {:induction false} SortIsSortedPermutation(s: seq<TimeBlock>)
    ensures multiset(SortByOrder(s)) == multiset(s)
    ensures SortedByOrder(SortByOrder(s))
  {
    if s != [] {
      assert s == [s[0]] + s[1..];
      SortIsSortedPermutation(s[1..]);
      InsertPermutes(s[0], SortByOrder(s[1..]));
      InsertSorted(s[0], SortByOrder(s[1..]));
    }
  }

  lemma SortKeepsMembers(s: seq<TimeBlock>)
    ensures forall b :: b in SortByOrder(s) <==> b in s
  {
    SortIsSortedPermutation(s);
    var r := SortByOrder(s);
    forall b ensures b in r <==> b in s {
      assert b in r <==> b in multiset(r);
      assert b in s <==> b in multiset(s);
    }
  }

  lemma {:induction false} InsertKeepsIds(x: TimeBlock, s: seq<TimeBlock>)
    requires UniqueBlockIds(s) && x.id !in BlockIds(s)
    ensures BlockIds(Insert(x, s)) == BlockIds(s) + {x.id}
    ensures UniqueBlockIds(Insert(x, s))
  {
    if s == [] || x.order <= s[0].order {
      assert Insert(x, s) == [x] + s;
      assert forall y :: y in [x] + s <==> y == x || y in s;
    } else {
      assert s == [s[0]] + s[1..];
      assert BlockIds(s) == {s[0].id} + BlockIds(s[1..]);
      InsertKeepsIds(x, s[1..]);
      var rest := Insert(x, s[1..]);
      assert Insert(x, s) == [s[0]] + rest;
      assert forall y :: y in [s[0]] + rest <==> y == s[0] || y in rest;
    }
  }

  /** Sorting neither loses nor duplicates a key. */
  lemma {:induction false} SortKeepsIds(s: seq<TimeBlock>)
    requires UniqueBlockIds(s)
    ensures BlockIds(SortByOrder(s)) == BlockIds(s)
    ensures UniqueBlockIds(SortByOrder(s))
  {
    if s != [] {
      assert s == [s[0]] + s[1..];
      assert BlockIds(s) == {s[0].id} + BlockIds(s[1..]);
      SortKeepsIds(s[1..]);
      InsertKeepsIds(s[0], SortByOrder(s[1..]));
    }
  }

  lemma {:induction false} InsertLast(x: TimeBlock, s: seq<TimeBlock>)
    requires forall b :: b in s ==> b.order < x.order
    ensures Insert(x, s) == s + [x]
  {
    if s != [] {
      InsertLast(x, s[1..]);
      assert s == [s[0]] + s[1..];
    }
  }

  lemma {:induction false} InsertBeforeLast(y: TimeBlock, s: seq<TimeBlock>, x: TimeBlock)
    requires y.order < x.order
    ensures Insert(y, s + [x]) == Insert(y, s) + [x]
  {
    if s == [] {
      assert Insert(y, [x]) == [y, x];
    } else if y.order <= s[0].order {
      assert (s + [x])[0] == s[0];
    } else {
      assert (s + [x])[1..] == s[1..] + [x];
      InsertBeforeLast(y, s[1..], x);
    }
  }

  /** A block whose order is larger than every order in the slot sorts
      last: appending it to the slot appends it to the sorted slot. */
  lemma {:induction false} SortAppendLast(s: seq<TimeBlock>, x: TimeBlock)
    requires forall b :: b in s ==> b.order < x.order
    ensures SortByOrder(s + [x]) == SortByOrder(s) + [x]
  {
    if s == [] {
      assert SortByOrder([x]) == Insert(x, []);
    } else {
      assert (s + [x])[0] == s[0] && (s + [x])[1..] == s[1..] + [x];
      SortAppendLast(s[1..], x);
      InsertBeforeLast(s[0], SortByOrder(s[1..]), x);
    }
  }

  lemma {:induction false} InsertShape(x: TimeBlock, s: seq<TimeBlock>, y: TimeBlock, t: seq<TimeBlock>)
    requires SameShape(x, y) && ShapeEq(s, t)
    ensures ShapeEq(Insert(x, s), Insert(y, t))
  {
    if s != [] && x.order > s[0].order {
      InsertShape(x, s[1..], y, t[1..]);
    }
  }

  /** Sorting depends on the shape of the blocks only. */
  lemma {:induction false} SortShape(s: seq<TimeBlock>, t: seq<TimeBlock>)
    requires ShapeEq(s, t)
    ensures ShapeEq(SortByOrder(s), SortByOrder(t))
  {
    if s != [] {
      SortShape(s[1..], t[1..]);
      InsertShape(s[0], SortByOrder(s[1..]), t[0], SortByOrder(t[1..]));
    }
  }

  // ─── The effective layout ─────────────────────────────────────────────────

  datatype Placement = Placement(block: TimeBlock, start: int, end: int)

  /** The cursor's starting value: the first block's hint when positive. */
  function FirstCursor(sorted: seq<TimeBlock>): int {
    if |sorted| > 0 && sorted[0].startMinute > 0 then sorted[0].startMinute else 0
  }

  /** The windows of already sorted blocks, starting from cursor `pos`. */
  function Place(bs: seq<TimeBlock>, pos: int): (r: seq<Placement>)
    ensures |r| == |bs|
  {
    if bs == [] then []
    else
      var start := Max(pos, bs[0].startMinute);
      var end := start + bs[0].durationMinutes;
      [Placement(bs[0], start, end)] + Place(bs[1..], end)
  }

  /** The cursor after the loop of `calculateEffectiveEnd`. */
  function EndAfter(bs: seq<TimeBlock>, pos: int): int {
    if bs == [] then pos
    else EndAfter(bs[1..], Max(pos, bs[0].startMinute) + bs[0].durationMinutes)
  }

  /** The effective windows of a slot's blocks, in order. */
  function Layout(blocks: seq<TimeBlock>): seq<Placement> {
    var sorted := SortByOrder(blocks);
    Place(sorted, FirstCursor(sorted))
  }

  /** `calculateEffectiveEnd`: how much of the hour the slot consumes. */
  function EffectiveEnd(blocks: seq<TimeBlock>): int {
    var sorted := SortByOrder(blocks);
    EndAfter(sorted, FirstCursor(sorted))
  }

  /** The layout, index by index: each window belongs to the block at the
      same position, lasts exactly that block's duration, starts no earlier
      than its hint and at the later of hint and previous end; the final
      cursor is the last window's end. */
  lemma {:induction false} PlaceFacts(bs: seq<TimeBlock>, pos: int)
    ensures |Place(bs, pos)| == |bs|
    ensures forall i :: 0 <= i < |bs| ==>
      var p := Place(bs, pos)[i];
      p.block == bs[i] && p.end == p.start + bs[i].durationMinutes && p.start >= bs[i].startMinute
    ensures |bs| > 0 ==> Place(bs, pos)[0].start == Max(pos, bs[0].startMinute)
    ensures forall i :: 0 < i < |bs| ==>
      Place(bs, pos)[i].start == Max(Place(bs, pos)[i - 1].end, bs[i].startMinute)
    ensures EndAfter(bs, pos) == if bs == [] then pos else Place(bs, pos)[|bs| - 1].end
  {
    if bs != [] {
      var start := Max(pos, bs[0].startMinute);
      var end := start + bs[0].durationMinutes;
      PlaceFacts(bs[1..], end);
      var rest := Place(bs[1..], end);
      assert Place(bs, pos) == [Placement(bs[0], start, end)] + rest;
      assert forall i :: 0 < i < |bs| ==> Place(bs, pos)[i] == rest[i - 1];
    }
  }

  lemma {:induction false} EndBeforeStart(bs: seq<TimeBlock>, pos: int, i: int, j: int)
    requires NonNegativeDurations(bs)
    requires 0 <= i < j < |bs|
    ensures Place(bs, pos)[i].end <= Place(bs, pos)[j].start
  {
    PlaceFacts(bs, pos);
    if j > i + 1 {
      EndBeforeStart(bs, pos, i, j - 1);
      assert bs[j - 1] in bs;
    }
  }

  /** No two windows of a slot overlap, whatever the hints: a window ends
      before any later window starts. */
  lemma NoOverlap(bs: seq<TimeBlock>, pos: int)
    requires NonNegativeDurations(bs)
    ensures forall i, j :: 0 <= i < j < |Place(bs, pos)| ==> Place(bs, pos)[i].end <= Place(bs, pos)[j].start
  {
    PlaceFacts(bs, pos);
    forall i, j | 0 <= i < j < |Place(bs, pos)|
      ensures Place(bs, pos)[i].end <= Place(bs, pos)[j].start
    {
      EndBeforeStart(bs, pos, i, j);
    }
  }

  /** The final cursor is at least the starting cursor plus every duration. */
  lemma {:induction false} EndAfterCoversTotal(bs: seq<TimeBlock>, pos: int)
    ensures EndAfter(bs, pos) >= pos + Total(bs)
  {
    if bs != [] {
      EndAfterCoversTotal(bs[1..], Max(pos, bs[0].startMinute) + bs[0].durationMinutes);
    }
  }

  /** With non-negative durations the final cursor is at or after every
      block's hinted end. */
  lemma {:induction false} EndAfterCoversHints(bs: seq<TimeBlock>, pos: int)
    requires NonNegativeDurations(bs)
    ensures EndAfter(bs, pos) >= pos
    ensures forall b :: b in bs ==> EndAfter(bs, pos) >= b.startMinute + b.durationMinutes
  {
    if bs != [] {
      var next := Max(pos, bs[0].startMinute) + bs[0].durationMinutes;
      assert forall b :: b in bs[1..] ==> b in bs;
      EndAfterCoversHints(bs[1..], next);
      assert forall b :: b in bs ==> b == bs[0] || b in bs[1..];
    }
  }

  /** `calculateEffectiveEnd` of an empty slot is 0; otherwise it covers
      every block's hinted end and the sum of all durations. */
  lemma EffectiveEndBounds(blocks: seq<TimeBlock>)
    requires NonNegativeDurations(blocks)
    ensures blocks == [] ==> EffectiveEnd(blocks) == 0
    ensures EffectiveEnd(blocks) >= Total(blocks)
    ensures EffectiveEnd(blocks) >= 0
    ensures forall b :: b in blocks ==> EffectiveEnd(blocks) >= b.startMinute + b.durationMinutes
  {
    var sorted := SortByOrder(blocks);
    SortKeepsMembers(blocks);
    SortKeepsTotal(blocks);
    EndAfterCoversTotal(sorted, FirstCursor(sorted));
    EndAfterCoversHints(sorted, FirstCursor(sorted));
  }

  /** The effective end is never negative, and is 0 for an empty slot. */
  lemma EndNonNegative(blocks: seq<TimeBlock>)
    requires NonNegativeDurations(blocks)
    ensures EffectiveEnd(blocks) >= 0
    ensures blocks == [] ==> EffectiveEnd(blocks) == 0
  {
    EffectiveEndBounds(blocks);
  }

  /** The effective end is not before the total duration. */
  lemma EndCoversTotal(blocks: seq<TimeBlock>)
    requires NonNegativeDurations(blocks)
    ensures EffectiveEnd(blocks) >= Total(blocks)
  {
    EffectiveEndBounds(blocks);
  }

  /** The effective end is not before any block's hint plus its duration. */
  lemma EndCoversBlock(blocks: seq<TimeBlock>, b: TimeBlock)
    requires NonNegativeDurations(blocks) && b in blocks
    ensures EffectiveEnd(blocks) >= b.startMinute + b.durationMinutes
  {
    EffectiveEndBounds(blocks);
  }

  /** The first block's hint is honoured by `Max` anyway, so starting the
      cursor at it or at 0 gives the same windows. */
  lemma FirstCursorIsRedundant(sorted: seq<TimeBlock>)
    ensures Place(sorted, FirstCursor(sorted)) == Place(sorted, 0)
    ensures EndAfter(sorted, FirstCursor(sorted)) == EndAfter(sorted, 0)
  {
  }

  /** Appending a block past the last window: it starts at the later of
      the old end and its hint. */
  lemma {:induction false} EndAfterAppend(bs: seq<TimeBlock>, pos: int, x: TimeBlock)
    ensures EndAfter(bs + [x], pos) == Max(EndAfter(bs, pos), x.startMinute) + x.durationMinutes
  {
    if bs == [] {
      assert [] + [x] == [x];
    } else {
      assert (bs + [x])[0] == bs[0] && (bs + [x])[1..] == bs[1..] + [x];
      EndAfterAppend(bs[1..], Max(pos, bs[0].startMinute) + bs[0].durationMinutes, x);
    }
  }

  /** Effective end after a block that sorts last joins the slot. */
  lemma EffectiveEndAppend(blocks: seq<TimeBlock>, x: TimeBlock)
    requires forall b :: b in blocks ==> b.order < x.order
    ensures EffectiveEnd(blocks + [x]) == Max(EffectiveEnd(blocks), x.startMinute) + x.durationMinutes
  {
    SortAppendLast(blocks, x);
    var sorted := SortByOrder(blocks);
    FirstCursorIsRedundant(sorted);
    FirstCursorIsRedundant(sorted + [x]);
    EndAfterAppend(sorted, 0, x);
  }

  lemma {:induction false} PlaceShape(s: seq<TimeBlock>, t: seq<TimeBlock>, pos: int)
    requires ShapeEq(s, t)
    ensures |Place(s, pos)| == |Place(t, pos)|
    ensures forall i :: 0 <= i < |Place(s, pos)| ==>
      Place(s, pos)[i].start == Place(t, pos)[i].start && Place(s, pos)[i].end == Place(t, pos)[i].end &&
      SameShape(Place(s, pos)[i].block, Place(t, pos)[i].block)
    ensures EndAfter(s, pos) == EndAfter(t, pos)
  {
    if s != [] {
      var start := Max(pos, s[0].startMinute);
      var next := start + s[0].durationMinutes;
      assert SameShape(s[0], t[0]);
      assert ShapeEq(s[1..], t[1..]) by {
        forall i | 0 <= i < |s| - 1 ensures SameShape(s[1..][i], t[1..][i]) {
          assert s[1..][i] == s[i + 1] && t[1..][i] == t[i + 1];
        }
      }
      PlaceShape(s[1..], t[1..], next);
      var ps, pt := Place(s, pos), Place(t, pos);
      var rs, rt := Place(s[1..], next), Place(t[1..], next);
      assert ps == [Placement(s[0], start, next)] + rs;
      assert pt == [Placement(t[0], start, next)] + rt;
      forall i | 0 <= i < |ps|
        ensures ps[i].start == pt[i].start && ps[i].end == pt[i].end && SameShape(ps[i].block, pt[i].block)
      {
        if i > 0 {
          assert ps[i] == rs[i - 1] && pt[i] == rt[i - 1];
        }
      }
    }
  }

  // ─── Looking a block up in a layout ───────────────────────────────────────

  /** The first window whose block has key `id`. */
  function FindPlacement(ps: seq<Placement>, id: string): Option<Placement> {
    if ps == [] then None
    else if ps[0].block.id == id then Some(ps[0])
    else FindPlacement(ps[1..], id)
  }

  /** In a slot with distinct keys, looking up the block at position `j`
      finds exactly its own window. */
  lemma {:induction false} FindPlacementAt(bs: seq<TimeBlock>, pos: int, j: int)
    requires UniqueBlockIds(bs) && 0 <= j < |bs|
    ensures FindPlacement(Place(bs, pos), bs[j].id) == Some(Place(bs, pos)[j])
  {
    PlaceFacts(bs, pos);
    if j > 0 {
      var end := Max(pos, bs[0].startMinute) + bs[0].durationMinutes;
      FindPlacementAt(bs[1..], end, j - 1);
      assert Place(bs, pos)[j] == Place(bs[1..], end)[j - 1];
    }
  }

  /** A lookup fails exactly when no block of the slot has that key. */
  lemma {:induction false} FindPlacementMissing(bs: seq<TimeBlock>, pos: int, id: string)
    ensures FindPlacement(Place(bs, pos), id).None? <==> id !in BlockIds(bs)
  {
    if bs != [] {
      var end := Max(pos, bs[0].startMinute) + bs[0].durationMinutes;
      FindPlacementMissing(bs[1..], end, id);
      assert bs == [bs[0]] + bs[1..];
      assert BlockIds(bs) == {bs[0].id} + BlockIds(bs[1..]);
    }
  }

  /** A found window is one of the layout's windows. */
  lemma {:induction false} FindPlacementIn(ps: seq<Placement>, id: string)
    ensures FindPlacement(ps, id).Some? ==>
      FindPlacement(ps, id).value in ps && FindPlacement(ps, id).value.block.id == id
  {
    if ps != [] {
      FindPlacementIn(ps[1..], id);
    }
  }

  /** A window found in a slot's layout belongs to a block of the slot with
      that key, lasts its duration and opens no earlier than its hint. */
  lemma LayoutFound(blocks: seq<TimeBlock>, id: string)
    ensures var p := FindPlacement(Layout(blocks), id);
      p.Some? ==>
        p.value.block in blocks && p.value.block.id == id &&
        p.value.end == p.value.start + p.value.block.durationMinutes &&
        p.value.start >= p.value.block.startMinute
  {
    var sorted := SortByOrder(blocks);
    var ps := Place(sorted, FirstCursor(sorted));
    FindPlacementIn(ps, id);
    PlaceFacts(sorted, FirstCursor(sorted));
    SortKeepsMembers(blocks);
    if FindPlacement(ps, id).Some? {
      var i :| 0 <= i < |ps| && ps[i] == FindPlacement(ps, id).value;
      assert ps[i].block == sorted[i];
    }
  }

  /** Lookups in layouts of same-shaped slots agree on the window. */
  lemma {:induction false} FindPlacementShape(s: seq<TimeBlock>, t: seq<TimeBlock>, pos: int, id: string)
    requires ShapeEq(s, t)
    ensures FindPlacement(Place(s, pos), id).Some? == FindPlacement(Place(t, pos), id).Some?
    ensures FindPlacement(Place(s, pos), id).Some? ==>
      FindPlacement(Place(s, pos), id).value.start == FindPlacement(Place(t, pos), id).value.start &&
      FindPlacement(Place(s, pos), id).value.end == FindPlacement(Place(t, pos), id).value.end
  {
    if s != [] {
      var end := Max(pos, s[0].startMinute) + s[0].durationMinutes;
      FindPlacementShape(s[1..], t[1..], end, id);
    }
  }

  /** Slots that differ only in fields the layout ignores give the same
      window to every key. */
  lemma LayoutShape(s: seq<TimeBlock>, t: seq<TimeBlock>, id: string)
    requires ShapeEq(s, t)
    ensures FindPlacement(Layout(s), id).Some? == FindPlacement(Layout(t), id).Some?
    ensures FindPlacement(Layout(s), id).Some? ==>
      FindPlacement(Layout(s), id).value.start == FindPlacement(Layout(t), id).value.start &&
      FindPlacement(Layout(s), id).value.end == FindPlacement(Layout(t), id).value.end
  {
    var sorted, sorted' := SortByOrder(s), SortByOrder(t);
    SortShape(s, t);
    var pos := FirstCursor(sorted);
    assert pos == FirstCursor(sorted') by {
      if |sorted| > 0 {
        assert SameShape(sorted[0], sorted'[0]);
      }
    }
    FindPlacementShape(sorted, sorted', pos, id);
  }

  // ─── Stacking from minute 0 (the older code) ──────────────────────────────

  /** Windows that ignore hints: each block starts where the previous one
      ended, the first at `offset`. */
  function Stack(bs: seq<TimeBlock>, offset: int): (r: seq<Placement>)
    ensures |r| == |bs|
  {
    if bs == [] then []
    else [Placement(bs[0], offset, offset + bs[0].durationMinutes)] + Stack(bs[1..], offset + bs[0].durationMinutes)
  }

  lemma {:induction false} StackFacts(bs: seq<TimeBlock>, offset: int)
    ensures |Stack(bs, offset)| == |bs|
    ensures forall i :: 0 <= i < |bs| ==>
      var p := Stack(bs, offset)[i];
      p.block == bs[i] && p.start == offset + Total(bs[..i]) && p.end == p.start + bs[i].durationMinutes
  {
    if bs != [] {
      var next := offset + bs[0].durationMinutes;
      StackFacts(bs[1..], next);
      forall i | 0 < i < |bs|
        ensures Stack(bs, offset)[i].start == offset + Total(bs[..i])
      {
        assert Stack(bs, offset)[i] == Stack(bs[1..], next)[i - 1];
        assert bs[..i][1..] == bs[1..][..i - 1];
      }
    }
  }

  /** Honouring hints never moves a window earlier than plain stacking from
      an offset at or before the cursor. */
  lemma {:induction false} PlaceNotBeforeStack(bs: seq<TimeBlock>, pos: int, offset: int)
    requires offset <= pos
    ensures |Place(bs, pos)| == |Stack(bs, offset)| == |bs|
    ensures forall i :: 0 <= i < |bs| ==>
      Place(bs, pos)[i].start >= Stack(bs, offset)[i].start && Place(bs, pos)[i].end >= Stack(bs, offset)[i].end
  {
    PlaceFacts(bs, pos);
    StackFacts(bs, offset);
    if bs != [] {
      var pend := Max(pos, bs[0].startMinute) + bs[0].durationMinutes;
      var send := offset + bs[0].durationMinutes;
      PlaceNotBeforeStack(bs[1..], pend, send);
      assert forall i :: 0 < i < |bs| ==> Place(bs, pos)[i] == Place(bs[1..], pend)[i - 1];
      assert forall i :: 0 < i < |bs| ==> Stack(bs, offset)[i] == Stack(bs[1..], send)[i - 1];
    }
  }

  lemma {:induction false} FindInStackShape(s: seq<TimeBlock>, t: seq<TimeBlock>, offset: int, id: string)
    requires ShapeEq(s, t)
    ensures FindPlacement(Stack(s, offset), id).Some? == FindPlacement(Stack(t, offset), id).Some?
    ensures FindPlacement(Stack(s, offset), id).Some? ==>
      FindPlacement(Stack(s, offset), id).value.end == FindPlacement(Stack(t, offset), id).value.end
  {
    if s != [] {
      FindInStackShape(s[1..], t[1..], offset + s[0].durationMinutes, id);
    }
  }

  lemma {:induction false} FindInStackAt(bs: seq<TimeBlock>, offset: int, j: int)
    requires UniqueBlockIds(bs) && 0 <= j < |bs|
    ensures FindPlacement(Stack(bs, offset), bs[j].id) == Some(Stack(bs, offset)[j])
  {
    StackFacts(bs, offset);
    if j > 0 {
      var next := offset + bs[0].durationMinutes;
      FindInStackAt(bs[1..], next, j - 1);
      assert Stack(bs, offset)[j] == Stack(bs[1..], next)[j - 1];
    }
  }
}
