/** The page, column and card operations of the local store.  Each
    operation runs against the tables of one `Database`; a record keyed by
    an id that is absent is left alone, as an update of a missing key
    changes nothing. */
module DbHelpers {
  import opened Wrappers
  import opened Types
  import opened Db
  import opened FocusHelpers

  datatype StoreError = PageNotFound(pageId: string)

  // ─── Pages ────────────────────────────────────────────────────────────────

  const ToDoTitle := "To Do"
  const InProgressTitle := "In Progress"
  const DoneTitle := "Done"

  /** The record `createPage` adds: no content, no icon, and for a board
      the three standard columns in order. */
  function NewPage(id: string, title: string, parentId: Option<string>, pageType: PageType,
                   columnIds: (string, string, string), now: int): (p: Page)
    ensures p.id == id && p.title == title && p.parentId == parentId && p.pageType == pageType
    ensures p.content == [] && p.icon == None && p.doneColumnId == None
    ensures pageType == Document ==> p.columns == []
    ensures pageType == Kanban ==>
      (|p.columns| == 3 &&
       p.columns[0].title == ToDoTitle && p.columns[0].order == 0 &&
       p.columns[1].title == InProgressTitle && p.columns[1].order == 1 &&
       p.columns[2].title == DoneTitle && p.columns[2].order == 2)
  {
    Page(id, title, parentId, [], None, pageType,
         if pageType == Kanban then
           [KanbanColumn(columnIds.0, ToDoTitle, 0), KanbanColumn(columnIds.1, InProgressTitle, 1),
            KanbanColumn(columnIds.2, DoneTitle, 2)]
         else [],
         None, now, now)
  }

  method CreatePage(db: Database, title: string, parentId: Option<string>, pageType: PageType,
                    id: string, columnIds: (string, string, string), clock: Clock)
    returns (page: Page)
    modifies db`pages
    ensures page == NewPage(id, title, parentId, pageType, columnIds, clock.nowMs)
    ensures db.pages == old(db.pages) + [page]
  {
    page := NewPage(id, title, parentId, pageType, columnIds, clock.nowMs);
    db.pages := db.pages + [page];
  }

  /** On a fresh board, new cards go to "To Do" and "Done" counts as done. */
  lemma NewBoardColumns(id: string, title: string, parentId: Option<string>, columnIds: (string, string, string), now: int)
    ensures var p := NewPage(id, title, parentId, Kanban, columnIds, now);
      FirstColumn(p) == Some(ColumnRef(columnIds.0, ToDoTitle)) && DoneColumnId(p) == Some(columnIds.2)
  {
    var p := NewPage(id, title, parentId, Kanban, columnIds, now);
    assert FirstMinIndex(p.columns[1..]) == 0;
    assert FirstMaxIndex(p.columns[2..]) == 0;
    assert FirstMaxIndex(p.columns[1..]) == 1;
  }

  /** `db.pages.get(id)`. */
  function FindPage(pages: seq<Page>, id: string): (r: Option<Page>)
    ensures r.Some? ==> r.value in pages && r.value.id == id
    ensures r.None? <==> forall p :: p in pages ==> p.id != id
  {
    if pages == [] then None
    else if pages[0].id == id then Some(pages[0])
    else FindPage(pages[1..], id)
  }

  /** `db.pages.update(id, { columns, updatedAt })`. */
  function SetColumns(pages: seq<Page>, id: string, columns: seq<KanbanColumn>, now: int): (r: seq<Page>)
    ensures |r| == |pages|
    ensures forall k :: 0 <= k < |pages| ==>
      r[k] == if pages[k].id == id then pages[k].(columns := columns, updatedAt := now) else pages[k]
  {
    seq(|pages|, k requires 0 <= k < |pages| =>
      if pages[k].id == id then pages[k].(columns := columns, updatedAt := now) else pages[k])
  }

  /** Read after write: the page under the key reads back with the new
      columns and stamp and is otherwise unchanged; every other key reads
      as before, and a missing key stays missing. */
  lemma {:induction false} SetColumnsLookup(pages: seq<Page>, id: string, columns: seq<KanbanColumn>, now: int)
    ensures var r := SetColumns(pages, id, columns, now);
      (FindPage(r, id).Some? <==> FindPage(pages, id).Some?) &&
      (FindPage(pages, id).Some? ==>
        FindPage(r, id) == Some(FindPage(pages, id).value.(columns := columns, updatedAt := now))) &&
      forall other :: other != id ==> FindPage(r, other) == FindPage(pages, other)
  {
    if pages != [] {
      var r, rest := SetColumns(pages, id, columns, now), SetColumns(pages[1..], id, columns, now);
      SetColumnsLookup(pages[1..], id, columns, now);
      assert r[1..] == rest;
      if pages[0].id == id {
        assert FindPage(r, id) == Some(pages[0].(columns := columns, updatedAt := now));
      } else {
        assert r[0] == pages[0];
        assert FindPage(r, id) == FindPage(rest, id);
      }
      forall other | other != id ensures FindPage(r, other) == FindPage(pages, other) {
        if pages[0].id != other {
          assert FindPage(r, other) == FindPage(rest, other);
        }
      }
    }
  }

  // ─── Columns ──────────────────────────────────────────────────────────────

  /** `columns.reduce((max, col) => Math.max(max, col.order), -1)`. */
  function MaxColumnOrder(cols: seq<KanbanColumn>): (m: int)
    ensures m >= -1
    ensures forall c :: c in cols ==> c.order <= m
    ensures m == -1 || exists c :: c in cols && c.order == m
  {
    if cols == [] then -1
    else
      var rest := MaxColumnOrder(cols[..|cols| - 1]);
      var last := cols[|cols| - 1];
      assert forall c :: c in cols <==> c in cols[..|cols| - 1] || c == last;
      if rest >= last.order then rest else last.order
  }

  method AddColumn(db: Database, pageId: string, title: string, columnId: string, clock: Clock)
    returns (r: Result<KanbanColumn, StoreError>)
    modifies db`pages
    ensures FindPage(old(db.pages), pageId).None? <==> r.Err?
    ensures r.Err? ==> r.error == PageNotFound(pageId) && db.pages == old(db.pages)
    ensures r.Ok? ==>
      var page := FindPage(old(db.pages), pageId).value;
      r.value == KanbanColumn(columnId, title, MaxColumnOrder(page.columns) + 1) &&
      db.pages == SetColumns(old(db.pages), pageId, page.columns + [r.value], clock.nowMs)
  {
    var found := FindPage(db.pages, pageId);
    if found.None? {
      return Err(PageNotFound(pageId));
    }
    var page := found.value;
    var maxOrder := MaxColumnOrder(page.columns);
    var column := KanbanColumn(columnId, title, maxOrder + 1);
    db.pages := SetColumns(db.pages, pageId, page.columns + [column], clock.nowMs);
    r := Ok(column);
  }

  /** A new column keeps the existing ones as they were and ranks after all
      of them. */
  lemma AddedColumnRanksLast(cols: seq<KanbanColumn>, columnId: string, title: string)
    ensures var added := cols + [KanbanColumn(columnId, title, MaxColumnOrder(cols) + 1)];
      added[..|cols|] == cols && forall c :: c in cols ==> c.order < added[|cols|].order
  {
  }

  datatype ColumnChanges = ColumnChanges(title: Option<string>, order: Option<int>)

  function EditColumns(cols: seq<KanbanColumn>, columnId: string, changes: ColumnChanges): (r: seq<KanbanColumn>)
    ensures |r| == |cols|
    ensures forall k :: 0 <= k < |cols| ==>
      r[k] == if cols[k].id == columnId
              then cols[k].(title := changes.title.GetOr(cols[k].title), order := changes.order.GetOr(cols[k].order))
              else cols[k]
  {
    seq(|cols|, k requires 0 <= k < |cols| =>
      if cols[k].id == columnId
      then cols[k].(title := changes.title.GetOr(cols[k].title), order := changes.order.GetOr(cols[k].order))
      else cols[k])
  }

  method UpdateColumn(db: Database, pageId: string, columnId: string, changes: ColumnChanges, clock: Clock)
    returns (r: Result<(), StoreError>)
    modifies db`pages
    ensures FindPage(old(db.pages), pageId).None? <==> r.Err?
    ensures r.Err? ==> r.error == PageNotFound(pageId) && db.pages == old(db.pages)
    ensures r.Ok? ==>
      db.pages == SetColumns(old(db.pages), pageId,
                             EditColumns(FindPage(old(db.pages), pageId).value.columns, columnId, changes), clock.nowMs)
  {
    var found := FindPage(db.pages, pageId);
    if found.None? {
      return Err(PageNotFound(pageId));
    }
    db.pages := SetColumns(db.pages, pageId, EditColumns(found.value.columns, columnId, changes), clock.nowMs);
    r := Ok(());
  }

  /** Editing a column keeps the board's column ids and their positions;
      every other column stays as it was, the edited one takes each given
      field and keeps each omitted one, and with no changes given the
      columns stay exactly as they were. */
  lemma EditColumnsTouchesOnlyItsColumn(cols: seq<KanbanColumn>, columnId: string, changes: ColumnChanges)
    ensures forall k :: 0 <= k < |cols| ==> EditColumns(cols, columnId, changes)[k].id == cols[k].id
    ensures forall k :: 0 <= k < |cols| && cols[k].id != columnId ==> EditColumns(cols, columnId, changes)[k] == cols[k]
    ensures forall k :: 0 <= k < |cols| && cols[k].id == columnId ==>
      var c := EditColumns(cols, columnId, changes)[k];
      (changes.title.Some? ==> c.title == changes.title.value) &&
      (changes.title.None? ==> c.title == cols[k].title) &&
      (changes.order.Some? ==> c.order == changes.order.value) &&
      (changes.order.None? ==> c.order == cols[k].order)
    ensures changes == ColumnChanges(None, None) ==> EditColumns(cols, columnId, changes) == cols
  {
  }

  function WithoutColumn(cols: seq<KanbanColumn>, columnId: string): (r: seq<KanbanColumn>)
    ensures forall c :: c in r <==> c in cols && c.id != columnId
    ensures |r| <= |cols|
  {
    if cols == [] then []
    else (if cols[0].id != columnId then [cols[0]] else []) + WithoutColumn(cols[1..], columnId)
  }

  function WithoutColumnCards(cards: seq<KanbanCard>, pageId: string, columnId: string): (r: seq<KanbanCard>)
    ensures forall c :: c in r <==> c in cards && !(c.pageId == pageId && c.columnId == columnId)
    ensures |r| <= |cards|
  {
    if cards == [] then []
    else (if !(cards[0].pageId == pageId && cards[0].columnId == columnId) then [cards[0]] else [])
         + WithoutColumnCards(cards[1..], pageId, columnId)
  }

  method DeleteColumn(db: Database, pageId: string, columnId: string, clock: Clock)
    returns (r: Result<(), StoreError>)
    modifies db`pages, db`kanbanCards
    ensures FindPage(old(db.pages), pageId).None? <==> r.Err?
    ensures r.Err? ==> r.error == PageNotFound(pageId) && db.pages == old(db.pages) && db.kanbanCards == old(db.kanbanCards)
    ensures r.Ok? ==>
      db.kanbanCards == WithoutColumnCards(old(db.kanbanCards), pageId, columnId) &&
      db.pages == SetColumns(old(db.pages), pageId,
                             WithoutColumn(FindPage(old(db.pages), pageId).value.columns, columnId), clock.nowMs)
  {
    var found := FindPage(db.pages, pageId);
    if found.None? {
      return Err(PageNotFound(pageId));
    }
    db.kanbanCards := WithoutColumnCards(db.kanbanCards, pageId, columnId);
    db.pages := SetColumns(db.pages, pageId, WithoutColumn(found.value.columns, columnId), clock.nowMs);
    r := Ok(());
  }

  // ─── Cards ────────────────────────────────────────────────────────────────

  /** `reduce((max, card) => Math.max(max, card.order), -1)` over the
      cards of one column of one board. */
  function MaxCardOrder(cards: seq<KanbanCard>, pageId: string, columnId: string): (m: int)
    ensures m >= -1
    ensures forall c :: c in cards && c.pageId == pageId && c.columnId == columnId ==> c.order <= m
    ensures m == -1 || exists c :: c in cards && c.pageId == pageId && c.columnId == columnId && c.order == m
  {
    if cards == [] then -1
    else
      var rest := MaxCardOrder(cards[..|cards| - 1], pageId, columnId);
      var last := cards[|cards| - 1];
      assert forall c :: c in cards <==> c in cards[..|cards| - 1] || c == last;
      if last.pageId == pageId && last.columnId == columnId && last.order > rest then last.order else rest
  }

  /** The card `createCard` builds, as written: it sets no `parentId`. */
  function NewCardAsWritten(cards: seq<KanbanCard>, id: string, pageId: string, columnId: string, title: string,
                            now: int): KanbanCard
  {
    KanbanCard(id, pageId, columnId, title, "", MaxCardOrder(cards, pageId, columnId) + 1, Missing, now, now)
  }

  /** The card `createCard` evidently means to build: a top-level card, as
      the upgrade of the card table makes every older card. */
  function NewCard(cards: seq<KanbanCard>, id: string, pageId: string, columnId: string, title: string,
                   now: int): (c: KanbanCard)
    ensures c.parentId == TopLevel && c.description == "" && c.id == id
    ensures c.pageId == pageId && c.columnId == columnId && c.title == title
    ensures forall d :: d in cards && d.pageId == pageId && d.columnId == columnId ==> d.order < c.order
    ensures (forall d :: d in cards ==> !(d.pageId == pageId && d.columnId == columnId)) ==> c.order == 0
  {
    NewCardAsWritten(cards, id, pageId, columnId, title, now).(parentId := TopLevel)
  }

  method CreateCardAsWritten(db: Database, pageId: string, columnId: string, title: string, id: string, clock: Clock)
    returns (card: KanbanCard)
    modifies db`kanbanCards
    ensures card == NewCardAsWritten(old(db.kanbanCards), id, pageId, columnId, title, clock.nowMs)
    ensures db.kanbanCards == old(db.kanbanCards) + [card]
  {
    card := NewCardAsWritten(db.kanbanCards, id, pageId, columnId, title, clock.nowMs);
    db.kanbanCards := db.kanbanCards + [card];
  }

  method CreateCard(db: Database, pageId: string, columnId: string, title: string, id: string, clock: Clock)
    returns (card: KanbanCard)
    modifies db`kanbanCards
    ensures card == NewCard(old(db.kanbanCards), id, pageId, columnId, title, clock.nowMs)
    ensures db.kanbanCards == old(db.kanbanCards) + [card]
  {
    card := NewCard(db.kanbanCards, id, pageId, columnId, title, clock.nowMs);
    db.kanbanCards := db.kanbanCards + [card];
  }

  /** As written, a card created on a board can never be picked for focus
      scheduling, whatever board and column it is put in. */
  lemma CreatedCardNeverEligible(pages: seq<Page>, cards: seq<KanbanCard>, id: string, pageId: string,
                                 columnId: string, title: string, now: int)
    ensures var card := NewCardAsWritten(cards, id, pageId, columnId, title, now);
      forall e :: e in EligibleCards(pages, cards + [card]) ==> e.card != card
  {
  }

  /** Created top-level, it is eligible on a board whenever its column is
      not the board's done column. */
  lemma CreatedCardEligible(pages: seq<Page>, cards: seq<KanbanCard>, page: Page, id: string,
                            columnId: string, title: string, now: int)
    requires page in pages && page.pageType == Kanban && !(DoneColumnId(page) == Some(columnId))
    ensures var card := NewCard(cards, id, page.id, columnId, title, now);
      Entry(page, card) in EligibleCards(pages, cards + [card])
  {
    var card := NewCard(cards, id, page.id, columnId, title, now);
    assert card in cards + [card];
    assert OpenTopLevel(card, page);
  }

  datatype CardChanges = CardChanges(title: Option<string>, description: Option<string>)

  /** `db.kanbanCards.update(id, ...)` with the given edit. */
  function EditCard(c: KanbanCard, changes: CardChanges, now: int): KanbanCard {
    c.(title := changes.title.GetOr(c.title), description := changes.description.GetOr(c.description), updatedAt := now)
  }

  function MoveTo(c: KanbanCard, columnId: string, order: int, now: int): KanbanCard {
    c.(columnId := columnId, order := order, updatedAt := now)
  }

  function UpdateCards(cards: seq<KanbanCard>, id: string, edit: KanbanCard -> KanbanCard): (r: seq<KanbanCard>)
    ensures |r| == |cards|
    ensures forall k :: 0 <= k < |cards| ==> r[k] == if cards[k].id == id then edit(cards[k]) else cards[k]
  {
    seq(|cards|, k requires 0 <= k < |cards| => if cards[k].id == id then edit(cards[k]) else cards[k])
  }

  method UpdateCard(db: Database, id: string, changes: CardChanges, clock: Clock)
    modifies db`kanbanCards
    ensures db.kanbanCards == UpdateCards(old(db.kanbanCards), id, c => EditCard(c, changes, clock.nowMs))
  {
    db.kanbanCards := UpdateCards(db.kanbanCards, id, c => EditCard(c, changes, clock.nowMs));
  }

  method MoveCard(db: Database, id: string, targetColumnId: string, newOrder: int, clock: Clock)
    modifies db`kanbanCards
    ensures db.kanbanCards == UpdateCards(old(db.kanbanCards), id, c => MoveTo(c, targetColumnId, newOrder, clock.nowMs))
  {
    db.kanbanCards := UpdateCards(db.kanbanCards, id, c => MoveTo(c, targetColumnId, newOrder, clock.nowMs));
  }

  /** A move changes the card's column and order and stamps it; its board,
      title, description and parent stay, and every other card is as it
      was.  An edit stores each given text field and the stamp, and changes
      nothing else. */
  lemma CardUpdatesTouchOnlyTheirFields(cards: seq<KanbanCard>, id: string, targetColumnId: string, newOrder: int,
                                        changes: CardChanges, now: int, k: int)
    requires 0 <= k < |cards|
    ensures var moved := UpdateCards(cards, id, c => MoveTo(c, targetColumnId, newOrder, now));
      (cards[k].id != id ==> moved[k] == cards[k]) &&
      (cards[k].id == id ==>
        moved[k] == cards[k].(columnId := targetColumnId, order := newOrder, updatedAt := now))
    ensures var edited := UpdateCards(cards, id, c => EditCard(c, changes, now));
      (cards[k].id != id ==> edited[k] == cards[k]) &&
      (cards[k].id == id ==>
        edited[k].columnId == cards[k].columnId && edited[k].order == cards[k].order &&
        edited[k].pageId == cards[k].pageId && edited[k].parentId == cards[k].parentId &&
        edited[k].id == cards[k].id && edited[k].createdAt == cards[k].createdAt &&
        edited[k].updatedAt == now &&
        (changes.title.Some? ==> edited[k].title == changes.title.value) &&
        (changes.title.None? ==> edited[k].title == cards[k].title) &&
        (changes.description.Some? ==> edited[k].description == changes.description.value) &&
        (changes.description.None? ==> edited[k].description == cards[k].description))
  {
  }

  function WithoutCard(cards: seq<KanbanCard>, id: string): (r: seq<KanbanCard>)
    ensures forall c :: c in r <==> c in cards && c.id != id
  {
    if cards == [] then []
    else (if cards[0].id != id then [cards[0]] else []) + WithoutCard(cards[1..], id)
  }

  method DeleteCard(db: Database, id: string)
    modifies db`kanbanCards
    ensures db.kanbanCards == WithoutCard(old(db.kanbanCards), id)
  {
    db.kanbanCards := WithoutCard(db.kanbanCards, id);
  }

  // ─── Deleting a page subtree ──────────────────────────────────────────────

  /** Page `child` is a child of page id `parent`. */
  predicate ChildOf(pages: seq<Page>, child: string, parent: string) {
    exists p :: p in pages && p.id == child && p.parentId == Some(parent)
  }

  /** `c` is a path down the page tree, each id a child of the one before. */
  predicate IsPath(pages: seq<Page>, c: seq<string>) {
    forall i :: 0 <= i < |c| - 1 ==> ChildOf(pages, c[i + 1], c[i])
  }

  /** `x` is `root` or lies below it. */
  ghost predicate Descends(pages: seq<Page>, x: string, root: string) {
    exists c :: IsPath(pages, c) && |c| > 0 && c[0] == root && c[|c| - 1] == x
  }

  predicate NoDuplicates(s: seq<string>) {
    forall i, j :: 0 <= i < j < |s| ==> s[i] != s[j]
  }

  function AllPageIds(pages: seq<Page>): (r: set<string>)
    ensures forall p :: p in pages ==> p.id in r
    ensures |r| <= |pages|
  {
    if pages == [] then {}
    else
      assert forall p :: p in pages ==> p == pages[0] || p in pages[1..];
      {pages[0].id} + AllPageIds(pages[1..])
  }

  lemma {:induction false} DistinctFitsIn(s: seq<string>, u: set<string>)
    requires NoDuplicates(s) && forall x :: x in s ==> x in u
    ensures |s| <= |u|
  {
    if s != [] {
      var last := s[|s| - 1];
      assert forall x :: x in s[..|s| - 1] ==> x in s && x != last;
      DistinctFitsIn(s[..|s| - 1], u - {last});
    }
  }

  lemma PathExtends(pages: seq<Page>, c: seq<string>, root: string, child: string)
    requires IsPath(pages, c) && |c| > 0 && c[0] == root && ChildOf(pages, child, c[|c| - 1])
    ensures Descends(pages, child, root)
  {
    var c' := c + [child];
    assert IsPath(pages, c');
  }

  /** A set holding `root` and closed under children holds every page
      below `root`. */
  lemma {:induction false} PathStaysInside(pages: seq<Page>, c: seq<string>, inside: set<string>)
    requires IsPath(pages, c) && |c| > 0 && c[0] in inside
    requires forall p :: p in pages && p.parentId.Some? && p.parentId.value in inside ==> p.id in inside
    ensures c[|c| - 1] in inside
  {
    if |c| > 1 {
      var c' := c[..|c| - 1];
      assert IsPath(pages, c');
      PathStaysInside(pages, c', inside);
      assert ChildOf(pages, c[|c| - 1], c[|c| - 2]);
    }
  }

  /** `collectDescendants`: the page and everything below it, each id once. */
  method CollectDescendants(pages: seq<Page>, id: string) returns (idsToDelete: seq<string>)
    ensures forall x :: x in idsToDelete <==> Descends(pages, x, id)
    ensures |idsToDelete| > 0 && idsToDelete[0] == id
  {
    idsToDelete := [id];
    assert IsPath(pages, [id]);
    var universe := AllPageIds(pages) + {id};
    var i := 0;
    while i < |idsToDelete|
      invariant 0 <= i <= |idsToDelete| && |idsToDelete| > 0 && idsToDelete[0] == id
      invariant NoDuplicates(idsToDelete)
      invariant forall x :: x in idsToDelete ==> x in universe && Descends(pages, x, id)
      invariant forall k, p :: 0 <= k < i && p in pages && p.parentId == Some(idsToDelete[k]) ==> p.id in idsToDelete
      decreases |universe| - i
    {
      DistinctFitsIn(idsToDelete, universe);
      var parent := idsToDelete[i];
      for j := 0 to |pages|
        invariant |idsToDelete| > i && idsToDelete[0] == id && idsToDelete[i] == parent
        invariant NoDuplicates(idsToDelete)
        invariant forall x :: x in idsToDelete ==> x in universe && Descends(pages, x, id)
        invariant forall k, p :: 0 <= k < i && p in pages && p.parentId == Some(idsToDelete[k]) ==> p.id in idsToDelete
        invariant forall p :: p in pages[..j] && p.parentId == Some(parent) ==> p.id in idsToDelete
      {
        var child := pages[j];
        if child.parentId == Some(parent) && child.id !in idsToDelete {
          assert parent in idsToDelete;
          ghost var c :| IsPath(pages, c) && |c| > 0 && c[0] == id && c[|c| - 1] == parent;
          PathExtends(pages, c, id, child.id);
          idsToDelete := idsToDelete + [child.id];
        }
        assert pages[..j + 1] == pages[..j] + [child];
      }
      assert pages[..|pages|] == pages;
      i := i + 1;
    }
    ghost var inside := set y | y in idsToDelete;
    forall p | p in pages && p.parentId.Some? && p.parentId.value in inside
      ensures p.id in inside
    {
      var k :| 0 <= k < |idsToDelete| && idsToDelete[k] == p.parentId.value;
    }
    forall x | Descends(pages, x, id)
      ensures x in idsToDelete
    {
      var c :| IsPath(pages, c) && |c| > 0 && c[0] == id && c[|c| - 1] == x;
      PathStaysInside(pages, c, inside);
    }
  }

  function PagesOutside(pages: seq<Page>, ids: seq<string>): (r: seq<Page>)
    ensures forall p :: p in r <==> p in pages && p.id !in ids
  {
    if pages == [] then []
    else (if pages[0].id !in ids then [pages[0]] else []) + PagesOutside(pages[1..], ids)
  }

  function CardsOutside(cards: seq<KanbanCard>, ids: seq<string>): (r: seq<KanbanCard>)
    ensures forall c :: c in r <==> c in cards && c.pageId !in ids
  {
    if cards == [] then []
    else (if cards[0].pageId !in ids then [cards[0]] else []) + CardsOutside(cards[1..], ids)
  }

  /** `deletePage`: the page, every page below it, and every card of those
      pages are removed; all other pages and cards stay, in their order. */
  method DeletePage(db: Database, id: string) returns (idsToDelete: seq<string>)
    modifies db`pages, db`kanbanCards
    ensures forall x :: x in idsToDelete <==> Descends(old(db.pages), x, id)
    ensures db.kanbanCards == CardsOutside(old(db.kanbanCards), idsToDelete)
    ensures db.pages == PagesOutside(old(db.pages), idsToDelete)
  {
    idsToDelete := CollectDescendants(db.pages, id);
    db.kanbanCards := CardsOutside(db.kanbanCards, idsToDelete);
    db.pages := PagesOutside(db.pages, idsToDelete);
  }

  /** After a subtree delete no page is left whose parent was deleted, so
      no survivor hangs below a removed page. */
  lemma DeletePageLeavesNoOrphans(pages: seq<Page>, id: string, ids: seq<string>)
    requires forall x :: x in ids <==> Descends(pages, x, id)
    ensures forall p :: p in PagesOutside(pages, ids) && p.parentId.Some? ==> p.parentId.value !in ids
  {
    forall p | p in PagesOutside(pages, ids) && p.parentId.Some? && p.parentId.value in ids
      ensures false
    {
      var c :| IsPath(pages, c) && |c| > 0 && c[0] == id && c[|c| - 1] == p.parentId.value;
      PathExtends(pages, c, id, p.id);
    }
  }
}
