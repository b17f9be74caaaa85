/** Importing an exported workspace: pages and cards are merged by
    last-writer-wins on `updatedAt`, local tombstones suppress records
    deleted after their last edit, and imported tombstones are logged and
    applied with their cascades. */
module DataTransfer {
  import opened Wrappers
  import opened Types
  import opened Db
  import DbHelpers

  datatype ExportData = ExportData(
    version: int,
    exportedAt: string,
    pages: seq<Page>,
    kanbanCards: seq<KanbanCard>,
    deletions: seq<Deletion>)

  datatype ImportResult = ImportResult(
    pagesAdded: nat,
    pagesUpdated: nat,
    cardsAdded: nat,
    cardsUpdated: nat,
    deletionsApplied: nat)

  datatype ImportError = UnsupportedVersion(version: int)

  const SupportedVersion := 1

  /** The three tables an import touches. */
  datatype Tables = Tables(pages: seq<Page>, cards: seq<KanbanCard>, dels: seq<Deletion>)

  // ─── Keyed tables ─────────────────────────────────────────────────────────

  function PageKey(p: Page): string { p.id }
  function PageStamp(p: Page): int { p.updatedAt }
  function CardKey(c: KanbanCard): string { c.id }
  function CardStamp(c: KanbanCard): int { c.updatedAt }

  predicate UniqueKeys<T>(table: seq<T>, key: T -> string) {
    forall i, j :: 0 <= i < j < |table| ==> key(table[i]) != key(table[j])
  }

  /** `table.get(id)`: the record stored under `id`, if any. */
  function Find<T>(table: seq<T>, key: T -> string, id: string): (r: Option<T>)
    ensures r.None? <==> forall k :: 0 <= k < |table| ==> key(table[k]) != id
    ensures r.Some? ==> r.value in table && key(r.value) == id
  {
    if table == [] then None
    else if key(table[0]) == id then Some(table[0])
    else
      var r := Find(table[1..], key, id);
      assert forall k :: 1 <= k < |table| ==> table[k] == table[1..][k - 1];
      r
  }

  /** With one record per key, `Find` returns the record stored there. */
  lemma FindUnique<T>(table: seq<T>, key: T -> string, k: int)
    requires UniqueKeys(table, key) && 0 <= k < |table|
    ensures Find(table, key, key(table[k])) == Some(table[k])
  {
    var r := Find(table, key, key(table[k]));
    var j :| 0 <= j < |table| && table[j] == r.value;
    assert j == k;
  }

  /** `table.put(x)`: `x` takes the place of the record with its key. */
  function Put<T>(table: seq<T>, key: T -> string, x: T): (r: seq<T>)
    ensures |r| == |table|
    ensures forall k :: 0 <= k < |table| ==> r[k] == if key(table[k]) == key(x) then x else table[k]
  {
    seq(|table|, k requires 0 <= k < |table| => if key(table[k]) == key(x) then x else table[k])
  }

  // ─── Tombstones ───────────────────────────────────────────────────────────

  predicate SameEntity(d: Deletion, t: EntityType, id: string) {
    d.entityType == t && d.entityId == id
  }

  /** A tombstone for entity `(t, id)` is logged. */
  predicate Logged(dels: seq<Deletion>, t: EntityType, id: string) {
    exists k :: 0 <= k < |dels| && SameEntity(dels[k], t, id)
  }

  /** At most one tombstone per entity. */
  predicate UniqueTombstones(dels: seq<Deletion>) {
    forall i, j :: 0 <= i < j < |dels| ==> !SameEntity(dels[j], dels[i].entityType, dels[i].entityId)
  }

  /** The local deletion lookup keyed by `entityType:entityId`: a later
      tombstone for the same entity overwrites an earlier one. */
  function LocalDeletedAt(dels: seq<Deletion>, t: EntityType, id: string): (r: Option<int>)
    ensures r.None? <==> !Logged(dels, t, id)
    ensures r.Some? ==> Deletion(t, id, r.value) in dels
  {
    if dels == [] then None
    else
      var init := dels[..|dels| - 1];
      var last := dels[|dels| - 1];
      assert forall k :: 0 <= k < |init| ==> init[k] == dels[k];
      if SameEntity(last, t, id) then Some(last.deletedAt)
      else LocalDeletedAt(init, t, id)
  }

  /** With at most one tombstone per entity, the lookup gives that
      tombstone's time. */
  lemma {:induction false} LocalDeletedAtUnique(dels: seq<Deletion>, t: EntityType, id: string)
    requires UniqueTombstones(dels)
    ensures forall d :: d in dels && SameEntity(d, t, id) ==> LocalDeletedAt(dels, t, id) == Some(d.deletedAt)
  {
    if dels != [] {
      var init := dels[..|dels| - 1];
      var last := dels[|dels| - 1];
      assert forall k :: 0 <= k < |init| ==> init[k] == dels[k];
      assert UniqueTombstones(init);
      LocalDeletedAtUnique(init, t, id);
      forall d | d in dels && SameEntity(d, t, id)
        ensures LocalDeletedAt(dels, t, id) == Some(d.deletedAt)
      {
        var k :| 0 <= k < |dels| && dels[k] == d;
        if SameEntity(last, t, id) {
          if k < |dels| - 1 {
            assert false;
          }
        } else {
          assert d in init;
        }
      }
    }
  }

  /** `logDeletionIfNotExists`: a tombstone is added only when none is
      logged for the entity. */
  function LogIfAbsent(dels: seq<Deletion>, t: EntityType, id: string, at: int): (r: seq<Deletion>)
    ensures Logged(r, t, id)
    ensures UniqueTombstones(dels) ==> UniqueTombstones(r)
    ensures dels <= r && |r| <= |dels| + 1
    ensures forall t', id' :: Logged(r, t', id') <==> Logged(dels, t', id') || (t' == t && id' == id)
  {
    if Logged(dels, t, id) then dels
    else
      var r := dels + [Deletion(t, id, at)];
      assert SameEntity(r[|dels|], t, id);
      r
  }

  /** A card tombstone for each of `cards`, in order, each logged only if
      absent. */
  function LogCards(dels: seq<Deletion>, cards: seq<KanbanCard>, at: int): (r: seq<Deletion>)
    ensures dels <= r
    ensures UniqueTombstones(dels) ==> UniqueTombstones(r)
    ensures forall c :: c in cards ==> Logged(r, CardEntity, c.id)
    ensures forall t, id :: Logged(r, t, id) ==>
      Logged(dels, t, id) || (t == CardEntity && exists c :: c in cards && c.id == id)
  {
    if cards == [] then dels
    else
      var init := cards[..|cards| - 1];
      var last := cards[|cards| - 1];
      var before := LogCards(dels, init, at);
      var r := LogIfAbsent(before, CardEntity, last.id, at);
      assert forall c :: c in cards ==> c in init || c == last;
      assert forall t, id :: Logged(before, t, id) ==> Logged(r, t, id);
      r
  }

  // ─── Merging one table ────────────────────────────────────────────────────

  datatype MergeOutcome = SkippedByTombstone | Added | Replaced | KeptLocal

  /** What the merge does with imported record `x`, given the local
      tombstone time for it: skip it when the entity was deleted locally
      after `x` was last edited, add it when absent, replace the local copy
      only when `x` is strictly newer. */
  function Outcome<T>(table: seq<T>, key: T -> string, stamp: T -> int, tombstone: Option<int>, x: T): MergeOutcome {
    if tombstone.Some? && tombstone.value > stamp(x) then SkippedByTombstone
    else match Find(table, key, key(x))
      case None => Added
      case Some(local) => if stamp(x) > stamp(local) then Replaced else KeptLocal
  }

  function MergeOne<T>(table: seq<T>, key: T -> string, stamp: T -> int, tombstone: Option<int>, x: T): seq<T> {
    match Outcome(table, key, stamp, tombstone, x)
    case Added => table + [x]
    case Replaced => Put(table, key, x)
    case _ => table
  }

  /** Last writer wins: after merging `x`, the record under its key is the
      newer of the local copy and `x`, the local copy on a tie, and the
      local copy when a later tombstone suppresses `x`; every other key
      reads as before and keys stay unique. */
  lemma MergeOneKeepsNewer<T>(table: seq<T>, key: T -> string, stamp: T -> int, tombstone: Option<int>, x: T)
    requires UniqueKeys(table, key)
    ensures var r := MergeOne(table, key, stamp, tombstone, x);
      var before := Find(table, key, key(x));
      UniqueKeys(r, key) &&
      (forall id :: id != key(x) ==> Find(r, key, id) == Find(table, key, id)) &&
      Find(r, key, key(x)) ==
        (if tombstone.Some? && tombstone.value > stamp(x) then before
         else if before.Some? && stamp(before.value) >= stamp(x) then before
         else Some(x))
  {
    var r := MergeOne(table, key, stamp, tombstone, x);
    var before := Find(table, key, key(x));
    match Outcome(table, key, stamp, tombstone, x)
    case Added =>
      assert r == table + [x];
      FindUnique(r, key, |table|);
      forall id | id != key(x)
        ensures Find(r, key, id) == Find(table, key, id)
      {
        if Find(table, key, id).Some? {
          var k :| 0 <= k < |table| && table[k] == Find(table, key, id).value;
          FindUnique(table, key, k);
          FindUnique(r, key, k);
        }
      }
    case Replaced =>
      var k :| 0 <= k < |table| && table[k] == before.value;
      assert UniqueKeys(r, key);
      FindUnique(r, key, k);
      forall id | id != key(x)
        ensures Find(r, key, id) == Find(table, key, id)
      {
        if Find(table, key, id).Some? {
          var j :| 0 <= j < |table| && table[j] == Find(table, key, id).value;
          FindUnique(table, key, j);
          FindUnique(r, key, j);
        }
      }
    case SkippedByTombstone =>
    case KeptLocal =>
  }

  /** Merging the same record twice is the same as merging it once. */
  lemma MergeOneIdempotent<T>(table: seq<T>, key: T -> string, stamp: T -> int, tombstone: Option<int>, x: T)
    requires UniqueKeys(table, key)
    ensures var r := MergeOne(table, key, stamp, tombstone, x);
      MergeOne(r, key, stamp, tombstone, x) == r
  {
    MergeOneKeepsNewer(table, key, stamp, tombstone, x);
  }

  datatype Merged<T> = Merged(table: seq<T>, added: nat, updated: nat)

  /** The merge of every imported record of one table, in import order,
      with the added and updated counts; suppression reads the local
      tombstones as they were before the import. */
  function MergeAll<T>(table: seq<T>, key: T -> string, stamp: T -> int, localDels: seq<Deletion>,
                       t: EntityType, imported: seq<T>): (m: Merged<T>)
    ensures m.added + m.updated <= |imported|
    ensures |m.table| == |table| + m.added
  {
    if imported == [] then Merged(table, 0, 0)
    else
      var prev := MergeAll(table, key, stamp, localDels, t, imported[..|imported| - 1]);
      var x := imported[|imported| - 1];
      var tombstone := LocalDeletedAt(localDels, t, key(x));
      var o := Outcome(prev.table, key, stamp, tombstone, x);
      Merged(MergeOne(prev.table, key, stamp, tombstone, x),
             prev.added + (if o == Added then 1 else 0),
             prev.updated + (if o == Replaced then 1 else 0))
  }

  /** A merge never gives two records the same key. */
  lemma {:induction false} MergeAllKeepsKeysUnique<T>(table: seq<T>, key: T -> string, stamp: T -> int,
                                                       localDels: seq<Deletion>, t: EntityType, imported: seq<T>)
    requires UniqueKeys(table, key)
    ensures UniqueKeys(MergeAll(table, key, stamp, localDels, t, imported).table, key)
  {
    if imported != [] {
      var init := imported[..|imported| - 1];
      var x := imported[|imported| - 1];
      MergeAllKeepsKeysUnique(table, key, stamp, localDels, t, init);
      MergeOneKeepsNewer(MergeAll(table, key, stamp, localDels, t, init).table, key, stamp,
                         LocalDeletedAt(localDels, t, key(x)), x);
    }
  }

  /** One more imported record: the merge of the longer prefix is the
      previous merge followed by that record's outcome. */
  lemma MergeAllStep<T>(table: seq<T>, key: T -> string, stamp: T -> int, localDels: seq<Deletion>,
                        t: EntityType, imported: seq<T>, i: int)
    requires 0 <= i < |imported|
    ensures var prev := MergeAll(table, key, stamp, localDels, t, imported[..i]);
      var x := imported[i];
      var tombstone := LocalDeletedAt(localDels, t, key(x));
      var o := Outcome(prev.table, key, stamp, tombstone, x);
      MergeAll(table, key, stamp, localDels, t, imported[..i + 1]) ==
        Merged(MergeOne(prev.table, key, stamp, tombstone, x),
               prev.added + (if o == Added then 1 else 0),
               prev.updated + (if o == Replaced then 1 else 0))
  {
    assert imported[..i + 1][..i] == imported[..i];
  }

  /** The merge loop of one table: look up the local tombstone, skip,
      insert or keep the newer copy, and count. */
  method MergeTable<T>(table: seq<T>, key: T -> string, stamp: T -> int, localDels: seq<Deletion>,
                       t: EntityType, imported: seq<T>) returns (m: Merged<T>)
    ensures m == MergeAll(table, key, stamp, localDels, t, imported)
  {
    var current, added, updated := table, 0, 0;
    for i := 0 to |imported|
      invariant MergeAll(table, key, stamp, localDels, t, imported[..i]) == Merged(current, added, updated)
    {
      var x := imported[i];
      MergeAllStep(table, key, stamp, localDels, t, imported, i);
      var localDeletedAt := LocalDeletedAt(localDels, t, key(x));
      if localDeletedAt.Some? && localDeletedAt.value > stamp(x) {
        continue;
      }
      var local := Find(current, key, key(x));
      if local.None? {
        current := current + [x];
        added := added + 1;
      } else if stamp(x) > stamp(local.value) {
        current := Put(current, key, x);
        updated := updated + 1;
      }
    }
    assert imported[..|imported|] == imported;
    m := Merged(current, added, updated);
  }

  // ─── Applying imported tombstones ─────────────────────────────────────────

  /** The cards of board `pageId`. */
  function CardsOn(cards: seq<KanbanCard>, pageId: string): (r: seq<KanbanCard>)
    ensures forall c :: c in r <==> c in cards && c.pageId == pageId
  {
    if cards == [] then []
    else (if cards[0].pageId == pageId then [cards[0]] else []) + CardsOn(cards[1..], pageId)
  }

  /** The direct subtasks of card `id`. */
  function SubtasksOf(cards: seq<KanbanCard>, id: string): (r: seq<KanbanCard>)
    ensures forall c :: c in r <==> c in cards && c.parentId == SubtaskOf(id)
  {
    if cards == [] then []
    else (if cards[0].parentId == SubtaskOf(id) then [cards[0]] else []) + SubtasksOf(cards[1..], id)
  }

  /** `kanbanCards.delete(s.id)` for each of `subs` in turn. */
  function RemoveCards(cards: seq<KanbanCard>, subs: seq<KanbanCard>): (r: seq<KanbanCard>)
    ensures forall c :: c in r <==> c in cards && forall s :: s in subs ==> s.id != c.id
  {
    if subs == [] then cards
    else
      var init := subs[..|subs| - 1];
      assert forall s :: s in subs ==> s in init || s == subs[|subs| - 1];
      DbHelpers.WithoutCard(RemoveCards(cards, init), subs[|subs| - 1].id)
  }

  /** One imported tombstone: it is logged unless the entity already has
      one; a page older than it goes with all its cards, each card getting
      a tombstone; a card older than it goes with its direct subtasks, each
      subtask getting a tombstone.  The flag says whether it applied. */
  function ApplyDeletion(s: Tables, d: Deletion): (r: (Tables, bool))
    ensures s.dels <= r.0.dels
    ensures UniqueTombstones(s.dels) ==> UniqueTombstones(r.0.dels)
    ensures Logged(r.0.dels, d.entityType, d.entityId)
  {
    var dels := LogIfAbsent(s.dels, d.entityType, d.entityId, d.deletedAt);
    match d.entityType
    case PageEntity =>
      (match Find(s.pages, PageKey, d.entityId)
       case Some(p) =>
         if p.updatedAt < d.deletedAt then
           var doomed := CardsOn(s.cards, d.entityId);
           (Tables(DbHelpers.PagesOutside(s.pages, [d.entityId]),
                   DbHelpers.CardsOutside(s.cards, [d.entityId]),
                   LogCards(dels, doomed, d.deletedAt)), true)
         else (s.(dels := dels), false)
       case None => (s.(dels := dels), false))
    case CardEntity =>
      match Find(s.cards, CardKey, d.entityId)
      case Some(c) =>
        if c.updatedAt < d.deletedAt then
          var subs := SubtasksOf(s.cards, d.entityId);
          (Tables(s.pages,
                  DbHelpers.WithoutCard(RemoveCards(s.cards, subs), d.entityId),
                  LogCards(dels, subs, d.deletedAt)), true)
        else (s.(dels := dels), false)
      case None => (s.(dels := dels), false)
  }

  /** A page tombstone applies exactly when the local page was last edited
      before it; it then removes the page and every card of the page and
      logs a tombstone for each of those cards, and otherwise leaves pages
      and cards alone. */
  lemma PageTombstoneCascade(s: Tables, d: Deletion)
    requires d.entityType == PageEntity && UniqueKeys(s.pages, PageKey)
    ensures var r := ApplyDeletion(s, d);
      (r.1 <==> exists p :: p in s.pages && p.id == d.entityId && p.updatedAt < d.deletedAt) &&
      (r.1 ==>
        (forall p :: p in r.0.pages <==> p in s.pages && p.id != d.entityId) &&
        (forall c :: c in r.0.cards <==> c in s.cards && c.pageId != d.entityId) &&
        (forall c :: c in s.cards && c.pageId == d.entityId ==> Logged(r.0.dels, CardEntity, c.id))) &&
      (!r.1 ==> r.0.pages == s.pages && r.0.cards == s.cards)
  {
    var found := Find(s.pages, PageKey, d.entityId);
    if found.Some? {
      forall p | p in s.pages && p.id == d.entityId
        ensures p == found.value
      {
        var k :| 0 <= k < |s.pages| && s.pages[k] == p;
        FindUnique(s.pages, PageKey, k);
      }
    }
  }

  /** A card tombstone applies exactly when the local card was last edited
      before it; it then removes the card and its direct subtasks and logs
      a tombstone for each subtask; all other cards and every page stay. */
  lemma CardTombstoneCascade(s: Tables, d: Deletion)
    requires d.entityType == CardEntity && UniqueKeys(s.cards, CardKey)
    ensures var r := ApplyDeletion(s, d);
      (r.1 <==> exists c :: c in s.cards && c.id == d.entityId && c.updatedAt < d.deletedAt) &&
      r.0.pages == s.pages &&
      (r.1 ==>
        (forall c :: c in r.0.cards <==>
          c in s.cards && c.id != d.entityId && c.parentId != SubtaskOf(d.entityId)) &&
        (forall c :: c in s.cards && c.parentId == SubtaskOf(d.entityId) ==> Logged(r.0.dels, CardEntity, c.id))) &&
      (!r.1 ==> r.0.cards == s.cards)
  {
    var found := Find(s.cards, CardKey, d.entityId);
    if found.Some? {
      forall c | c in s.cards && c.id == d.entityId
        ensures c == found.value
      {
        var k :| 0 <= k < |s.cards| && s.cards[k] == c;
        FindUnique(s.cards, CardKey, k);
      }
      var subs := SubtasksOf(s.cards, d.entityId);
      forall c, sub | c in s.cards && sub in subs && sub.id == c.id
        ensures c == sub
      {
        var i :| 0 <= i < |s.cards| && s.cards[i] == c;
        var j :| 0 <= j < |s.cards| && s.cards[j] == sub;
        FindUnique(s.cards, CardKey, i);
        FindUnique(s.cards, CardKey, j);
      }
    }
  }

  /** One more tombstone on top of the state and count so far. */
  function Tally(prev: (Tables, nat), d: Deletion): (r: (Tables, nat))
    ensures r.1 <= prev.1 + 1
    ensures prev.0.dels <= r.0.dels
    ensures UniqueTombstones(prev.0.dels) ==> UniqueTombstones(r.0.dels)
    ensures Logged(r.0.dels, d.entityType, d.entityId)
  {
    var step := ApplyDeletion(prev.0, d);
    (step.0, prev.1 + (if step.1 then 1 else 0))
  }

  /** The tombstones of the import, in order, with the number applied. */
  function ApplyAll(s: Tables, ds: seq<Deletion>): (r: (Tables, nat))
    ensures r.1 <= |ds|
    ensures s.dels <= r.0.dels
    ensures UniqueTombstones(s.dels) ==> UniqueTombstones(r.0.dels)
    ensures forall d :: d in ds ==> Logged(r.0.dels, d.entityType, d.entityId)
  {
    if ds == [] then (s, 0)
    else
      var init := ds[..|ds| - 1];
      var d := ds[|ds| - 1];
      var prev := ApplyAll(s, init);
      var r := Tally(prev, d);
      assert forall d' :: d' in ds ==> d' in init || d' == d;
      assert forall t, id :: Logged(prev.0.dels, t, id) ==> Logged(r.0.dels, t, id);
      r
  }

  // ─── The import ───────────────────────────────────────────────────────────

  /** `importWorkspace`: an unsupported version fails before any change;
      otherwise pages, then cards, then tombstones. */
  function Import(s: Tables, data: ExportData): (r: Result<(Tables, ImportResult), ImportError>)
    ensures r.Err? <==> data.version != SupportedVersion
    ensures r.Err? ==> r.error == UnsupportedVersion(data.version)
    ensures r.Ok? ==>
      var (s', counts) := r.value;
      counts.pagesAdded + counts.pagesUpdated <= |data.pages| &&
      counts.cardsAdded + counts.cardsUpdated <= |data.kanbanCards| &&
      counts.deletionsApplied <= |data.deletions| &&
      s.dels <= s'.dels &&
      (UniqueTombstones(s.dels) ==> UniqueTombstones(s'.dels)) &&
      forall d :: d in data.deletions ==> Logged(s'.dels, d.entityType, d.entityId)
  {
    if data.version != SupportedVersion then Err(UnsupportedVersion(data.version))
    else
      var mp := MergeAll(s.pages, PageKey, PageStamp, s.dels, PageEntity, data.pages);
      var mc := MergeAll(s.cards, CardKey, CardStamp, s.dels, CardEntity, data.kanbanCards);
      var applied := ApplyAll(Tables(mp.table, mc.table, s.dels), data.deletions);
      Ok((applied.0, ImportResult(mp.added, mp.updated, mc.added, mc.updated, applied.1)))
  }

  /** A merged record that no local tombstone suppresses survives the
      merge phase as the newer of the two copies, so importing an export
      of this very workspace adds and replaces nothing. */
  lemma {:induction false} ReimportChangesNothing(table: seq<Page>, localDels: seq<Deletion>)
    requires UniqueKeys(table, PageKey)
    ensures var m := MergeAll(table, PageKey, PageStamp, localDels, PageEntity, table);
      m.table == table && m.added == 0 && m.updated == 0
  {
    ReimportPrefix(table, localDels, |table|);
    assert table[..|table|] == table;
  }

  lemma {:induction false} ReimportPrefix(table: seq<Page>, localDels: seq<Deletion>, n: nat)
    requires UniqueKeys(table, PageKey) && n <= |table|
    ensures var m := MergeAll(table, PageKey, PageStamp, localDels, PageEntity, table[..n]);
      m.table == table && m.added == 0 && m.updated == 0
  {
    if n > 0 {
      ReimportPrefix(table, localDels, n - 1);
      assert table[..n][..n - 1] == table[..n - 1];
      FindUnique(table, PageKey, n - 1);
    }
  }

  // ─── The database operations ──────────────────────────────────────────────

  /** `logDeletionIfNotExists`. */
  method LogDeletionIfNotExists(db: Database, t: EntityType, id: string, at: int)
    modifies db`deletions
    ensures db.deletions == LogIfAbsent(old(db.deletions), t, id, at)
  {
    if !Logged(db.deletions, t, id) {
      db.deletions := db.deletions + [Deletion(t, id, at)];
    }
  }

  /** Logs a card tombstone for each card of a deleted board. */
  method LogCardTombstones(db: Database, cards: seq<KanbanCard>, at: int)
    modifies db`deletions
    ensures db.deletions == LogCards(old(db.deletions), cards, at)
  {
    for i := 0 to |cards|
      invariant db.deletions == LogCards(old(db.deletions), cards[..i], at)
    {
      assert cards[..i + 1][..i] == cards[..i];
      LogDeletionIfNotExists(db, CardEntity, cards[i].id, at);
    }
    assert cards[..|cards|] == cards;
  }

  /** Logs a tombstone for each subtask and deletes it. */
  method DeleteSubtasks(db: Database, subs: seq<KanbanCard>, at: int)
    modifies db`deletions, db`kanbanCards
    ensures db.deletions == LogCards(old(db.deletions), subs, at)
    ensures db.kanbanCards == RemoveCards(old(db.kanbanCards), subs)
  {
    for i := 0 to |subs|
      invariant db.deletions == LogCards(old(db.deletions), subs[..i], at)
      invariant db.kanbanCards == RemoveCards(old(db.kanbanCards), subs[..i])
    {
      assert subs[..i + 1][..i] == subs[..i];
      LogDeletionIfNotExists(db, CardEntity, subs[i].id, at);
      DbHelpers.DeleteCard(db, subs[i].id);
    }
    assert subs[..|subs|] == subs;
  }

  /** One imported tombstone against the database. */
  method ApplyImportedDeletion(db: Database, d: Deletion) returns (applied: bool)
    modifies db`pages, db`kanbanCards, db`deletions
    ensures (Tables(db.pages, db.kanbanCards, db.deletions), applied)
         == ApplyDeletion(Tables(old(db.pages), old(db.kanbanCards), old(db.deletions)), d)
  {
    LogDeletionIfNotExists(db, d.entityType, d.entityId, d.deletedAt);
    applied := false;
    match d.entityType
    case PageEntity =>
      var page := Find(db.pages, PageKey, d.entityId);
      if page.Some? && page.value.updatedAt < d.deletedAt {
        var cards := CardsOn(db.kanbanCards, d.entityId);
        LogCardTombstones(db, cards, d.deletedAt);
        db.kanbanCards := DbHelpers.CardsOutside(db.kanbanCards, [d.entityId]);
        db.pages := DbHelpers.PagesOutside(db.pages, [d.entityId]);
        applied := true;
      }
    case CardEntity =>
      var card := Find(db.kanbanCards, CardKey, d.entityId);
      if card.Some? && card.value.updatedAt < d.deletedAt {
        var subtasks := SubtasksOf(db.kanbanCards, d.entityId);
        DeleteSubtasks(db, subtasks, d.deletedAt);
        DbHelpers.DeleteCard(db, d.entityId);
        applied := true;
      }
  }

  lemma ApplyAllStep(s: Tables, ds: seq<Deletion>, i: int)
    requires 0 <= i < |ds|
    ensures ApplyAll(s, ds[..i + 1]) == Tally(ApplyAll(s, ds[..i]), ds[i])
  {
    assert ds[..i + 1][..i] == ds[..i];
  }

  /** The tombstone loop of the import. */
  method ApplyImportedDeletions(db: Database, ds: seq<Deletion>) returns (applied: nat)
    modifies db`pages, db`kanbanCards, db`deletions
    ensures (Tables(db.pages, db.kanbanCards, db.deletions), applied)
         == ApplyAll(Tables(old(db.pages), old(db.kanbanCards), old(db.deletions)), ds)
  {
    ghost var s0 := Tables(db.pages, db.kanbanCards, db.deletions);
    applied := 0;
    for i := 0 to |ds|
      invariant (Tables(db.pages, db.kanbanCards, db.deletions), applied) == ApplyAll(s0, ds[..i])
    {
      ApplyAllStep(s0, ds, i);
      var one := ApplyImportedDeletion(db, ds[i]);
      if one {
        applied := applied + 1;
      }
    }
    assert ds[..|ds|] == ds;
  }

  /** `importWorkspace` against the database. */
  method ImportWorkspace(db: Database, data: ExportData) returns (r: Result<ImportResult, ImportError>)
    modifies db`pages, db`kanbanCards, db`deletions
    ensures r.Err? ==>
      r.error == UnsupportedVersion(data.version) &&
      db.pages == old(db.pages) && db.kanbanCards == old(db.kanbanCards) && db.deletions == old(db.deletions)
    ensures r.Ok? ==>
      Import(Tables(old(db.pages), old(db.kanbanCards), old(db.deletions)), data)
        == Ok((Tables(db.pages, db.kanbanCards, db.deletions), r.value))
    ensures r.Err? <==> data.version != SupportedVersion
  {
    if data.version != SupportedVersion {
      return Err(UnsupportedVersion(data.version));
    }
    var localDeletions := db.deletions;
    var mp := MergeTable(db.pages, PageKey, PageStamp, localDeletions, PageEntity, data.pages);
    db.pages := mp.table;
    var mc := MergeTable(db.kanbanCards, CardKey, CardStamp, localDeletions, CardEntity, data.kanbanCards);
    db.kanbanCards := mc.table;
    var applied := ApplyImportedDeletions(db, data.deletions);
    r := Ok(ImportResult(mp.added, mp.updated, mc.added, mc.updated, applied));
  }
}
