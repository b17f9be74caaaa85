/** The records kept by the application: pages with their kanban columns,
    kanban cards, deletion tombstones, focus time blocks and the focus
    settings singleton.  Timestamps (`Date` in the source) are epoch
    milliseconds; dates are ISO `YYYY-MM-DD` strings. */
module Types {
  import opened Wrappers

  // ─── Clock ─────────────────────────────────────────────────────────────────

  /** One reading of the device clock: the ISO date the source derives with
      `toISOString().split("T")[0]`, the local hour and minute, and the epoch
      milliseconds used for `createdAt`/`updatedAt` and reminder history. */
  datatype Clock = Clock(today: string, hour: int, minute: int, nowMs: int)

  predicate ValidClock(c: Clock) {
    0 <= c.hour < 24 && 0 <= c.minute < 60
  }

  /** JavaScript's `<` on strings: lexicographic on code units, a proper
      prefix being smaller. */
  predicate LexLess(a: string, b: string)
    decreases |a|
  {
    if |a| == 0 then |b| > 0
    else if |b| == 0 then false
    else if a[0] != b[0] then a[0] < b[0]
    else LexLess(a[1..], b[1..])
  }

  /** No date string is earlier than itself. */
  lemma {:induction false} LexLessIrreflexive(a: string)
    ensures !LexLess(a, a)
  {
    if |a| > 0 {
      LexLessIrreflexive(a[1..]);
    }
  }

  // ─── Pages, columns, cards ────────────────────────────────────────────────

  datatype PageType = Document | Kanban

  datatype KanbanColumn = KanbanColumn(id: string, title: string, order: int)

  /** Document content is opaque to this model. */
  datatype BlockContent = BlockContent(json: string)

  datatype Page = Page(
    id: string,
    title: string,
    parentId: Option<string>,
    content: seq<BlockContent>,
    icon: Option<string>,
    pageType: PageType,
    columns: seq<KanbanColumn>,
    doneColumnId: Option<string>,
    createdAt: int,
    updatedAt: int)

  /** A card's `parentId` property: missing altogether (`undefined`), `null`
      for a top-level card, or the id of the parent card of a subtask. */
  datatype ParentLink = Missing | TopLevel | SubtaskOf(parent: string)

  datatype KanbanCard = KanbanCard(
    id: string,
    pageId: string,
    columnId: string,
    title: string,
    description: string,
    order: int,
    parentId: ParentLink,
    createdAt: int,
    updatedAt: int)

  // ─── Tombstones ───────────────────────────────────────────────────────────

  datatype EntityType = PageEntity | CardEntity

  datatype Deletion = Deletion(entityType: EntityType, entityId: string, deletedAt: int)

  // ─── Focus time blocks ────────────────────────────────────────────────────

  datatype Status = Scheduled | Completed | Skipped

  /** A block occupies part of hour `startHour` of `date`; `startMinute` is a
      placement hint and `order` its rank among the blocks of that slot. */
  datatype TimeBlock = TimeBlock(
    id: string,
    cardId: string,
    pageId: string,
    date: string,
    startHour: int,
    startMinute: int,
    durationMinutes: int,
    status: Status,
    order: int,
    createdAt: int,
    updatedAt: int)

  // ─── Focus settings ───────────────────────────────────────────────────────

  datatype FocusSettings = FocusSettings(
    workMinutes: int,
    breakMinutes: int,
    audioEnabled: bool,
    dayStartHour: int,
    dayEndHour: int,
    durationPresets: seq<int>,
    reminderIntervalMinutes: int)

  /** A stored or partial settings record: a field is `None` when the
      property is absent from the object. */
  datatype SettingsPatch = SettingsPatch(
    workMinutes: Option<int>,
    breakMinutes: Option<int>,
    audioEnabled: Option<bool>,
    dayStartHour: Option<int>,
    dayEndHour: Option<int>,
    durationPresets: Option<seq<int>>,
    reminderIntervalMinutes: Option<int>)

  // ─── Primary-key uniqueness of each table ─────────────────────────────────

  predicate UniqueBlockIds(s: seq<TimeBlock>) {
    forall i, j :: 0 <= i < j < |s| ==> s[i].id != s[j].id
  }

  predicate UniquePageIds(s: seq<Page>) {
    forall i, j :: 0 <= i < j < |s| ==> s[i].id != s[j].id
  }

  predicate UniqueCardIds(s: seq<KanbanCard>) {
    forall i, j :: 0 <= i < j < |s| ==> s[i].id != s[j].id
  }

  function BlockIds(s: seq<TimeBlock>): set<string> {
    set b | b in s :: b.id
  }

  function PageIds(s: seq<Page>): set<string> {
    set p | p in s :: p.id
  }

  function CardIds(s: seq<KanbanCard>): set<string> {
    set c | c in s :: c.id
  }
}
