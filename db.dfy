/** The local database: one table per record kind, kept in table order.
    Each table is keyed by `id`; the focus settings table holds at most the
    one record stored under the key "settings". */
module Db {
  import opened Wrappers
  import opened Types

  class Database {
    var pages: seq<Page>
    var kanbanCards: seq<KanbanCard>
    var deletions: seq<Deletion>
    var timeBlocks: seq<TimeBlock>
    var focusSettings: Option<SettingsPatch>

    constructor ()
      ensures pages == [] && kanbanCards == [] && deletions == []
      ensures timeBlocks == [] && focusSettings == None
    {
      pages, kanbanCards, deletions, timeBlocks := [], [], [], [];
      focusSettings := None;
    }
  }
}
