/** What each family of requests leaves alone. */
module Frames {
  import opened Common
  import opened Domain
  import opened Drafts
  import opened Records

  /** The learner's own requests. */
  predicate Learns(r: Request) {
    r.ViewPage? || r.SwitchLanguage? || r.Complete?
  }

  /** The mutations of a module's draft. */
  predicate Edits(r: Request) {
    r.CreatePage? || r.ReorderPages? || r.UpdatePage? || r.DeletePage?
  }

  /** The requests that bring a module into being. */
  predicate Founds(r: Request) {
    r.CreateModule? || r.DuplicateModule? || r.ImportModule?
  }

  ghost function Edited(db: Db, r: Request): Result<Draft, DraftRefusal>
    requires Edits(r) && r.mod in db.modules
  {
    var d, editable := db.modules[r.mod].draft, Editable(db, r.mod);
    match r
    case CreatePage(_, token, page, title, canonical) => Create(d, editable, token, page, title, canonical)
    case ReorderPages(_, token, order) => Reorder(d, editable, token, order)
    case UpdatePage(_, token, page, title, change) => Update(d, editable, token, page, title, change)
    case DeletePage(_, token, page) => Delete(d, editable, token, page)
  }

  function Issued(r: Request): seq<PageId> {
    if r.CreatePage? then [r.page] else []
  }

  lemma LearningFrame(db: Db, r: Request)
    requires Learns(r) && Apply(db, r).Ok?
    ensures Apply(db, r).value == db.(progress := Apply(db, r).value.progress)
  {
    hide Resolve, ReadableVariants, Speaking, RowAfterView, RowAfterSwitch, RowAfterCompletion, Claimed, CurrentVersion, PageIds;
  }

  lemma EditingFrame(db: Db, r: Request)
    requires Edits(r) && Apply(db, r).Ok?
    ensures r.mod in db.modules && Editable(db, r.mod) && Edited(db, r).Ok? && FreshPages(db, Issued(r))
    ensures Apply(db, r).value == db.(
              modules := db.modules[r.mod := db.modules[r.mod].(draft := Edited(db, r).value)],
              pageOwner := db.pageOwner + OwnedBy(Issued(r), r.mod))
  {
    hide Listing, Renumbered, Claim, Enumerates, FreshPages, OwnedBy;
  }

  /** The new module, its group and its pages, for the requests that found one. */
  datatype Founding = Founding(group: GroupId, mod: ModuleId, language: Language, rows: PageTable, assets: set<AssetId>, pages: seq<PageId>)

  ghost predicate IsFounding(db: Db, r: Request, f: Founding) {
    match r
    case CreateModule(g, m, language) => f == Founding(g, m, language, map[], {}, [])
    case DuplicateModule(source, g, m, pages, urls, assets) =>
      && source in db.modules && !db.modules[source].status.Deleted? && |pages| == |db.modules[source].draft.rows|
      && f == Founding(g, m, db.modules[source].language, CopiedRows(db.modules[source].draft.rows, pages, urls), assets, pages)
    case ImportModule(g, m, language, pages, assets) =>
      |pages| <= MAX_PAGES && f == Founding(g, m, language, ImportedRows(pages), assets, ImportedIds(pages))
    case _ => false
  }

  lemma FoundingFrame(db: Db, r: Request) returns (f: Founding)
    requires Founds(r) && Apply(db, r).Ok?
    ensures IsFounding(db, r, f)
    ensures Apply(db, r) == NewModule(db, f.group, f.mod, f.language, f.rows, f.assets, f.pages)
  {
    hide NewModule, CopiedRows, ImportedRows, ImportedIds;
    match r
    case CreateModule(g, m, language) => f := Founding(g, m, language, map[], {}, []);
    case DuplicateModule(source, g, m, pages, urls, assets) =>
      f := Founding(g, m, db.modules[source].language, CopiedRows(db.modules[source].draft.rows, pages, urls), assets, pages);
    case ImportModule(g, m, language, pages, assets) =>
      f := Founding(g, m, language, ImportedRows(pages), assets, ImportedIds(pages));
  }
}
