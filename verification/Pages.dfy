/** Every page id belongs to one module for good, and every draft numbers its pages 0..n-1. */
module Pages {
  import opened Domain
  import opened Drafts
  import opened Records
  import opened Frames
  import Lifecycle
  import Rewriting

  type Owners = map<PageId, ModuleId>

  predicate Owned(owners: Owners, ids: seq<PageId>, m: ModuleId) {
    forall i :: 0 <= i < |ids| ==> ids[i] in owners && owners[ids[i]] == m
  }

  ghost predicate TableOk(owners: Owners, m: ModuleId, rows: PageTable) {
    Contiguous(rows) && forall p :: p in rows ==> p in owners && owners[p] == m
  }

  ghost predicate PagesOk(db: Db) {
    && (forall m :: m in db.modules ==> TableOk(db.pageOwner, m, db.modules[m].draft.rows))
    && (forall v :: v in db.versions ==> Owned(db.pageOwner, PageIds(db.versions[v].pages), db.versions[v].mod))
  }

  predicate Grown(owners: Owners, owners': Owners) {
    forall p :: p in owners ==> p in owners' && owners'[p] == owners[p]
  }

  lemma FreshPagesGrow(db: Db, pages: seq<PageId>, m: ModuleId)
    requires FreshPages(db, pages)
    ensures Grown(db.pageOwner, db.pageOwner + OwnedBy(pages, m))
    ensures forall p :: p in pages ==> p in db.pageOwner + OwnedBy(pages, m) && (db.pageOwner + OwnedBy(pages, m))[p] == m
  {
  }

  lemma OwnersOnlyGrow(db: Db, r: Request)
    requires Apply(db, r).Ok?
    ensures Grown(db.pageOwner, Apply(db, r).value.pageOwner)
  {
    hide Highest, Snapshot, SentBack, WithoutAssignmentsOf, Tombstone, FreshPages, OwnedBy, CopiedRows, ImportedRows,
        ImportedIds, WithDraft, AfterView,
         AfterSwitch, AfterComplete, HasProgress, Siblings;
    if Founds(r) {
      var f := FoundingFrame(db, r);
      FreshPagesGrow(db, f.pages, f.mod);
    } else if Edits(r) {
      EditingFrame(db, r);
      FreshPagesGrow(db, Issued(r), r.mod);
    } else if Learns(r) {
      LearningFrame(db, r);
    }
  }

  // --- Versions and untouched drafts keep what they had ------------------------------------

  lemma GrowingKeepsTables(db: Db, owners': Owners)
    requires PagesOk(db) && Grown(db.pageOwner, owners')
    ensures forall m :: m in db.modules ==> TableOk(owners', m, db.modules[m].draft.rows)
    ensures forall v :: v in db.versions ==> Owned(owners', PageIds(db.versions[v].pages), db.versions[v].mod)
  {
    hide Contiguous, PageIds;
    forall m | m in db.modules ensures TableOk(owners', m, db.modules[m].draft.rows) {
      assert TableOk(db.pageOwner, m, db.modules[m].draft.rows);
    }
    forall v | v in db.versions ensures Owned(owners', PageIds(db.versions[v].pages), db.versions[v].mod) {
      assert Owned(db.pageOwner, PageIds(db.versions[v].pages), db.versions[v].mod);
    }
  }

  // --- New drafts ------------------------------------------------------------------------------

  lemma EmptyTableOk(owners: Owners, m: ModuleId)
    ensures TableOk(owners, m, map[])
  {
    assert Listing(map[]) == [];
  }

  lemma CopiedRowsContiguous(rows: PageTable, pages: seq<PageId>, urls: map<string, string>)
    requires Contiguous(rows) && |pages| == |rows| && NoDuplicates(pages)
    ensures Contiguous(CopiedRows(rows, pages, urls)) && Listing(CopiedRows(rows, pages, urls)) == pages
  {
    var copy := CopiedRows(rows, pages, urls);
    forall i | 0 <= i < |pages| ensures pages[i] in copy && copy[pages[i]].position == i {
      assert pages[i] in pages;
      assert IndexOf(pages, pages[i]) == i;
    }
    CountingIsTheListing(copy, pages);
  }

  lemma ImportedRowsContiguous(pages: seq<ImportedPage>)
    requires NoDuplicates(ImportedIds(pages))
    ensures Contiguous(ImportedRows(pages)) && Listing(ImportedRows(pages)) == ImportedIds(pages)
  {
    var ids, rows := ImportedIds(pages), ImportedRows(pages);
    forall i | 0 <= i < |ids| ensures ids[i] in rows && rows[ids[i]].position == i {
      assert ids[i] in ids;
      assert IndexOf(ids, ids[i]) == i;
    }
    CountingIsTheListing(rows, ids);
  }

  /** This page of the new module is that page of the old, at the same place, repointed at the copy's assets. */
  predicate IsCopyOf(copy: PageTable, q: PageId, rows: PageTable, p: PageId, urls: map<string, string>) {
    && q in copy && p in rows
    && copy[q].position == rows[p].position
    && copy[q].title == rows[p].title
    && copy[q].body == Rewriting.ByUrl(rows[p].body, urls)
  }

  /** A duplicate has a copy of every page of its source, page for page in the source's order. */
  lemma DuplicateCopiesPageForPage(rows: PageTable, pages: seq<PageId>, urls: map<string, string>, i: nat)
    requires Contiguous(rows) && |pages| == |rows| && NoDuplicates(pages) && i < |pages|
    ensures Listing(CopiedRows(rows, pages, urls)) == pages
    ensures IsCopyOf(CopiedRows(rows, pages, urls), pages[i], rows, Listing(rows)[i], urls)
  {
    hide Listing, Contiguous, Rewriting.ByUrl;
    CopiedRowsContiguous(rows, pages, urls);
    assert pages[i] in pages && IndexOf(pages, pages[i]) == i;
    ContiguousAt(rows, i);
  }

  lemma ContiguousAt(rows: PageTable, i: nat)
    requires Contiguous(rows) && i < |rows|
    ensures Listing(rows)[i] in rows && rows[Listing(rows)[i]].position == i
  {
    hide Listing;
  }

  /** A founded module's pages are exactly the ids issued to it, in the order they were given. */
  lemma FoundedTableOk(db: Db, r: Request, f: Founding)
    requires PagesOk(db) && IsFounding(db, r, f) && FreshPages(db, f.pages)
    ensures TableOk(db.pageOwner + OwnedBy(f.pages, f.mod), f.mod, f.rows) && Listing(f.rows) == f.pages
  {
    hide CopiedRows, ImportedRows, Listing, Contiguous;
    FreshPagesGrow(db, f.pages, f.mod);
    match r
    case CreateModule(_, _, _) =>
      EmptyTableOk(db.pageOwner + OwnedBy(f.pages, f.mod), f.mod);
      ListingElements(f.rows);
    case DuplicateModule(source, _, _, pages, urls, _) =>
      assert TableOk(db.pageOwner, source, db.modules[source].draft.rows);
      CopiedRowsContiguous(db.modules[source].draft.rows, pages, urls);
      ListingElements(f.rows);
    case ImportModule(_, _, _, pages, _) =>
      ImportedRowsContiguous(pages);
      ListingElements(f.rows);
  }

  lemma FoundingKeepsPages(db: Db, r: Request)
    requires PagesOk(db) && Founds(r) && Apply(db, r).Ok?
    ensures PagesOk(Apply(db, r).value)
  {
    hide Apply, IsFounding, TableOk, Owned, Grown, FreshPages, OwnedBy;
    var f := FoundingFrame(db, r);
    FoundedTableOk(db, r, f);
    FreshPagesGrow(db, f.pages, f.mod);
    GrowingKeepsTables(db, db.pageOwner + OwnedBy(f.pages, f.mod));
  }

  // --- Edited drafts -------------------------------------------------------------------------------

  /** The pages after an edit are the pages before it, or one more that was just issued, at contiguous positions. */
  lemma EditedRows(db: Db, r: Request)
    requires Edits(r) && r.mod in db.modules && Edited(db, r).Ok? && FreshPages(db, Issued(r))
    requires Contiguous(db.modules[r.mod].draft.rows) && forall p :: p in db.modules[r.mod].draft.rows ==> p in db.pageOwner
    ensures Contiguous(Edited(db, r).value.rows)
    ensures forall p :: p in Edited(db, r).value.rows ==> p in db.modules[r.mod].draft.rows || p in Issued(r)
  {
    hide Contiguous, Enumerates, Listing;
    var d, editable := db.modules[r.mod].draft, Editable(db, r.mod);
    match r
    case CreatePage(_, token, page, title, canonical) =>
      assert page in Issued(r);
      CreateKeepsPositions(d, editable, token, page, title, canonical);
    case ReorderPages(_, token, order) => ReorderKeepsPositions(d, editable, token, order);
    case UpdatePage(_, token, page, title, change) => UpdateKeepsPositions(d, editable, token, page, title, change);
    case DeletePage(_, token, page) => DeleteKeepsPositions(d, editable, token, page);
  }

  lemma EditedTableOk(db: Db, r: Request)
    requires PagesOk(db) && Edits(r) && Apply(db, r).Ok?
    ensures r.mod in db.modules && Edited(db, r).Ok?
    ensures TableOk(db.pageOwner + OwnedBy(Issued(r), r.mod), r.mod, Edited(db, r).value.rows)
  {
    hide Contiguous, Edited, Issued, FreshPages, OwnedBy, Apply;
    EditingFrame(db, r);
    assert TableOk(db.pageOwner, r.mod, db.modules[r.mod].draft.rows);
    EditedRows(db, r);
    FreshPagesGrow(db, Issued(r), r.mod);
  }

  lemma EditingKeepsPages(db: Db, r: Request)
    requires PagesOk(db) && Edits(r) && Apply(db, r).Ok?
    ensures PagesOk(Apply(db, r).value)
  {
    hide TableOk, Owned, Grown, FreshPages, OwnedBy, Edited, Issued, Apply;
    EditedTableOk(db, r);
    EditingFrame(db, r);
    FreshPagesGrow(db, Issued(r), r.mod);
    GrowingKeepsTables(db, db.pageOwner + OwnedBy(Issued(r), r.mod));
  }

  // --- Publishing and the rest ------------------------------------------------------------------------

  lemma PublishingKeepsPages(db: Db, m: ModuleId, kind: Kind, v: VersionId, now: Time)
    requires PagesOk(db) && AfterPublish(db, m, kind, v, now).Ok?
    ensures PagesOk(AfterPublish(db, m, kind, v, now).value)
  {
    hide Contiguous, Listing, Snapshot, SentBack, Highest, PageIds;
    var rows, db' := db.modules[m].draft.rows, AfterPublish(db, m, kind, v, now).value;
    assert TableOk(db.pageOwner, m, rows);
    Lifecycle.SnapshotLists(rows);
    ListingElements(rows);
    forall i | 0 <= i < |Listing(rows)| ensures Listing(rows)[i] in rows {
      assert Listing(rows)[i] in Listing(rows);
    }
    assert Owned(db.pageOwner, PageIds(db'.versions[v].pages), m);
  }

  /** Modules keep their draft pages or lose them all, versions stay or go: nothing new to own. */
  lemma OtherStepsKeepPages(db: Db, r: Request)
    requires PagesOk(db) && Apply(db, r).Ok? && !Founds(r) && !Edits(r) && !r.Publish?
    ensures PagesOk(Apply(db, r).value)
  {
    hide Contiguous, Listing, WithoutAssignmentsOf, AfterView, AfterSwitch, AfterComplete, HasProgress, Siblings,
        CurrentNumber, PageIds, Owned, TableOk;
    if Learns(r) {
      LearningFrame(db, r);
    } else if r.DeleteModule? {
      EmptyTableOk(db.pageOwner, r.mod);
    }
  }

  lemma StepKeepsPages(db: Db, r: Request)
    requires PagesOk(db) && Apply(db, r).Ok?
    ensures PagesOk(Apply(db, r).value)
  {
    hide PagesOk, AfterPublish;
    if Founds(r) {
      FoundingKeepsPages(db, r);
    } else if Edits(r) {
      EditingKeepsPages(db, r);
    } else if r.Publish? {
      PublishingKeepsPages(db, r.mod, r.kind, r.version, r.now);
    } else {
      OtherStepsKeepPages(db, r);
    }
  }
}
