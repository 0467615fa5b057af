/** What authors write stands until somebody writes over it, and is what gets published. */
module Writing {
  import opened Common
  import opened Domain
  import opened Documents
  import opened Drafts
  import opened Records
  import opened Frames
  import opened Lifecycle
  import opened Evidence
  import opened Effects
  import opened Pages
  import opened Histories
  import opened Runs

  /** Does this request write over this page or take it away? */
  predicate WritesOver(r: Request, m: ModuleId, p: PageId) {
    || (r.UpdatePage? && r.mod == m && r.page == p)
    || (r.DeletePage? && r.mod == m && r.page == p)
    || r == DeleteModule(m)
  }

  /** The draft of this module has this page, with this title and this body. */
  predicate HasText(db: Db, m: ModuleId, p: PageId, title: string, body: Json) {
    && m in db.modules && p in db.modules[m].draft.rows
    && db.modules[m].draft.rows[p].title == title && db.modules[m].draft.rows[p].body == body
  }

  lemma EditsSpareOtherPages(db: Db, r: Request, p: PageId)
    requires Edits(r) && r.mod in db.modules && Edited(db, r).Ok? && p in db.modules[r.mod].draft.rows
    requires !WritesOver(r, r.mod, p) && (r.CreatePage? ==> r.page != p)
    ensures p in Edited(db, r).value.rows && SameText(db.modules[r.mod].draft.rows[p], Edited(db, r).value.rows[p])
  {
    hide Listing, Renumbered, Enumerates;
    var d, editable := db.modules[r.mod].draft, Editable(db, r.mod);
    match r
    case CreatePage(_, token, page, title, canonical) => CreateIsKept(d, editable, token, page, title, canonical);
    case ReorderPages(_, token, order) => ReorderKeepsTexts(d, editable, token, order);
    case UpdatePage(_, token, page, title, change) => UpdateIsKept(d, editable, token, page, title, change);
    case DeletePage(_, token, page) => DeleteKeepsTexts(d, editable, token, page);
  }

  lemma NewPagesAreNew(db: Db, m: ModuleId, p: PageId, issued: seq<PageId>)
    requires PagesOk(db) && m in db.modules && p in db.modules[m].draft.rows && FreshPages(db, issued)
    ensures p !in issued
  {
    hide Contiguous;
    assert TableOk(db.pageOwner, m, db.modules[m].draft.rows);
  }

  /** Every other request leaves the page its title and its body. */
  lemma TextStays(db: Db, r: Request, m: ModuleId, p: PageId, title: string, body: Json)
    requires DbOk(db) && PagesOk(db) && Apply(db, r).Ok? && HasText(db, m, p, title, body) && !WritesOver(r, m, p)
    ensures HasText(Apply(db, r).value, m, p, title, body)
  {
    hide Apply, DbOk, PagesOk, Edited, FreshPages, OwnedBy, LifecycleOk;
    LifecycleHolds(db);
    DraftStep(db, r, m);
    if Edits(r) && r.mod == m {
      EditingFrame(db, r);
      NewPagesAreNew(db, m, p, Issued(r));
      EditsSpareOtherPages(db, r, p);
    }
  }

  lemma LifecycleHolds(db: Db)
    requires DbOk(db)
    ensures LifecycleOk(db)
  {
  }

  /** Nobody writes over this page in this run, or tries to with success. */
  ghost predicate LeftAlone(w: World, requests: seq<Request>, m: ModuleId, p: PageId) {
    forall i: nat :: i < |requests| && Accepted(w, requests, i) ==> !WritesOver(requests[i], m, p)
  }

  /** What a page says, it says until an accepted edit of that very page, its deletion, or its module's. */
  lemma {:induction false} TextStands(w: World, requests: seq<Request>, m: ModuleId, p: PageId, title: string, body: Json)
    requires WorldOk(w) && HasText(w.db, m, p, title, body) && LeftAlone(w, requests, m, p)
    ensures WorldOk(Run(w, requests)) && HasText(Run(w, requests).db, m, p, title, body)
    decreases |requests|
  {
    hide WorldOk, Apply, EventOf, HasText, WritesOver, Before;
    if requests != [] {
      var front, n, r := requests[..|requests| - 1], |requests| - 1, requests[|requests| - 1];
      FrontOfRun(w, requests);
      assert LeftAlone(w, front, m, p) by {
        forall i: nat | i < |front| && Accepted(w, front, i) ensures !WritesOver(front[i], m, p) {
          assert Accepted(w, requests, i);
        }
      }
      TextStands(w, front, m, p, title, body);
      var before := Run(w, front);
      StepKeepsWorld(before, r);
      if Apply(before.db, r).Ok? {
        assert Accepted(w, requests, n);
        WorldHasPages(before);
        TextStays(before.db, r, m, p, title, body);
      }
    }
  }

  lemma WorldHasPages(w: World)
    requires WorldOk(w)
    ensures DbOk(w.db) && PagesOk(w.db)
  {
  }

  /** What an accepted edit sends is written at once: to the new page, or to the page named. */
  lemma AcceptedEditIsWritten(db: Db, r: Request)
    requires Apply(db, r).Ok? && (r.CreatePage? || r.UpdatePage?)
    ensures r.mod in Apply(db, r).value.modules && r.page in Apply(db, r).value.modules[r.mod].draft.rows
    ensures var row := Apply(db, r).value.modules[r.mod].draft.rows[r.page];
            && (r.CreatePage? ==> row.title == r.title && r.canonical == Some(row.body))
            && (r.UpdatePage? ==>
                  && r.mod in db.modules && r.page in db.modules[r.mod].draft.rows
                  && IsEdited(db.modules[r.mod].draft.rows, Apply(db, r).value.modules[r.mod].draft.rows, r.page, r.newTitle, r.change))
  {
    hide Apply;
    EditingFrame(db, r);
    var d, editable := db.modules[r.mod].draft, Editable(db, r.mod);
    if r.CreatePage? {
      CreateIsKept(d, editable, r.token, r.page, r.title, r.canonical);
    } else {
      UpdateIsKept(d, editable, r.token, r.page, r.newTitle, r.change);
    }
  }

  /** A page of this id, title and body is among these. */
  predicate ShowsText(pages: seq<SnapshotPage>, p: PageId, title: string, body: Json) {
    exists i :: 0 <= i < |pages| && pages[i].id == p && pages[i].title == title && pages[i].body == body
  }

  /**
   * What an accepted update sends is in the draft for as long as nobody writes over it, and in the version that a publish
   * then makes of it: under the page's id, with the title and the body sent.
   */
  lemma EditIsPublished(w: World, edit: Request, between: seq<Request>, publish: Request, title: string, body: Json)
    requires WorldOk(w) && edit.UpdatePage? && Apply(w.db, edit).Ok?
    requires edit.newTitle == Some(title) && edit.change == Replace(body)
    requires LeftAlone(Next(w, edit), between, edit.mod, edit.page)
    requires publish.Publish? && publish.mod == edit.mod && Apply(Run(Next(w, edit), between).db, publish).Ok?
    ensures HasText(Run(Next(w, edit), between).db, edit.mod, edit.page, title, body)
    ensures var db := Apply(Run(Next(w, edit), between).db, publish).value;
            && edit.mod in db.modules && db.modules[edit.mod].current == Some(publish.version) && publish.version in db.versions
            && ShowsText(db.versions[publish.version].pages, edit.page, title, body)
  {
    hide WorldOk, Apply, EventOf, LeftAlone, Run, IsEdited;
    AcceptedEditIsWritten(w.db, edit);
    assert HasText(Next(w, edit).db, edit.mod, edit.page, title, body) by { EditedText(w.db, edit, title, body); }
    StepKeepsWorld(w, edit);
    TextStands(Next(w, edit), between, edit.mod, edit.page, title, body);
    var before := Run(Next(w, edit), between).db;
    WorldHasPages(Run(Next(w, edit), between));
    PublishShowsText(before, publish, edit.page, title, body);
  }

  lemma EditedText(db: Db, edit: Request, title: string, body: Json)
    requires edit.UpdatePage? && Apply(db, edit).Ok? && edit.newTitle == Some(title) && edit.change == Replace(body)
    ensures HasText(Apply(db, edit).value, edit.mod, edit.page, title, body)
  {
    hide Apply;
    AcceptedEditIsWritten(db, edit);
  }

  lemma PublishShowsText(db: Db, publish: Request, p: PageId, title: string, body: Json)
    requires PagesOk(db) && publish.Publish? && Apply(db, publish).Ok? && HasText(db, publish.mod, p, title, body)
    ensures var db' := Apply(db, publish).value;
            && publish.mod in db'.modules && db'.modules[publish.mod].current == Some(publish.version) && publish.version in db'.versions
            && ShowsText(db'.versions[publish.version].pages, p, title, body)
  {
    hide Highest, Snapshot, SentBack, Contiguous;
    assert TableOk(db.pageOwner, publish.mod, db.modules[publish.mod].draft.rows);
    PublishedVersionShowsTheDraft(db, publish.mod, publish.kind, publish.version, publish.now);
  }

  // --- How long a draft gets ----------------------------------------------------------------------------------

  /** In no reachable state does a draft hold more than two hundred pages. */
  lemma {:induction false} EveryDraftFits(requests: seq<Request>)
    ensures DraftsFit(Run(EMPTY, requests).db)
  {
    hide Apply, EventOf, DraftsFit, WorldOk;
    if requests == [] {
      assert DraftsFit(EMPTY.db) by { NoDrafts(); }
    } else {
      var front := requests[..|requests| - 1];
      EveryDraftFits(front);
      EveryRunIsOk(front);
      var w, r := Run(EMPTY, front), requests[|requests| - 1];
      if Apply(w.db, r).Ok? {
        WorldHasPages(w);
        LifecycleHolds(w.db);
        StepKeepsDraftsFitting(w.db, r);
      }
    }
  }

  lemma NoDrafts()
    ensures DraftsFit(EMPTY.db)
  {
  }
}
