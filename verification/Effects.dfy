/** What the accepted requests of learners and administrators leave behind, told row by row and field by field. */
module Effects {
  import opened Common
  import opened Domain
  import opened Drafts
  import opened Records
  import opened Frames
  import opened Translations
  import opened Lifecycle
  import opened Evidence
  import opened Pages
  import Variants

  /** The pages that count as viewed; none before the first read. */
  function Viewed(db: Db, k: Key): seq<PageId> {
    if k in db.progress then db.progress[k].viewed else []
  }

  /** Only the row of `k` may differ, and it is there afterwards. */
  ghost predicate OnlyTouches(before: Db, after: Db, k: Key) {
    && after == before.(progress := after.progress)
    && k in after.progress
    && after.progress - {k} == before.progress - {k}
  }

  /** The completion on record, with its stamp. */
  function OnRecord(db: Db, k: Key): (Option<Time>, Option<nat>, Option<ModuleId>, Option<Time>) {
    if k in db.progress then
      var row := db.progress[k];
      (row.completedAt, row.completedVersion, row.completedModule, row.supersededAt)
    else (None, None, None, None)
  }

  // --- A page view ------------------------------------------------------------------------------------

  /** The page counts from then on, besides those that did; it is where the learner left off; the completion stays. */
  ghost predicate IsViewed(before: Db, after: Db, k: Key, p: PageId) {
    && OnlyTouches(before, after, k)
    && (forall q :: q in after.progress[k].viewed <==> q == p || q in Viewed(before, k))
    && after.progress[k].currentPage == Some(p)
    && OnRecord(after, k) == OnRecord(before, k)
    && k.user in before.users
    && (if k in before.progress then after.progress[k].mod == before.progress[k].mod
        else Resolve(before, k.user, k.group) == Some(after.progress[k].mod))
  }

  lemma ViewIsRecorded(db: Db, u: UserId, g: GroupId, p: PageId)
    requires AfterView(db, u, g, p).Ok?
    ensures IsViewed(db, AfterView(db, u, g, p).value, Key(u, g), p)
  {
    hide Resolve, PageIds;
  }

  // --- A switch of language ---------------------------------------------------------------------------

  /** Afterwards the learner is on a text in that language which they may read; if it is another one, they start it afresh. */
  ghost predicate IsSwitched(before: Db, after: Db, k: Key, language: Language) {
    && OnlyTouches(before, after, k)
    && k.user in after.users
    && var row := after.progress[k];
       && row.mod in after.modules && after.modules[row.mod].language == language
       && Readable(after, k.user, k.group, row.mod)
       && OnRecord(after, k) == OnRecord(before, k)
       && (if k in before.progress && before.progress[k].mod == row.mod then row == before.progress[k]
           else row.viewed == [] && row.currentPage == None)
  }

  lemma SwitchGivesTheLanguage(db: Db, u: UserId, g: GroupId, language: Language)
    requires AfterSwitch(db, u, g, language).Ok?
    ensures IsSwitched(db, AfterSwitch(db, u, g, language).value, Key(u, g), language)
  {
    hide MayRead;
    var db' := AfterSwitch(db, u, g, language).value;
    assert Variants.First(Speaking(ReadableVariants(db, u, g), language)) in Speaking(ReadableVariants(db, u, g), language);
    assert AssignedGroups(db', u) == AssignedGroups(db, u);
  }

  /** A switch is refused exactly when the learner may read no text of the material in that language. */
  lemma SwitchIsAcceptedIff(db: Db, u: UserId, g: GroupId, language: Language)
    requires LifecycleOk(db)
    ensures AfterSwitch(db, u, g, language).Ok? <==>
              u in db.users && exists m :: m in db.modules && Readable(db, u, g, m) && db.modules[m].language == language
  {
    hide MayRead, AssignedGroups, VersionRowsOk;
    if u in db.users {
      var targets := Speaking(ReadableVariants(db, u, g), language);
      if m :| m in db.modules && Readable(db, u, g, m) && db.modules[m].language == language {
        assert Variants.Variant(language, m) in targets;
      }
      if targets != {} {
        var m := Variants.First(targets).id;
        assert Variants.First(targets) in targets;
        assert RowOk(db.versions, m, db.modules[m]);
      }
    }
  }

  // --- A completion --------------------------------------------------------------------------------------

  /** The row carries the moment, the text and the number of the version given out, and no stamp; what was viewed stays. */
  ghost predicate IsCompleted(before: Db, after: Db, k: Key, m: ModuleId, now: Time) {
    && OnlyTouches(before, after, k)
    && CurrentNumberIs(before, m, OnRecord(after, k).1)
    && OnRecord(after, k) == (Some(now), OnRecord(after, k).1, Some(m), None)
    && after.progress[k].viewed == Viewed(before, k)
    && (k in before.progress ==> after.progress[k].mod == before.progress[k].mod)
    && (k in before.progress ==> after.progress[k].currentPage == before.progress[k].currentPage)
  }

  ghost predicate CurrentNumberIs(db: Db, m: ModuleId, number: Option<nat>) {
    && m in db.modules && db.modules[m].current.Some? && db.modules[m].current.value in db.versions
    && number == Some(db.versions[db.modules[m].current.value].number)
  }

  lemma CompletionIsRecorded(db: Db, u: UserId, g: GroupId, now: Time)
    requires AfterComplete(db, u, g, now).Ok?
    ensures u in db.users && Resolve(db, u, g).Some?
    ensures IsCompleted(db, AfterComplete(db, u, g, now).value, Key(u, g), Resolve(db, u, g).value, now)
  {
    hide Resolve, PageIds;
  }

  // --- Who may read ------------------------------------------------------------------------------------------

  /** Some assignment of the group names this person, or a team of theirs. */
  ghost predicate IsAssigned(db: Db, u: UserId, g: GroupId)
    requires u in db.users
  {
    exists a :: a in db.assignments && db.assignments[a].group == g &&
      (db.assignments[a].target == ToUser(u) || (exists t :: t in db.users[u].teams && db.assignments[a].target == ToTeam(t)))
  }

  lemma AssignedIff(db: Db, u: UserId, g: GroupId)
    requires u in db.users
    ensures g in AssignedGroups(db, u) <==> IsAssigned(db, u, g)
  {
    if g in AssignedGroups(db, u) {
      var a :| a in db.assignments && Names(db.assignments[a], u, db.users[u]) && db.assignments[a].group == g;
      assert db.assignments[a].target.ToTeam? ==> db.assignments[a].target == ToTeam(db.assignments[a].target.team);
    }
  }

  /**
   * The catalog flag of a text decides for everybody but authors and those assigned its material: once it is set they may
   * read it, as soon as it is published, and once it is cleared they may not. No other text is affected.
   */
  lemma CatalogDecidesTheRest(db: Db, m: ModuleId, visible: bool, u: UserId, g: GroupId, n: ModuleId)
    requires Apply(db, SetCatalogVisible(m, visible)).Ok? && u in db.users
    ensures var db' := Apply(db, SetCatalogVisible(m, visible)).value;
            && u in db'.users
            && (n != m ==> (Readable(db', u, g, n) <==> Readable(db, u, g, n)))
            && (Readable(db', u, g, m) <==>
                  && db'.modules[m].group == g && db'.modules[m].status.Published? && db'.modules[m].current.Some?
                  && (db.users[u].author || visible || IsAssigned(db, u, g)))
  {
    var db' := Apply(db, SetCatalogVisible(m, visible)).value;
    assert AssignedGroups(db', u) == AssignedGroups(db, u);
    AssignedIff(db, u, g);
  }

  // --- An assignment ---------------------------------------------------------------------------------------------

  predicate SaysWhatWasAsked(a: Assignment, g: GroupId, target: Target, due: Option<Day>, mandatory: bool, autoReminders: bool) {
    && a.group == g && a.target == target && a.due == due
    && (a.mandatory <==> mandatory) && (a.autoReminders <==> autoReminders)
  }

  /** The new row says what was asked for, about the module's whole group; every other row stays, and so does everything else. */
  lemma AssignmentIsStored(db: Db, id: AssignmentId, m: ModuleId, target: Target, due: Option<Day>, mandatory: bool, autoReminders: bool)
    requires AfterAssign(db, id, m, target, due, mandatory, autoReminders).Ok?
    ensures var db' := AfterAssign(db, id, m, target, due, mandatory, autoReminders).value;
            && id in db'.assignments && id !in db.assignments && m in db.modules
            && SaysWhatWasAsked(db'.assignments[id], db.modules[m].group, target, due, mandatory, autoReminders)
            && db'.assignments - {id} == db.assignments
            && db' == db.(assignments := db'.assignments)
  {
    var db' := AfterAssign(db, id, m, target, due, mandatory, autoReminders).value;
    assert (db'.assignments - {id}).Keys == db.assignments.Keys;
  }

  /** The same target, for the same material. */
  predicate SameOrder(a: Assignment, b: Assignment) {
    a.group == b.group && a.target == b.target
  }

  /** No material is assigned twice to the same person or the same team. */
  predicate AssignedOnce(assignments: map<AssignmentId, Assignment>) {
    forall a, b :: a in assignments && b in assignments && SameOrder(assignments[a], assignments[b]) ==> a == b
  }

  lemma StepAssignsOnce(db: Db, r: Request)
    requires Apply(db, r).Ok? && AssignedOnce(db.assignments)
    ensures AssignedOnce(Apply(db, r).value.assignments)
  {
    hide Highest, Snapshot, SentBack, Resolve, ReadableVariants, PageIds, CurrentVersion, Claimed, Listing, Renumbered;
    if Founds(r) {
      hide Apply;
      var f := FoundingFrame(db, r);
    } else if Learns(r) {
      hide Apply;
      LearningFrame(db, r);
    } else if Edits(r) {
      hide Apply;
      EditingFrame(db, r);
    } else if r.CreateAssignment? {
      hide Apply;
      AssigningOnce(db, r);
    }
  }

  lemma AssigningOnce(db: Db, r: Request)
    requires r.CreateAssignment? && Apply(db, r).Ok? && AssignedOnce(db.assignments)
    ensures AssignedOnce(Apply(db, r).value.assignments)
  {
  }

  /** And so in every reachable state. */
  lemma {:induction false} EveryRunAssignsOnce(requests: seq<Request>)
    ensures AssignedOnce(Run(EMPTY, requests).db.assignments)
  {
    hide Apply, EventOf, AssignedOnce;
    if requests == [] {
      assert AssignedOnce(EMPTY.db.assignments) by { NothingAssigned(); }
    } else {
      EveryRunAssignsOnce(requests[..|requests| - 1]);
      var w, r := Run(EMPTY, requests[..|requests| - 1]), requests[|requests| - 1];
      if Apply(w.db, r).Ok? {
        StepAssignsOnce(w.db, r);
      }
    }
  }

  lemma NothingAssigned()
    ensures AssignedOnce(EMPTY.db.assignments)
  {
  }

  // --- A publish ------------------------------------------------------------------------------------------------------

  /** The module is published, and gives out the new version; every other version and every other module is as it was. */
  lemma PublishingGivesItOut(db: Db, m: ModuleId, kind: Kind, v: VersionId, now: Time)
    requires AfterPublish(db, m, kind, v, now).Ok?
    ensures var db' := AfterPublish(db, m, kind, v, now).value;
            && m in db.modules && v !in db.versions && v in db'.versions
            && db'.modules == db.modules[m := db.modules[m].(status := Published, current := Some(v))]
            && db'.versions - {v} == db.versions
            && db'.versions[v].mod == m && db'.versions[v].kind == kind
            && db'.users == db.users && db'.groups == db.groups && db'.assignments == db.assignments
            && db'.progress.Keys == db.progress.Keys
            && (kind.Minor? ==> db'.progress == db.progress)
  {
    hide Highest, Snapshot;
    assert (AfterPublish(db, m, kind, v, now).value.versions - {v}).Keys == db.versions.Keys;
  }

  // --- The size of a draft ------------------------------------------------------------------------------------------

  ghost predicate DraftsFit(db: Db) {
    forall m :: m in db.modules ==> |db.modules[m].draft.rows| <= 200
  }

  lemma EditedFits(db: Db, r: Request)
    requires Edits(r) && r.mod in db.modules && Edited(db, r).Ok? && |db.modules[r.mod].draft.rows| <= 200
    ensures |Edited(db, r).value.rows| <= 200
  {
    hide Listing, Enumerates, Renumbered;
    var d, editable := db.modules[r.mod].draft, Editable(db, r.mod);
    match r
    case CreatePage(_, token, page, title, canonical) =>
      assert d.rows[page := PageRow(|d.rows|, title, canonical.value)].Keys == d.rows.Keys + {page};
    case ReorderPages(_, token, order) =>
      ReorderKeepsTexts(d, editable, token, order);
      SameCount(d.rows, Edited(db, r).value.rows, {});
    case UpdatePage(_, token, page, title, change) =>
      UpdateIsKept(d, editable, token, page, title, change);
      SameCount(d.rows, Edited(db, r).value.rows, {});
    case DeletePage(_, token, page) =>
      DeleteKeepsTexts(d, editable, token, page);
      SameCount(d.rows, Edited(db, r).value.rows, {page});
  }

  lemma SameCount(before: PageTable, after: PageTable, gone: set<PageId>)
    requires after.Keys == before.Keys - gone
    ensures |after| <= |before|
  {
    assert after.Keys <= before.Keys;
    SubsetCount(after.Keys, before.Keys);
  }

  lemma {:induction false} SubsetCount(a: set<PageId>, b: set<PageId>)
    requires a <= b
    ensures |a| <= |b|
  {
    if a != {} {
      var p :| p in a;
      SubsetCount(a - {p}, b - {p});
    }
  }

  lemma ListedCount(rows: PageTable, ids: seq<PageId>)
    requires Listing(rows) == ids
    ensures |rows| == |ids|
  {
  }

  lemma FoundedFits(db: Db, r: Request, f: Founding)
    requires PagesOk(db) && DraftsFit(db) && IsFounding(db, r, f) && FreshPages(db, f.pages)
    ensures |f.rows| <= 200
  {
    hide CopiedRows, ImportedRows, Listing, PagesOk;
    FoundedTableOk(db, r, f);
    ListedCount(f.rows, f.pages);
  }

  /** No draft ever holds more than two hundred pages. */
  lemma StepKeepsDraftsFitting(db: Db, r: Request)
    requires LifecycleOk(db) && PagesOk(db) && Apply(db, r).Ok? && DraftsFit(db)
    ensures DraftsFit(Apply(db, r).value)
  {
    hide Apply, IsFounding, FreshPages, OwnedBy, Edited, PagesOk, LifecycleOk;
    var db' := Apply(db, r).value;
    if Founds(r) {
      var f := FoundingFrame(db, r);
      assert FreshPages(db, f.pages) by { FoundingIsFresh(db, f); }
      FoundedFits(db, r, f);
    } else if Learns(r) {
      LearningFrame(db, r);
    } else if Edits(r) {
      EditingFrame(db, r);
      EditedFits(db, r);
    } else {
      OthersKeepDraftsFitting(db, r);
    }
  }

  lemma FoundingIsFresh(db: Db, f: Founding)
    requires NewModule(db, f.group, f.mod, f.language, f.rows, f.assets, f.pages).Ok?
    ensures FreshPages(db, f.pages)
  {
  }

  lemma OthersKeepDraftsFitting(db: Db, r: Request)
    requires Apply(db, r).Ok? && !Founds(r) && !Learns(r) && !Edits(r) && DraftsFit(db)
    ensures DraftsFit(Apply(db, r).value)
  {
    hide Highest, Snapshot, SentBack, CurrentNumber, WithoutAssignmentsOf, HasProgress, Siblings, DraftsFit;
    var db' := Apply(db, r).value;
    assert forall m :: m in db'.modules ==> m in db.modules && db'.modules[m].draft.rows.Keys <= db.modules[m].draft.rows.Keys;
    SmallerDraftsFit(db, db');
  }

  lemma SmallerDraftsFit(db: Db, db': Db)
    requires DraftsFit(db)
    requires forall m :: m in db'.modules ==> m in db.modules && db'.modules[m].draft.rows.Keys <= db.modules[m].draft.rows.Keys
    ensures DraftsFit(db')
  {
    forall m | m in db'.modules ensures |db'.modules[m].draft.rows| <= 200 {
      SubsetCount(db'.modules[m].draft.rows.Keys, db.modules[m].draft.rows.Keys);
    }
  }

  // --- A delete -----------------------------------------------------------------------------------------------------

  /** Deleting a text takes its own row's content, its versions and its material's assignments, and nothing of anything else. */
  lemma DeletingTakesOnlyItsOwn(db: Db, m: ModuleId)
    requires AfterDelete(db, m).Ok?
    ensures var db' := AfterDelete(db, m).value;
            && m in db.modules && m in db'.modules
            && db'.users == db.users && db'.groups == db.groups && db'.progress == db.progress
            && (forall n :: n != m ==> (n in db'.modules <==> n in db.modules) && (n in db.modules ==> db'.modules[n] == db.modules[n]))
            && db'.modules[m].status.Deleted?
            && db'.modules[m].group == db.modules[m].group && db'.modules[m].language == db.modules[m].language
            && (forall a :: a in db'.assignments <==> a in db.assignments && db.assignments[a].group != db.modules[m].group)
            && (forall a :: a in db'.assignments ==> db'.assignments[a] == db.assignments[a])
            && (forall v :: v in db'.versions <==> v in db.versions && db.versions[v].mod != m)
            && (forall v :: v in db'.versions ==> db'.versions[v] == db.versions[v])
  {
  }

  // --- A new module -----------------------------------------------------------------------------------------------

  /** A draft nobody has published, in a group of its own whose primary it is; all other modules and groups are as they were. */
  lemma FoundedIsADraft(db: Db, r: Request)
    requires Founds(r) && Apply(db, r).Ok?
    ensures var db' := Apply(db, r).value;
            && r.mod !in db.modules && r.mod in db'.modules && db'.modules - {r.mod} == db.modules
            && r.group !in db.groups && db'.groups == db.groups[r.group := r.mod]
            && IsNewDraft(db'.modules[r.mod], r.group)
            && (!r.DuplicateModule? ==> db'.modules[r.mod].language == r.language)
            && (r.DuplicateModule? ==> r.source in db.modules && db'.modules[r.mod].language == db.modules[r.source].language)
            && db'.modules[r.mod].assets == if r.CreateModule? then {} else r.assets
  {
    hide CopiedRows, ImportedRows, ImportedIds, FreshPages, OwnedBy, Apply;
    var f := FoundingFrame(db, r);
    var db' := Apply(db, r).value;
    assert (db'.modules - {r.mod}).Keys == db.modules.Keys;
  }

  predicate IsNewDraft(row: Module, group: GroupId) {
    && row.group == group && row.status == InDraft && row.current.None? && !row.visible
    && row.draft.revision == 1 && row.deletedVersion.None?
  }

  /** Uploading a file adds it to its module's, and removing one takes that one away; nothing else changes. */
  lemma AssetsAreKept(db: Db, r: Request)
    requires (r.AddAsset? || r.RemoveAsset?) && Apply(db, r).Ok?
    ensures var db' := Apply(db, r).value;
            && r.mod in db.modules && db'.modules.Keys == db.modules.Keys
            && (forall a :: a in db'.modules[r.mod].assets <==> if a == r.asset then r.AddAsset? else a in db.modules[r.mod].assets)
            && db'.modules[r.mod] == db.modules[r.mod].(assets := db'.modules[r.mod].assets)
            && (forall n :: n in db.modules && n != r.mod ==> db'.modules[n] == db.modules[n])
            && db' == db.(modules := db'.modules)
  {
  }

  // --- An import ----------------------------------------------------------------------------------------------------

  /** An imported module has the archive's pages, each in its place under its own id with its title and its body. */
  lemma ImportedPageForPage(db: Db, group: GroupId, m: ModuleId, language: Language, pages: seq<ImportedPage>, assets: set<AssetId>, i: nat)
    requires AfterImport(db, group, m, language, pages, assets).Ok? && i < |pages|
    ensures var db' := AfterImport(db, group, m, language, pages, assets).value;
            && m in db'.modules && m !in db.modules
            && var row := db'.modules[m];
               && row.group == group && row.language == language && row.status == InDraft && row.current.None? && !row.visible
               && row.assets == assets && row.draft.revision == 1
               && pages[i].id in row.draft.rows
               && row.draft.rows[pages[i].id] == PageRow(i, pages[i].title, pages[i].body)
  {
    var ids := ImportedIds(pages);
    assert ids[i] in ids && ids[IndexOf(ids, ids[i])] == ids[i];
  }
}
