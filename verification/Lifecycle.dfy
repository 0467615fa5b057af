/** A module's life: drafts, numbered frozen versions, and a terminal tombstone. */
module Lifecycle {
  import opened Common
  import opened Domain
  import opened Drafts
  import opened Records
  import opened Frames

  predicate HasNumber(versions: map<VersionId, Version>, m: ModuleId, k: nat) {
    exists v :: v in versions && versions[v].mod == m && versions[v].number == k
  }

  predicate HasNoVersion(versions: map<VersionId, Version>, m: ModuleId) {
    forall v :: v in versions ==> versions[v].mod != m
  }

  /** Version `c` belongs to `m`, is its highest, and every number below it is taken. */
  predicate IsTop(versions: map<VersionId, Version>, m: ModuleId, c: VersionId) {
    && c in versions && versions[c].mod == m
    && (forall v :: v in versions && versions[v].mod == m ==> versions[v].number <= versions[c].number)
    && (forall k: nat :: 1 <= k <= versions[c].number ==> HasNumber(versions, m, k))
  }

  predicate RowOk(versions: map<VersionId, Version>, m: ModuleId, row: Module) {
    if row.status.Deleted? then
      row.current.None? && !row.visible && row.draft.rows == map[] && row.assets == {} && HasNoVersion(versions, m)
    else
      && row.deletedVersion.None?
      && (row.status.Published? ==> row.current.Some?)
      && (row.current.None? ==> HasNoVersion(versions, m))
      && (row.current.Some? ==> IsTop(versions, m, row.current.value))
  }

  predicate VersionRowsOk(db: Db) {
    && (forall v :: v in db.versions ==> db.versions[v].mod in db.modules && db.versions[v].number >= 1 && db.versions[v].pages != [])
    && (forall v, w :: v in db.versions && w in db.versions && db.versions[v].mod == db.versions[w].mod && db.versions[v].number == db.versions[w].number ==> v == w)
  }

  predicate LifecycleOk(db: Db) {
    VersionRowsOk(db) && forall m :: m in db.modules ==> RowOk(db.versions, m, db.modules[m])
  }

  /** The number of versions a module has, or had when it was deleted. */
  function Top(db: Db, m: ModuleId): nat
    requires m in db.modules
  {
    var row := db.modules[m];
    if row.status.Deleted? then (if row.deletedVersion.Some? then row.deletedVersion.value else 0)
    else if row.current.Some? && row.current.value in db.versions then db.versions[row.current.value].number
    else 0
  }

  /** A live module's versions are exactly 1..n, each number once, with non-empty pages, and learners are given number n. */
  lemma VersionsAreOneToN(db: Db, m: ModuleId, k: nat)
    requires LifecycleOk(db) && m in db.modules && !db.modules[m].status.Deleted?
    ensures HasNumber(db.versions, m, k) <==> 1 <= k <= Top(db, m)
    ensures Highest(db.versions, m) == Top(db, m)
    ensures CurrentNumber(db, m) == if Top(db, m) == 0 then None else Some(Top(db, m))
  {
    assert RowOk(db.versions, m, db.modules[m]);
  }

  // --- Steps that leave versions alone -----------------------------------------------------

  /** A change of one row that no version depends on: tombstones do not change, nothing becomes published or deleted. */
  predicate Gentle(row: Module, row': Module) {
    && row'.current == row.current
    && row'.deletedVersion == row.deletedVersion
    && (row.status.Deleted? ==> row' == row)
    && (!row.status.Deleted? ==> !row'.status.Deleted? && (row'.status.Published? ==> row.status.Published?))
  }

  predicate GentleStep(db: Db, db': Db) {
    && db'.versions == db.versions
    && db'.modules.Keys == db.modules.Keys
    && forall m :: m in db.modules ==> Gentle(db.modules[m], db'.modules[m])
  }

  lemma GentleStepsKeepLifecycle(db: Db, db': Db)
    requires LifecycleOk(db) && GentleStep(db, db')
    ensures LifecycleOk(db')
  {
    forall m | m in db'.modules ensures RowOk(db'.versions, m, db'.modules[m]) {
      assert RowOk(db.versions, m, db.modules[m]);
      assert Gentle(db.modules[m], db'.modules[m]);
    }
  }

  lemma MostStepsAreGentle(db: Db, r: Request)
    requires LifecycleOk(db) && Apply(db, r).Ok?
    requires !Founds(r) && !r.Publish? && !r.DeleteModule?
    ensures GentleStep(db, Apply(db, r).value)
  {
    hide Apply, VersionRowsOk, RowOk;
    if Learns(r) {
      LearningFrame(db, r);
    } else if Edits(r) {
      EditingFrame(db, r);
    } else {
      RemainingStepsAreGentle(db, r);
    }
  }

  lemma RemainingStepsAreGentle(db: Db, r: Request)
    requires LifecycleOk(db) && Apply(db, r).Ok?
    requires !Learns(r) && !Edits(r) && !Founds(r) && !r.Publish? && !r.DeleteModule?
    ensures GentleStep(db, Apply(db, r).value)
  {
    hide WithoutAssignmentsOf, VersionRowsOk, IsTop, HasNoVersion, HasProgress, Siblings;
    if r.RemoveAsset? {
      assert RowOk(db.versions, r.mod, db.modules[r.mod]);
    }
  }

  // --- Founding, publishing, deleting ---------------------------------------------------------

  lemma FoundingKeepsLifecycle(db: Db, g: GroupId, m: ModuleId, language: Language, rows: PageTable,
        assets: set<AssetId>, pages: seq<PageId>)
    requires LifecycleOk(db) && NewModule(db, g, m, language, rows, assets, pages).Ok?
    ensures LifecycleOk(NewModule(db, g, m, language, rows, assets, pages).value)
  {
    hide FreshPages, OwnedBy;
    var db' := NewModule(db, g, m, language, rows, assets, pages).value;
    forall n | n in db'.modules ensures RowOk(db'.versions, n, db'.modules[n]) {
      if n != m {
        assert RowOk(db.versions, n, db.modules[n]);
      }
    }
  }

  lemma SnapshotLists(rows: PageTable)
    ensures PageIds(Snapshot(rows)) == Listing(rows)
    ensures rows != map[] ==> Snapshot(rows) != []
  {
  }

  /** The version rows after a publish: one more, with the next number. */
  lemma PublishingNumbersOn(versions: map<VersionId, Version>, m: ModuleId, v: VersionId, version: Version, n: nat)
    requires v !in versions && version.mod == m && version.number == n + 1
    requires forall w :: w in versions && versions[w].mod == m ==> versions[w].number <= n
    requires forall k: nat :: 1 <= k <= n ==> HasNumber(versions, m, k)
    ensures IsTop(versions[v := version], m, v)
    ensures forall m', c :: m' != m && IsTop(versions, m', c) ==> IsTop(versions[v := version], m', c)
  {
    var after := versions[v := version];
    forall k: nat | 1 <= k <= n + 1 ensures HasNumber(after, m, k) {
      if k == n + 1 {
        assert after[v].mod == m && after[v].number == k;
      } else {
        assert HasNumber(versions, m, k);
        var w :| w in versions && versions[w].mod == m && versions[w].number == k;
        assert after[w] == versions[w];
      }
    }
    forall m', c | m' != m && IsTop(versions, m', c) ensures IsTop(after, m', c) {
      forall k: nat | 1 <= k <= after[c].number ensures HasNumber(after, m', k) {
        assert HasNumber(versions, m', k);
        var w :| w in versions && versions[w].mod == m' && versions[w].number == k;
        assert after[w] == versions[w];
      }
    }
  }

  lemma PublishedRowsOk(db: Db, m: ModuleId, kind: Kind, v: VersionId, now: Time)
    requires VersionRowsOk(db) && AfterPublish(db, m, kind, v, now).Ok?
    ensures VersionRowsOk(AfterPublish(db, m, kind, v, now).value)
  {
    hide SentBack, Snapshot, Listing;
    SnapshotLists(db.modules[m].draft.rows);
  }

  lemma PublishingKeepsLifecycle(db: Db, m: ModuleId, kind: Kind, v: VersionId, now: Time)
    requires LifecycleOk(db) && AfterPublish(db, m, kind, v, now).Ok?
    ensures LifecycleOk(AfterPublish(db, m, kind, v, now).value)
  {
    hide SentBack, Highest, Snapshot, IsTop, Listing, VersionRowsOk;
    var row, db' := db.modules[m], AfterPublish(db, m, kind, v, now).value;
    assert RowOk(db.versions, m, row);
    NumbersSoFar(db, m);
    PublishingNumbersOn(db.versions, m, v, db'.versions[v], Highest(db.versions, m));
    PublishedRowsOk(db, m, kind, v, now);
    forall n | n in db'.modules ensures RowOk(db'.versions, n, db'.modules[n]) {
      if n != m {
        assert RowOk(db.versions, n, db.modules[n]);
      }
    }
  }

  /** What `highest` is before a publish: every number up to it is taken, and none above. */
  lemma NumbersSoFar(db: Db, m: ModuleId)
    requires LifecycleOk(db) && m in db.modules && !db.modules[m].status.Deleted?
    ensures var n := Highest(db.versions, m);
            && (forall w :: w in db.versions && db.versions[w].mod == m ==> db.versions[w].number <= n)
            && (forall k: nat :: 1 <= k <= n ==> HasNumber(db.versions, m, k))
  {
    forall k: nat ensures HasNumber(db.versions, m, k) <==> 1 <= k <= Highest(db.versions, m) {
      VersionsAreOneToN(db, m, k);
    }
  }

  lemma DeletingKeepsLifecycle(db: Db, m: ModuleId)
    requires LifecycleOk(db) && AfterDelete(db, m).Ok?
    ensures LifecycleOk(AfterDelete(db, m).value)
  {
    hide WithoutAssignmentsOf, CurrentNumber;
    var db' := AfterDelete(db, m).value;
    forall n | n in db'.modules ensures RowOk(db'.versions, n, db'.modules[n]) {
      if n != m {
        assert RowOk(db.versions, n, db.modules[n]);
        if db.modules[n].current.Some? && !db.modules[n].status.Deleted? {
          DeletingElsewhereKeepsTop(db, m, n, db.modules[n].current.value);
        }
      }
    }
  }

  lemma DeletingElsewhereKeepsTop(db: Db, m: ModuleId, n: ModuleId, c: VersionId)
    requires AfterDelete(db, m).Ok? && n != m && IsTop(db.versions, n, c)
    ensures IsTop(AfterDelete(db, m).value.versions, n, c)
  {
    hide WithoutAssignmentsOf, Tombstone;
    var after := AfterDelete(db, m).value.versions;
    forall k: nat | 1 <= k <= after[c].number ensures HasNumber(after, n, k) {
      assert HasNumber(db.versions, n, k);
      var w :| w in db.versions && db.versions[w].mod == n && db.versions[w].number == k;
      assert after[w] == db.versions[w];
    }
  }

  lemma StepKeepsLifecycle(db: Db, r: Request)
    requires LifecycleOk(db) && Apply(db, r).Ok?
    ensures LifecycleOk(Apply(db, r).value)
  {
    hide LifecycleOk, NewModule, AfterPublish, AfterDelete, GentleStep;
    if Founds(r) {
      var f := FoundingFrame(db, r);
      FoundingKeepsLifecycle(db, f.group, f.mod, f.language, f.rows, f.assets, f.pages);
    } else if r.Publish? {
      PublishingKeepsLifecycle(db, r.mod, r.kind, r.version, r.now);
    } else if r.DeleteModule? {
      DeletingKeepsLifecycle(db, r.mod);
    } else {
      MostStepsAreGentle(db, r);
      GentleStepsKeepLifecycle(db, Apply(db, r).value);
    }
  }

  // --- Versions are frozen, tombstones absorb -----------------------------------------------------

  /** No request changes a version row; only deleting its module removes it. */
  lemma VersionsAreFrozen(db: Db, r: Request, v: VersionId)
    requires LifecycleOk(db) && Apply(db, r).Ok? && v in db.versions
    ensures v in Apply(db, r).value.versions <==> r != DeleteModule(db.versions[v].mod)
    ensures v in Apply(db, r).value.versions ==> Apply(db, r).value.versions[v] == db.versions[v]
  {
    hide LifecycleOk, Highest, Snapshot, SentBack, WithoutAssignmentsOf, Tombstone, FreshPages, OwnedBy, CopiedRows,
        ImportedRows, ImportedIds;
    if Founds(r) {
      var f := FoundingFrame(db, r);
    } else if !r.Publish? && !r.DeleteModule? {
      MostStepsAreGentle(db, r);
    }
  }

  /** The row of a deleted module never changes again. */
  lemma TombstonesAbsorb(db: Db, r: Request, m: ModuleId)
    requires LifecycleOk(db) && Apply(db, r).Ok? && m in db.modules && db.modules[m].status.Deleted?
    ensures m in Apply(db, r).value.modules && Apply(db, r).value.modules[m] == db.modules[m]
  {
    hide LifecycleOk, Highest, Snapshot, SentBack, WithoutAssignmentsOf, Tombstone, FreshPages, OwnedBy, CopiedRows,
        ImportedRows, ImportedIds;
    if Founds(r) {
      var f := FoundingFrame(db, r);
    } else if !r.Publish? && !r.DeleteModule? {
      MostStepsAreGentle(db, r);
      assert Gentle(db.modules[m], Apply(db, r).value.modules[m]);
    }
  }

  /** Deleting leaves a tombstone that remembers the number it had reached, and nothing of the material. */
  lemma DeletionRemembersTheNumber(db: Db, m: ModuleId)
    requires LifecycleOk(db) && AfterDelete(db, m).Ok?
    ensures var db' := AfterDelete(db, m).value;
      && db'.modules[m].status.Deleted?
      && db'.modules[m].deletedVersion == (if Top(db, m) == 0 then None else Some(Top(db, m)))
      && Top(db', m) == Top(db, m)
      && HasNoVersion(db'.versions, m)
      && db'.modules[m].draft.rows == map[] && db'.modules[m].assets == {} && !db'.modules[m].visible
      && db'.progress == db.progress
      && forall a :: a in db'.assignments ==> db'.assignments[a].group != db.modules[m].group
  {
    VersionsAreOneToN(db, m, 0);
  }

  /** A page stands in a version at the place it has in the draft, under its id and with its title and body. */
  predicate Shows(pages: seq<SnapshotPage>, p: PageId, row: PageRow) {
    row.position < |pages| && pages[row.position] == SnapshotPage(p, row.position, row.title, row.body)
  }

  /** Publishing freezes the draft as it stands: the new version has one page for each draft page, in the draft's order. */
  lemma PublishedVersionShowsTheDraft(db: Db, m: ModuleId, kind: Kind, v: VersionId, now: Time)
    requires AfterPublish(db, m, kind, v, now).Ok? && Contiguous(db.modules[m].draft.rows)
    ensures var rows, version := db.modules[m].draft.rows, AfterPublish(db, m, kind, v, now).value.versions[v];
            && version.mod == m && version.kind == kind
            && |version.pages| == |rows|
            && forall p :: p in rows ==> Shows(version.pages, p, rows[p])
  {
    hide Highest, SentBack, Listing;
    var rows := db.modules[m].draft.rows;
    ListingElements(rows);
    forall p | p in rows ensures Shows(Snapshot(rows), p, rows[p]) {
      var i :| 0 <= i < |Listing(rows)| && Listing(rows)[i] == p;
      assert rows[p].position == i;
    }
  }

  // --- Assigning after a delete -------------------------------------------------------------------

  predicate IsNobody(db: Db, target: Target) {
    target.ToUser? && (target.user !in db.users || db.users[target.user].erased)
  }

  /** A live variant of the same material, other than the deleted module itself. */
  predicate HasLiveSibling(db: Db, m: ModuleId)
    requires m in db.modules
  {
    exists n :: n in db.modules && n != m && db.modules[n].group == db.modules[m].group && !db.modules[n].status.Deleted?
  }

  /** Some variant of this group can be named in an assignment of its material to this target. */
  predicate Assignable(db: Db, g: GroupId, id: AssignmentId, target: Target, due: Option<Day>, mandatory: bool, auto: bool) {
    exists n :: n in db.modules && db.modules[n].group == g && AfterAssign(db, id, n, target, due, mandatory, auto).Ok?
  }

  /**
   * Deleting a module withdraws every assignment of its material, but the material can be assigned anew, to anybody, exactly
   * when a live sibling is left.
   */
  lemma MaterialIsAssignableAgainIff(db: Db, m: ModuleId, id: AssignmentId, target: Target, due: Option<Day>, mandatory: bool, auto: bool)
    requires AfterDelete(db, m).Ok? && id !in db.assignments && !IsNobody(db, target)
    ensures Assignable(AfterDelete(db, m).value, db.modules[m].group, id, target, due, mandatory, auto) <==> HasLiveSibling(db, m)
    ensures forall a :: a in AfterDelete(db, m).value.assignments ==> AfterDelete(db, m).value.assignments[a].group != db.modules[m].group
  {
    var db', g := AfterDelete(db, m).value, db.modules[m].group;
    if n :| n in db.modules && n != m && db.modules[n].group == g && !db.modules[n].status.Deleted? {
      assert n in db'.modules && db'.modules[n] == db.modules[n];
      assert AfterAssign(db', id, n, target, due, mandatory, auto).Ok?;
    }
  }
}
