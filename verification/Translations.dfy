/** Translation groups stay a well-formed partition of the modules. */
module Translations {
  import opened Domain
  import opened Drafts
  import opened Records
  import opened Frames

  /** Every module lies in an existing group, every group's primary is one of its own variants, and no two variants of a group share a language. */
  predicate GroupsOk(db: Db) {
    && (forall m :: m in db.modules ==> db.modules[m].group in db.groups)
    && (forall g :: g in db.groups ==> db.groups[g] in db.modules && db.modules[db.groups[g]].group == g)
    && (forall m, n :: m in db.modules && n in db.modules && m != n && db.modules[m].group == db.modules[n].group ==>
        db.modules[m].language != db.modules[n].language)
  }

  /** The same modules in the same groups and languages, and the same primaries. */
  predicate SamePartition(db: Db, db': Db) {
    && db'.groups == db.groups
    && db'.modules.Keys == db.modules.Keys
    && forall m :: m in db.modules ==> db'.modules[m].group == db.modules[m].group && db'.modules[m].language == db.modules[m].language
  }

  lemma OthersKeepThePartition(db: Db, r: Request)
    requires Apply(db, r).Ok? && !Founds(r) && !r.LinkVariant? && !r.SetPrimary?
    ensures SamePartition(db, Apply(db, r).value)
  {
    hide Apply;
    if Learns(r) {
      LearningFrame(db, r);
    } else if Edits(r) {
      EditingFrame(db, r);
    } else {
      RemainingStepsKeepThePartition(db, r);
    }
  }

  lemma RemainingStepsKeepThePartition(db: Db, r: Request)
    requires Apply(db, r).Ok? && !Learns(r) && !Edits(r) && !Founds(r) && !r.LinkVariant? && !r.SetPrimary?
    ensures SamePartition(db, Apply(db, r).value)
  {
    hide Highest, Snapshot, SentBack, CurrentNumber, WithoutAssignmentsOf;
  }

  lemma NewModuleKeepsGroups(db: Db, g: GroupId, m: ModuleId, language: Language, rows: PageTable, assets: set<AssetId>, pages: seq<PageId>)
    requires GroupsOk(db)
    ensures NewModule(db, g, m, language, rows, assets, pages).Ok? ==> GroupsOk(NewModule(db, g, m, language, rows, assets, pages).value)
  {
    hide FreshPages, OwnedBy;
  }

  lemma LinkingKeepsGroups(db: Db, g: GroupId, m: ModuleId)
    requires GroupsOk(db) && AfterLink(db, g, m).Ok?
    ensures GroupsOk(AfterLink(db, g, m).value)
  {
    hide WithoutAssignmentsOf, HasProgress;
    var left, db' := db.modules[m].group, AfterLink(db, g, m).value;
    forall n | n in db.modules && n != m ensures db.modules[n].group != left {
      assert n !in Siblings(db, left);
    }
    assert db'.groups.Keys == db.groups.Keys - {left};
  }

  lemma SettingThePrimaryKeepsGroups(db: Db, g: GroupId, m: ModuleId)
    requires GroupsOk(db) && AfterSetPrimary(db, g, m).Ok?
    ensures GroupsOk(AfterSetPrimary(db, g, m).value)
  {
  }

  lemma StepKeepsGroups(db: Db, r: Request)
    requires GroupsOk(db) && Apply(db, r).Ok?
    ensures GroupsOk(Apply(db, r).value)
  {
    hide GroupsOk, NewModule, AfterLink, AfterSetPrimary, SamePartition;
    if Founds(r) {
      var f := FoundingFrame(db, r);
      NewModuleKeepsGroups(db, f.group, f.mod, f.language, f.rows, f.assets, f.pages);
    } else if r.LinkVariant? {
      LinkingKeepsGroups(db, r.group, r.mod);
    } else if r.SetPrimary? {
      SettingThePrimaryKeepsGroups(db, r.group, r.mod);
    } else {
      OthersKeepThePartition(db, r);
      SamePartitionKeepsGroups(db, Apply(db, r).value);
    }
  }

  lemma SamePartitionKeepsGroups(db: Db, db': Db)
    requires GroupsOk(db) && SamePartition(db, db')
    ensures GroupsOk(db')
  {
  }

  /**
   * Linking moves exactly one module, into a group none of whose assignments, progress rows or primary it touches; the
   * only rows that disappear are the emptied group and its assignments. No progress row is lost anywhere.
   */
  lemma LinkingTouchesOnlyTheSource(db: Db, g: GroupId, m: ModuleId)
    requires GroupsOk(db) && AfterLink(db, g, m).Ok?
    ensures var left, db' := db.modules[m].group, AfterLink(db, g, m).value;
      && db'.progress == db.progress
      && db'.versions == db.versions
      && db'.groups == db.groups - {left} && left != g
      && (forall a :: a in db.assignments && db.assignments[a].group != left ==>
          a in db'.assignments && db'.assignments[a] == db.assignments[a])
      && (forall a :: a in db'.assignments ==>
          a in db.assignments && db'.assignments[a] == db.assignments[a] && db.assignments[a].group != left)
      && Siblings(db', g) == Siblings(db, g) + {m}
      && Siblings(db', left) == {}
      && (forall n :: n in db.modules && n != m ==> db'.modules[n] == db.modules[n])
  {
    var left, db' := db.modules[m].group, AfterLink(db, g, m).value;
    assert Siblings(db, left) == {m};
    forall n | n in db.modules && n != m ensures db.modules[n].group != left {
      assert n !in Siblings(db, left);
    }
    assert forall k :: k in db.progress ==> k.group != left;
    assert db'.progress == db.progress;
  }
}
