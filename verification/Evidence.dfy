/** Completion evidence: it is never lost, and it keeps naming a version that exists or existed. */
module Evidence {
  import opened Common
  import opened Domain
  import opened Drafts
  import opened Records
  import opened Frames
  import opened Lifecycle
  import opened Translations
  import Variants

  /** The text being read and the text completed are variants of the row's own group, and the completed number is one that module reached. */
  predicate ProgressOk(db: Db, k: Key, row: Progress) {
    && k.group in db.groups
    && row.mod in db.modules && db.modules[row.mod].group == k.group
    && (row.completedAt.Some? <==> row.completedVersion.Some?)
    && (row.completedAt.Some? <==> row.completedModule.Some?)
    && (row.supersededAt.Some? ==> row.completedAt.Some?)
    && (row.completedModule.Some? ==>
          && row.completedModule.value in db.modules
          && db.modules[row.completedModule.value].group == k.group
          && 1 <= row.completedVersion.value <= Top(db, row.completedModule.value))
  }

  predicate EvidenceOk(db: Db) {
    forall k :: k in db.progress ==> ProgressOk(db, k, db.progress[k])
  }

  predicate DbOk(db: Db) {
    GroupsOk(db) && LifecycleOk(db) && EvidenceOk(db)
  }

  // --- The highest number a module has reached never falls -----------------------------------

  lemma TopNeverFalls(db: Db, r: Request, m: ModuleId)
    requires LifecycleOk(db) && Apply(db, r).Ok? && m in db.modules
    ensures m in Apply(db, r).value.modules
    ensures Top(Apply(db, r).value, m) == if r.Publish? && r.mod == m then Top(db, m) + 1 else Top(db, m)
  {
    hide LifecycleOk, Highest, Snapshot, SentBack, WithoutAssignmentsOf, FreshPages, OwnedBy, AfterView, AfterSwitch,
        AfterComplete, WithDraft;
    var db' := Apply(db, r).value;
    if Founds(r) {
      var f := FoundingFrame(db, r);
      TopStays(db, db', m);
    } else if r.Publish? {
      PublishingRaisesTop(db, r.mod, r.kind, r.version, r.now, m);
    } else if r.DeleteModule? {
      DeletingKeepsTop(db, r.mod, m);
    } else {
      MostStepsAreGentle(db, r);
      TopStays(db, db', m);
    }
  }

  lemma TopStays(db: Db, db': Db, m: ModuleId)
    requires m in db.modules && m in db'.modules && db'.versions == db.versions && Gentle(db.modules[m], db'.modules[m])
    ensures Top(db', m) == Top(db, m)
  {
  }

  lemma PublishingRaisesTop(db: Db, p: ModuleId, kind: Kind, v: VersionId, now: Time, m: ModuleId)
    requires LifecycleOk(db) && AfterPublish(db, p, kind, v, now).Ok? && m in db.modules
    ensures Top(AfterPublish(db, p, kind, v, now).value, m) == if p == m then Top(db, m) + 1 else Top(db, m)
  {
    hide Highest, Snapshot, SentBack, Listing;
    assert RowOk(db.versions, m, db.modules[m]);
    if p == m {
      VersionsAreOneToN(db, m, 0);
    }
  }

  lemma DeletingKeepsTop(db: Db, p: ModuleId, m: ModuleId)
    requires LifecycleOk(db) && AfterDelete(db, p).Ok? && m in db.modules
    ensures Top(AfterDelete(db, p).value, m) == Top(db, m)
  {
    hide WithoutAssignmentsOf;
    assert RowOk(db.versions, m, db.modules[m]);
    if p == m {
      DeletionRemembersTheNumber(db, m);
    }
  }

  // --- Rows that a step leaves in place -----------------------------------------------------------

  /** The same evidence: the completion and the text being read are as they were. */
  predicate SameEvidence(row: Progress, row': Progress) {
    && row'.mod == row.mod
    && row'.completedAt == row.completedAt && row'.completedVersion == row.completedVersion && row'.completedModule == row.completedModule
  }

  lemma RowStaysOk(db: Db, db': Db, k: Key, row: Progress, row': Progress)
    requires ProgressOk(db, k, row) && SameEvidence(row, row') && (row'.supersededAt.Some? ==> row'.completedAt.Some?)
    requires k.group in db'.groups
    requires forall m :: m in db.modules && db.modules[m].group == k.group ==>
        m in db'.modules && db'.modules[m].group == k.group && Top(db, m) <= Top(db', m)
    ensures ProgressOk(db', k, row')
  {
  }

  /** Is this a substantive publish of a variant of this group? */
  predicate SendsBack(db: Db, r: Request, g: GroupId) {
    r.Publish? && r.kind.Substantive? && r.mod in db.modules && db.modules[r.mod].group == g
  }

  /** Every step but a learner's own keeps all rows, with the same evidence; only a substantive publish of the group touches them at all. */
  lemma RowsStay(db: Db, r: Request, k: Key)
    requires DbOk(db) && Apply(db, r).Ok? && !Learns(r) && k in db.progress
    ensures Apply(db, r).value.progress.Keys == db.progress.Keys
    ensures Apply(db, r).value.progress[k] == if SendsBack(db, r, k.group) then Outstanding(db.progress[k], r.now) else db.progress[k]
  {
    hide DbOk, Apply, IsFounding, FreshPages, OwnedBy, SendsBack;
    if Founds(r) {
      var f := FoundingFrame(db, r);
      assert !SendsBack(db, r, k.group) by { OnlyPublishingSendsBack(db, r, k.group); }
    } else if Edits(r) {
      EditingFrame(db, r);
      assert !SendsBack(db, r, k.group) by { OnlyPublishingSendsBack(db, r, k.group); }
    } else {
      OtherRowsStay(db, r, k);
    }
  }

  lemma OnlyPublishingSendsBack(db: Db, r: Request, g: GroupId)
    requires !r.Publish?
    ensures !SendsBack(db, r, g)
  {
  }

  lemma OtherRowsStay(db: Db, r: Request, k: Key)
    requires Apply(db, r).Ok? && !Learns(r) && !Edits(r) && !Founds(r) && k in db.progress
    ensures Apply(db, r).value.progress.Keys == db.progress.Keys
    ensures Apply(db, r).value.progress[k] == if SendsBack(db, r, k.group) then Outstanding(db.progress[k], r.now) else db.progress[k]
  {
    hide Highest, Snapshot, WithoutAssignmentsOf, Tombstone, Siblings;
    if r.LinkVariant? {
      assert !HasProgress(db, db.modules[r.mod].group);
    }
  }

  lemma GroupsOfRowsStay(db: Db, r: Request, k: Key)
    requires DbOk(db) && Apply(db, r).Ok? && k in db.progress
    ensures k.group in Apply(db, r).value.groups
    ensures forall m :: m in db.modules && db.modules[m].group == k.group ==>
              m in Apply(db, r).value.modules && Apply(db, r).value.modules[m].group == k.group
  {
    hide GroupsOk, LifecycleOk, Apply, IsFounding, FreshPages, OwnedBy;
    assert ProgressOk(db, k, db.progress[k]);
    if Founds(r) {
      var f := FoundingFrame(db, r);
    } else if r.LinkVariant? || r.SetPrimary? {
      RegroupingSparesRows(db, r, k);
    } else {
      OthersKeepThePartition(db, r);
    }
  }

  lemma RegroupingSparesRows(db: Db, r: Request, k: Key)
    requires Apply(db, r).Ok? && (r.LinkVariant? || r.SetPrimary?) && k in db.progress && k.group in db.groups
    ensures k.group in Apply(db, r).value.groups
    ensures forall m :: m in db.modules && db.modules[m].group == k.group ==>
              m in Apply(db, r).value.modules && Apply(db, r).value.modules[m].group == k.group
  {
    hide WithoutAssignmentsOf;
    if r.LinkVariant? {
      assert HasProgress(db, k.group);
    }
  }

  lemma AuthoringKeepsEvidence(db: Db, r: Request, k: Key)
    requires DbOk(db) && Apply(db, r).Ok? && !Learns(r) && k in Apply(db, r).value.progress
    ensures ProgressOk(Apply(db, r).value, k, Apply(db, r).value.progress[k])
  {
    hide GroupsOk, LifecycleOk, Apply;
    var db' := Apply(db, r).value;
    AnyKeyWasThere(db, r, k);
    RowsStay(db, r, k);
    GroupsOfRowsStay(db, r, k);
    forall m | m in db.modules ensures m in db'.modules && Top(db, m) <= Top(db', m) {
      TopNeverFalls(db, r, m);
    }
    RowStaysOk(db, db', k, db.progress[k], db'.progress[k]);
  }

  lemma AnyKeyWasThere(db: Db, r: Request, k: Key)
    requires DbOk(db) && Apply(db, r).Ok? && !Learns(r) && k in Apply(db, r).value.progress
    ensures k in db.progress
  {
    hide DbOk, GroupsOk, LifecycleOk, EvidenceOk, Highest, Snapshot, WithoutAssignmentsOf, FreshPages, OwnedBy,
        WithDraft, Tombstone, Siblings;
    if Founds(r) {
      var f := FoundingFrame(db, r);
    } else if Edits(r) {
      EditingFrame(db, r);
    }
  }

  // --- The learner's own steps ------------------------------------------------------------------------

  function Touched(r: Request): Key
    requires Learns(r)
  {
    Key(r.user, r.group)
  }

  /** The module a learner's step is about. */
  ghost function Subject(db: Db, r: Request): ModuleId
    requires Learns(r) && Apply(db, r).Ok?
  {
    if r.SwitchLanguage? then Variants.First(Speaking(ReadableVariants(db, r.user, r.group), r.language)).id
    else Resolve(db, r.user, r.group).value
  }

  ghost function RowAfter(db: Db, r: Request): Progress
    requires Learns(r) && Apply(db, r).Ok?
  {
    var row := Claimed(db, Touched(r), Subject(db, r));
    match r
    case ViewPage(_, _, p) => RowAfterView(row, p)
    case SwitchLanguage(_, _, _) => RowAfterSwitch(row, Subject(db, r))
    case Complete(_, _, now) => RowAfterCompletion(row, Subject(db, r), CurrentVersion(db, Subject(db, r)).number, now)
  }

  lemma LearningStep(db: Db, r: Request)
    requires Learns(r) && Apply(db, r).Ok?
    ensures Apply(db, r).value == db.(progress := db.progress[Touched(r) := RowAfter(db, r)])
    ensures r.user in db.users && Readable(db, r.user, r.group, Subject(db, r))
    ensures db.modules[Subject(db, r)].current.value in db.versions
  {
    hide Resolve, RowAfterView, RowAfterSwitch, RowAfterCompletion, Claimed, PageIds;
    if r.SwitchLanguage? {
      var targets := Speaking(ReadableVariants(db, r.user, r.group), r.language);
      assert Variants.First(targets) in targets;
    }
  }

  lemma LearningKeepsEvidence(db: Db, r: Request, k: Key)
    requires DbOk(db) && Apply(db, r).Ok? && Learns(r) && k in Apply(db, r).value.progress
    ensures ProgressOk(Apply(db, r).value, k, Apply(db, r).value.progress[k])
  {
    hide Apply, Subject, RowAfter, Resolve, MayRead, AssignedGroups, VersionRowsOk, IsTop, RowOk, ProgressOk, Top, GroupsOk;
    LearningStep(db, r);
    var db' := Apply(db, r).value;
    if k == Touched(r) {
      var m := Subject(db, r);
      assert Readable(db, r.user, r.group, m) && RowOk(db.versions, m, db.modules[m]);
      VersionsAreOneToN(db, m, 0);
      assert GroupHeld(db, m) by { GroupIsHeld(db, m); }
      LearnedRowOk(db, r, m);
    } else {
      assert ProgressOk(db, k, db.progress[k]);
    }
    OnlyModulesMatter(db, db', k, db'.progress[k]);
  }

  predicate GroupHeld(db: Db, m: ModuleId) {
    m in db.modules && db.modules[m].group in db.groups
  }

  lemma GroupIsHeld(db: Db, m: ModuleId)
    requires GroupsOk(db) && m in db.modules
    ensures GroupHeld(db, m)
  {
  }

  lemma OnlyModulesMatter(db: Db, db': Db, k: Key, row: Progress)
    requires db'.modules == db.modules && db'.versions == db.versions && db'.groups == db.groups
    ensures ProgressOk(db', k, row) <==> ProgressOk(db, k, row)
  {
  }

  lemma LearnedRowOk(db: Db, r: Request, m: ModuleId)
    requires Learns(r) && Apply(db, r).Ok? && m == Subject(db, r)
    requires Readable(db, r.user, r.group, m) && r.group in db.groups &&
        CurrentNumber(db, m) == (if Top(db, m) == 0 then None else Some(Top(db, m)))
    requires db.modules[m].current.value in db.versions
    requires Touched(r) in db.progress ==> ProgressOk(db, Touched(r), db.progress[Touched(r)])
    ensures ProgressOk(db, Touched(r), RowAfter(db, r))
  {
    hide Apply, Subject, Resolve, MayRead, AssignedGroups;
  }

  lemma StepKeepsDbOk(db: Db, r: Request)
    requires DbOk(db) && Apply(db, r).Ok?
    ensures DbOk(Apply(db, r).value)
  {
    hide GroupsOk, LifecycleOk, Apply, ProgressOk;
    StepKeepsGroups(db, r);
    StepKeepsLifecycle(db, r);
    forall k | k in Apply(db, r).value.progress ensures ProgressOk(Apply(db, r).value, k, Apply(db, r).value.progress[k]) {
      if Learns(r) {
        LearningKeepsEvidence(db, r, k);
      } else {
        AuthoringKeepsEvidence(db, r, k);
      }
    }
  }

  /**
   * What may happen to a row: completions are never undone, the three completion fields change only together and only
   * by the learner's own completion, and the text being read changes only by the learner's own switch.
   */
  predicate Conserved(k: Key, row: Progress, row': Progress, r: Request) {
    && (row.completedAt.Some? ==> row'.completedAt.Some?)
    && ((row'.completedAt, row'.completedVersion, row'.completedModule) == (row.completedAt, row.completedVersion, row.completedModule)
        || (r.Complete? && Touched(r) == k && row'.completedAt == Some(r.now) && row'.completedModule.Some? && row'.completedVersion.Some?))
    && (row'.mod == row.mod || (r.SwitchLanguage? && Touched(r) == k))
  }

  /** No request removes a progress row, and every row is conserved. */
  lemma EvidenceIsConserved(db: Db, r: Request, k: Key)
    requires DbOk(db) && Apply(db, r).Ok? && k in db.progress
    ensures k in Apply(db, r).value.progress && Conserved(k, db.progress[k], Apply(db, r).value.progress[k], r)
  {
    hide DbOk, Apply, Subject;
    if Learns(r) {
      LearningStep(db, r);
    } else {
      RowsStay(db, r, k);
    }
  }
}
