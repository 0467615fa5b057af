/** Every accepted request keeps the history and the tables in agreement. */
module Histories {
  import opened Domain
  import opened Records
  import opened Frames
  import opened Lifecycle
  import opened Evidence
  import opened Attestation
  import opened Pages
  import opened Translations

  ghost predicate WorldOk(w: World) {
    DbOk(w.db) && PagesOk(w.db) && HistoryOk(w)
  }

  /** Only a publish leaves a publication, only a view a view, only a completion an attestation. */
  lemma EventsOfAuthoring(db: Db, r: Request)
    requires Apply(db, r).Ok? && !Learns(r)
    ensures !r.Publish? ==> EventOf(db, r) == Other
    ensures r.Publish? ==> r.mod in db.modules
    ensures r.Publish? ==>
        EventOf(db, r) == Publication(r.mod, db.modules[r.mod].group, Highest(db.versions, r.mod) + 1, r.kind,
            PageIds(Snapshot(db.modules[r.mod].draft.rows)))
  {
    hide NewModule, AfterLink, AfterDelete, WithDraft, AfterSetPrimary, AfterAssign, CopiedRows, ImportedRows, Snapshot, PageIds, SentBack;
  }

  lemma EventsOfLearning(db: Db, r: Request)
    requires Apply(db, r).Ok? && Learns(r)
    ensures EventOf(db, r) ==
      match r
      case ViewPage(u, g, p) => PageView(u, g, Subject(db, r), p)
      case SwitchLanguage(u, g, _) =>
        if Key(u, g) in db.progress && db.progress[Key(u, g)].mod != Subject(db, r) then TextChange(u, g, Subject(db, r)) else Other
      case Complete(u, g, _) => Event.Attestation(u, g, Subject(db, r), CurrentVersion(db, Subject(db, r)).number)
  {
    hide AfterSwitch, Resolve, PageIds;
  }

  // --- Authoring ------------------------------------------------------------------------------

  lemma AuthoringKeepsRowHistory(w: World, r: Request, k: Key)
    requires WorldOk(w) && Apply(w.db, r).Ok? && !Learns(r) && k in w.db.progress
    ensures k in Apply(w.db, r).value.progress
    ensures RowHistoryOk(Apply(w.db, r).value.pageOwner, w.history + [EventOf(w.db, r)], k, Apply(w.db, r).value.progress[k])
  {
    hide Apply, EventOf, GroupsOk, PagesOk, RowHistoryOk, Highest, Snapshot, PageIds;
    var db := w.db;
    var row, e, owners' := db.progress[k], EventOf(db, r), Apply(db, r).value.pageOwner;
    RowsStay(db, r, k);
    OwnersOnlyGrow(db, r);
    EventsOfAuthoring(db, r);
    assert ProgressOk(db, k, row);
    assert RowHistoryOk(db.pageOwner, w.history, k, row);
    if r.Publish? {
      PublishedIsLive(db, r);
      VersionsAreOneToN(db, r.mod, 0);
    }
    if SendsBack(db, r, k.group) {
      SupersedingKeepsRows(db.pageOwner, w.history, e, k, row, r.now);
      PublishIssuesNoPages(db, r);
    } else {
      UnrelatedEventsKeepRows(db.pageOwner, owners', w.history, e, k, row);
    }
  }

  lemma PublishedIsLive(db: Db, r: Request)
    requires r.Publish? && Apply(db, r).Ok?
    ensures r.mod in db.modules && !db.modules[r.mod].status.Deleted?
  {
  }

  lemma PublishIssuesNoPages(db: Db, r: Request)
    requires r.Publish? && Apply(db, r).Ok?
    ensures Apply(db, r).value.pageOwner == db.pageOwner
  {
  }

  // --- Learning ----------------------------------------------------------------------------------

  /** A row not yet there has nothing in its history. */
  lemma ClaimedRowHistory(w: World, k: Key, m: ModuleId)
    requires HistoryOk(w)
    ensures RowHistoryOk(w.db.pageOwner, w.history, k, Claimed(w.db, k, m))
  {
    hide Last;
    if k !in w.db.progress {
      assert Last(w.history, Attests(k.user, k.group)) == -1;
    }
  }

  lemma SubjectPagesOwned(db: Db, r: Request)
    requires DbOk(db) && PagesOk(db) && Learns(r) && Apply(db, r).Ok?
    ensures var m := Subject(db, r);
            && m in db.modules && db.modules[m].current.Some? && db.modules[m].current.value in db.versions
            && CurrentVersion(db, m).mod == m && Owned(db.pageOwner, PageIds(CurrentVersion(db, m).pages), m)
    ensures r.ViewPage? ==> r.page in PageIds(CurrentVersion(db, Subject(db, r)).pages)
    ensures r.Complete? ==> forall p :: p in PageIds(CurrentVersion(db, Subject(db, r)).pages) ==>
        p in Claimed(db, Touched(r), Subject(db, r)).viewed
  {
    hide Resolve, Owned, PageIds, GroupsOk, EvidenceOk, MayRead, AssignedGroups, TableOk, ReadableVariants, Speaking, VersionRowsOk;
    LearningStep(db, r);
    var m := Subject(db, r);
    assert RowOk(db.versions, m, db.modules[m]);
  }

  lemma LearningKeepsTouchedHistory(w: World, r: Request)
    requires WorldOk(w) && Apply(w.db, r).Ok? && Learns(r)
    ensures RowHistoryOk(w.db.pageOwner, w.history + [EventOf(w.db, r)], Touched(r), RowAfter(w.db, r))
  {
    hide Apply, EventOf, GroupsOk, RowHistoryOk, DbOk, PageIds, Subject, Claimed;
    var db, k, m := w.db, Touched(r), Subject(w.db, r);
    EventsOfLearning(db, r);
    SubjectPagesOwned(db, r);
    ClaimedRowHistory(w, k, m);
    var row := Claimed(db, k, m);
    match r
    case ViewPage(u, g, p) =>
      var ids := PageIds(CurrentVersion(db, m).pages);
      var i :| 0 <= i < |ids| && ids[i] == p;
      ViewingKeepsRows(db.pageOwner, w.history, k, row, m, p);
    case SwitchLanguage(_, _, _) => SwitchingKeepsRows(db.pageOwner, w.history, EventOf(db, r), k, row, m);
    case Complete(_, _, now) => CompletingKeepsRows(db.pageOwner, w.history, k, row, m, CurrentVersion(db, m), now);
  }

  lemma LearningKeepsRowHistory(w: World, r: Request, k: Key)
    requires WorldOk(w) && Apply(w.db, r).Ok? && Learns(r) && k in Apply(w.db, r).value.progress
    ensures RowHistoryOk(Apply(w.db, r).value.pageOwner, w.history + [EventOf(w.db, r)], k, Apply(w.db, r).value.progress[k])
  {
    hide Apply, EventOf, DbOk, RowHistoryOk, RowAfter, PagesOk, Subject, PageIds;
    var db := w.db;
    LearningStep(db, r);
    if k == Touched(r) {
      LearningKeepsTouchedHistory(w, r);
    } else {
      EventsOfLearning(db, r);
      UnrelatedEventsKeepRows(db.pageOwner, db.pageOwner, w.history, EventOf(db, r), k, db.progress[k]);
    }
  }

  // --- The whole agreement ---------------------------------------------------------------------------

  lemma StepKeepsRowHistories(w: World, r: Request)
    requires WorldOk(w) && Apply(w.db, r).Ok?
    ensures forall k :: k in Next(w, r).db.progress ==>
        RowHistoryOk(Next(w, r).db.pageOwner, Next(w, r).history, k, Next(w, r).db.progress[k])
    ensures forall k: Key :: k !in Next(w, r).db.progress ==> Last(Next(w, r).history, Attests(k.user, k.group)) == -1
  {
    hide Apply, EventOf, DbOk, RowHistoryOk, PagesOk, Last, Subject, PageIds, Snapshot, Highest;
    var db' := Apply(w.db, r).value;
    forall k | k in db'.progress ensures RowHistoryOk(db'.pageOwner, w.history + [EventOf(w.db, r)], k, db'.progress[k]) {
      if Learns(r) {
        LearningKeepsRowHistory(w, r, k);
      } else {
        AnyKeyWasThere(w.db, r, k);
        AuthoringKeepsRowHistory(w, r, k);
      }
    }
    forall k: Key | k !in db'.progress ensures Last(w.history + [EventOf(w.db, r)], Attests(k.user, k.group)) == -1 {
      LastAfter(w.history, EventOf(w.db, r), Attests(k.user, k.group));
      if Learns(r) {
        LearningStep(w.db, r);
        EventsOfLearning(w.db, r);
      } else {
        EventsOfAuthoring(w.db, r);
        if k in w.db.progress {
          RowsStay(w.db, r, k);
        }
      }
    }
  }

  lemma StepKeepsVersionHistories(w: World, r: Request)
    requires WorldOk(w) && Apply(w.db, r).Ok?
    ensures forall v :: v in Next(w, r).db.versions ==> VersionHistoryOk(Next(w, r).history, Next(w, r).db.versions[v])
  {
    hide Apply, EventOf, PagesOk, RowHistoryOk, Last, Subject, PageIds, Snapshot, Highest, GroupsOk, EvidenceOk, RowOk;
    var db, db', e := w.db, Apply(w.db, r).value, EventOf(w.db, r);
    if Learns(r) {
      EventsOfLearning(db, r);
    } else {
      EventsOfAuthoring(db, r);
    }
    forall v | v in db'.versions ensures VersionHistoryOk(w.history + [e], db'.versions[v]) {
      LastAfter(w.history, e, Publishes(db'.versions[v].mod, db'.versions[v].number));
      if v in db.versions {
        VersionsAreFrozen(db, r, v);
        assert VersionHistoryOk(w.history, db.versions[v]);
      } else {
        NewVersionsArePublished(db, r, v);
      }
    }
  }

  lemma NewVersionsArePublished(db: Db, r: Request, v: VersionId)
    requires DbOk(db) && Apply(db, r).Ok? && v in Apply(db, r).value.versions && v !in db.versions
    ensures r.Publish? && r.mod in db.modules
    ensures Apply(db, r).value.versions[v] == Version(r.mod, Highest(db.versions, r.mod) + 1, r.kind,
        Snapshot(db.modules[r.mod].draft.rows))
  {
    hide Highest, Snapshot, SentBack, GroupsOk, EvidenceOk, LifecycleOk;
    if Founds(r) {
      var f := FoundingFrame(db, r);
    } else if !r.Publish? && !r.DeleteModule? {
      MostStepsAreGentle(db, r);
    }
  }

  lemma StepKeepsWorld(w: World, r: Request)
    requires WorldOk(w)
    ensures WorldOk(Next(w, r))
  {
    hide Apply, EventOf, PagesOk, DbOk, RowHistoryOk, VersionHistoryOk, Last;
    if Apply(w.db, r).Ok? {
      StepKeepsDbOk(w.db, r);
      StepKeepsPages(w.db, r);
      StepKeepsRowHistories(w, r);
      StepKeepsVersionHistories(w, r);
    }
  }

  /** Every state of every run, whatever requests arrive and in whatever order. */
  lemma {:induction false} EveryRunIsOk(requests: seq<Request>)
    ensures WorldOk(Run(EMPTY, requests))
  {
    hide WorldOk, Next;
    if requests == [] {
      EmptyIsOk();
    } else {
      EveryRunIsOk(requests[..|requests| - 1]);
      StepKeepsWorld(Run(EMPTY, requests[..|requests| - 1]), requests[|requests| - 1]);
    }
  }

  lemma EmptyIsOk()
    ensures WorldOk(EMPTY)
  {
  }
}
