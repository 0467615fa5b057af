/** The promises of the learning record, over every run of the platform from its empty state. */
module Runs {
  import opened Common
  import opened Domain
  import opened Drafts
  import opened Records
  import opened Frames
  import opened Translations
  import opened Lifecycle
  import opened Evidence
  import opened Attestation
  import opened Pages
  import opened Histories
  import Variants

  // --- Attestations -----------------------------------------------------------------------------

  /** A substantive publication of the group lies strictly between these indices. */
  predicate SupersedingBetween(h: seq<Event>, lo: nat, hi: nat, g: GroupId) {
    exists i :: lo < i < hi && i < |h| && Matches(h[i], Supersedes(g))
  }

  /** At index `v` this learner viewed this page of this module, and nothing superseded the view before index `c`. */
  predicate ValidView(h: seq<Event>, v: nat, c: nat, k: Key, m: ModuleId, p: PageId) {
    v < c <= |h| && h[v] == PageView(k.user, k.group, m, p) && !SupersedingBetween(h, v, c, k.group)
  }

  ghost predicate Seen(h: seq<Event>, c: nat, k: Key, m: ModuleId, p: PageId) {
    exists v: nat :: ValidView(h, v, c, k, m, p)
  }

  /** The completion at index `c` was of the version published at index `b`, each of whose pages has a valid view before it. */
  ghost predicate Sound(h: seq<Event>, b: nat, c: nat, k: Key, m: ModuleId, n: nat) {
    && b < c < |h|
    && h[c] == Event.Attestation(k.user, k.group, m, n)
    && Matches(h[b], Publishes(m, n))
    && forall i :: 0 <= i < |h[b].pages| ==> Seen(h, c, k, m, h[b].pages[i])
  }

  /** No attestation of this learner to this material follows index `c`. */
  predicate IsLastAttestation(h: seq<Event>, c: nat, k: Key) {
    forall i :: c < i < |h| ==> !Matches(h[i], Attests(k.user, k.group))
  }

  /**
   * A completed row names the learner's last attestation. It was of a published version, every page of which they had
   * viewed before it, after the last substantive publication of the group up to then; and when the row is not marked as
   * superseded no substantive publication has followed either, so those views are of what the group still asks for.
   */
  lemma AttestationIsSound(requests: seq<Request>, k: Key)
    requires k in Run(EMPTY, requests).db.progress && Run(EMPTY, requests).db.progress[k].completedAt.Some?
    ensures var w := Run(EMPTY, requests);
            var row := w.db.progress[k];
            && row.completedModule.Some? && row.completedVersion.Some?
            && exists b: nat, c: nat :: Sound(w.history, b, c, k, row.completedModule.value, row.completedVersion.value)
                && IsLastAttestation(w.history, c, k)
                && (row.supersededAt.None? <==> !SupersedingBetween(w.history, c, |w.history|, k.group))
                && (forall v :: v in w.db.versions && w.db.versions[v].mod == row.completedModule.value && w.db.versions[v].number == row.completedVersion.value ==>
                      PageIds(w.db.versions[v].pages) == w.history[b].pages)
  {
    hide DbOk, PagesOk, Run, PageIds, Last;
    EveryRunIsOk(requests);
    var w := Run(EMPTY, requests);
    var row, h := w.db.progress[k], w.history;
    assert RowHistoryOk(w.db.pageOwner, h, k, row);
    var m, n := row.completedModule.value, row.completedVersion.value;
    var b, c := Last(h, Publishes(m, n)), Last(h, Attests(k.user, k.group));
    LastMeans(h, Publishes(m, n));
    LastMeans(h, Attests(k.user, k.group));
    CurrencyAt(h, k, c);
    CoverageIsSound(h, b, c, k, m, n);
    forall v | v in w.db.versions && w.db.versions[v].mod == m &&
        w.db.versions[v].number == n ensures PageIds(w.db.versions[v].pages) == h[b].pages {
      assert VersionHistoryOk(h, w.db.versions[v]);
    }
    assert Sound(h, b, c, k, m, n);
    assert IsLastAttestation(h, c, k);
  }

  lemma CurrencyAt(h: seq<Event>, k: Key, c: nat)
    requires c < |h| && !Matches(h[c], Supersedes(k.group))
    ensures c > Last(h, Supersedes(k.group)) <==> !SupersedingBetween(h, c, |h|, k.group)
  {
    LastMeans(h, Supersedes(k.group));
    var s := Last(h, Supersedes(k.group));
    if s > c {
      assert Matches(h[s], Supersedes(k.group));
    }
  }

  lemma CoverageIsSound(h: seq<Event>, b: nat, c: nat, k: Key, m: ModuleId, n: nat)
    requires b < c < |h| && h[b].Publication? && Covered(h[..c], k, m, h[b].pages)
    ensures forall i :: 0 <= i < |h[b].pages| ==> Seen(h, c, k, m, h[b].pages[i])
  {
    hide Last;
    LastMeans(h[..c], Supersedes(k.group));
    forall i | 0 <= i < |h[b].pages| ensures Seen(h, c, k, m, h[b].pages[i]) {
      var mark := Views(k.user, k.group, m, h[b].pages[i]);
      LastMeans(h[..c], mark);
      var v := Last(h[..c], mark);
      forall j | v < j < c ensures !Matches(h[j], Supersedes(k.group)) {
        assert h[j] == h[..c][j];
      }
      assert h[v] == h[..c][v];
      assert ValidView(h, v, c, k, m, h[b].pages[i]);
    }
  }

  /** A row is completed exactly when its learner ever attested, and a row never completed is never marked as superseded. */
  lemma CompletionIsExact(requests: seq<Request>, k: Key)
    requires k in Run(EMPTY, requests).db.progress
    ensures var w := Run(EMPTY, requests);
            var row := w.db.progress[k];
            && (row.completedAt.Some? <==> exists i :: 0 <= i < |w.history| && Matches(w.history[i], Attests(k.user, k.group)))
            && (row.completedAt.None? ==> row.supersededAt.None?)
  {
    hide DbOk, PagesOk, Run, Last, AttestedTextOk, ViewsOk;
    EveryRunIsOk(requests);
    var w := Run(EMPTY, requests);
    assert RowHistoryOk(w.db.pageOwner, w.history, k, w.db.progress[k]);
    LastMeans(w.history, Attests(k.user, k.group));
  }

  // --- Runs continued -----------------------------------------------------------------------------

  ghost function Before(w: World, requests: seq<Request>, i: nat): World
    requires i <= |requests|
  {
    Run(w, requests[..i])
  }

  /** Request `i` of the run is accepted. */
  ghost predicate Accepted(w: World, requests: seq<Request>, i: nat)
    requires i < |requests|
  {
    Apply(Before(w, requests, i).db, requests[i]).Ok?
  }

  lemma FrontOfRun(w: World, requests: seq<Request>)
    requires requests != []
    ensures forall i: nat :: i < |requests| - 1 ==>
        Before(w, requests[..|requests| - 1], i) == Before(w, requests, i) && requests[..|requests| - 1][i] == requests[i]
    ensures Before(w, requests, |requests| - 1) == Run(w, requests[..|requests| - 1])
  {
    hide Run;
    forall i: nat | i < |requests| - 1
      ensures Before(w, requests[..|requests| - 1], i) == Before(w, requests, i) && requests[..|requests| - 1][i] == requests[i]
    {
      assert requests[..|requests| - 1][..i] == requests[..i];
    }
  }

  /** From any agreeable state on, rows survive, and so do completions. */
  lemma {:induction false} EvidenceSurvivesRuns(w: World, requests: seq<Request>, k: Key)
    requires WorldOk(w) && k in w.db.progress
    ensures var w' := Run(w, requests);
            WorldOk(w') && k in w'.db.progress && (w.db.progress[k].completedAt.Some? ==> w'.db.progress[k].completedAt.Some?)
  {
    hide WorldOk, Apply, EventOf;
    if requests != [] {
      var before, r := Run(w, requests[..|requests| - 1]), requests[|requests| - 1];
      EvidenceSurvivesRuns(w, requests[..|requests| - 1], k);
      StepKeepsWorld(before, r);
      if Apply(before.db, r).Ok? {
        WorldIsDbOk(before);
        EvidenceIsConserved(before.db, r, k);
      }
    }
  }

  lemma WorldIsDbOk(w: World)
    requires WorldOk(w)
    ensures DbOk(w.db) && LifecycleOk(w.db) && EvidenceOk(w.db) && GroupsOk(w.db)
  {
  }

  /** What a row names keeps resolving: variants of its own group, and a number that variant reached, even once it is a tombstone. */
  lemma EvidenceResolves(requests: seq<Request>, k: Key)
    requires k in Run(EMPTY, requests).db.progress
    ensures var db := Run(EMPTY, requests).db;
            var row := db.progress[k];
            && row.mod in db.modules && db.modules[row.mod].group == k.group
            && (row.completedAt.Some? ==>
                  && row.completedModule.Some? && row.completedVersion.Some?
                  && row.completedModule.value in db.modules
                  && db.modules[row.completedModule.value].group == k.group
                  && var m := db.modules[row.completedModule.value];
                     if m.status.Deleted?
                     then m.deletedVersion.Some? && 1 <= row.completedVersion.value <= m.deletedVersion.value
                     else HasNumber(db.versions, row.completedModule.value, row.completedVersion.value))
  {
    hide PagesOk, HistoryOk, Run, GroupsOk;
    EveryRunIsOk(requests);
    var db := Run(EMPTY, requests).db;
    var row := db.progress[k];
    assert ProgressOk(db, k, row);
    if row.completedAt.Some? && !db.modules[row.completedModule.value].status.Deleted? {
      VersionsAreOneToN(db, row.completedModule.value, row.completedVersion.value);
    }
  }

  /** In every reachable state a live module's versions are numbered 1..n, learners are given n, and being published means n is at least 1. */
  lemma VersionsOfEveryRun(requests: seq<Request>, m: ModuleId, k: nat)
    requires m in Run(EMPTY, requests).db.modules && !Run(EMPTY, requests).db.modules[m].status.Deleted?
    ensures var db := Run(EMPTY, requests).db;
            && (HasNumber(db.versions, m, k) <==> 1 <= k <= Top(db, m))
            && CurrentNumber(db, m) == (if Top(db, m) == 0 then None else Some(Top(db, m)))
            && (db.modules[m].status.Published? ==> Top(db, m) >= 1)
            && (forall v :: v in db.versions && db.versions[v].mod == m ==> db.versions[v].pages != [])
  {
    hide PagesOk, HistoryOk, Run, GroupsOk, EvidenceOk;
    EveryRunIsOk(requests);
    var db := Run(EMPTY, requests).db;
    VersionsAreOneToN(db, m, k);
    assert RowOk(db.versions, m, db.modules[m]);
  }

  /** Deleted is terminal: whatever follows, the tombstone is the same row, with no pages, versions, assets or catalog entry. */
  lemma {:induction false} DeletedForGood(w: World, requests: seq<Request>, m: ModuleId)
    requires WorldOk(w) && m in w.db.modules && w.db.modules[m].status.Deleted?
    ensures var db := Run(w, requests).db;
            && m in db.modules && db.modules[m] == w.db.modules[m]
            && db.modules[m].draft.rows == map[] && db.modules[m].assets == {} && !db.modules[m].visible
            && HasNoVersion(db.versions, m)
            && WorldOk(Run(w, requests))
  {
    hide WorldOk, Apply, EventOf;
    WorldIsDbOk(w);
    if requests == [] {
      assert RowOk(w.db.versions, m, w.db.modules[m]);
    } else {
      var before, r := Run(w, requests[..|requests| - 1]), requests[|requests| - 1];
      DeletedForGood(w, requests[..|requests| - 1], m);
      StepKeepsWorld(before, r);
      WorldIsDbOk(before);
      WorldIsDbOk(Next(before, r));
      if Apply(before.db, r).Ok? {
        TombstonesAbsorb(before.db, r, m);
      }
      assert RowOk(Next(before, r).db.versions, m, Next(before, r).db.modules[m]);
    }
  }

  /** Frozen for good: as long as its module is not deleted, a version row is there exactly as it was published. */
  lemma {:induction false} VersionsStayFrozen(w: World, requests: seq<Request>, v: VersionId)
    requires WorldOk(w) && v in w.db.versions
    ensures var db, m := Run(w, requests).db, w.db.versions[v].mod;
            && WorldOk(Run(w, requests)) && m in db.modules
            && (!db.modules[m].status.Deleted? ==> v in db.versions && db.versions[v] == w.db.versions[v])
            && (db.modules[m].status.Deleted? ==> HasNoVersion(db.versions, m))
  {
    hide WorldOk, Apply, EventOf, HasNoVersion, LifecycleOk, VersionRowsOk, RowOk, GroupsOk, EvidenceOk;
    WorldIsDbOk(w);
    OwnerExists(w.db, v);
    var m := w.db.versions[v].mod;
    if requests == [] {
      TombstonesHaveNoVersion(w.db, m);
    } else {
      var before, r := Run(w, requests[..|requests| - 1]), requests[|requests| - 1];
      VersionsStayFrozen(w, requests[..|requests| - 1], v);
      StepKeepsWorld(before, r);
      WorldIsDbOk(before);
      WorldIsDbOk(Next(before, r));
      if Apply(before.db, r).Ok? {
        DeletedStays(before.db, r, m);
        if !before.db.modules[m].status.Deleted? {
          VersionsAreFrozen(before.db, r, v);
        }
      }
      TombstonesHaveNoVersion(Next(before, r).db, m);
    }
  }

  lemma OwnerExists(db: Db, v: VersionId)
    requires LifecycleOk(db) && v in db.versions
    ensures db.versions[v].mod in db.modules
  {
  }

  lemma TombstonesHaveNoVersion(db: Db, m: ModuleId)
    requires LifecycleOk(db) && m in db.modules
    ensures db.modules[m].status.Deleted? ==> HasNoVersion(db.versions, m)
  {
    assert RowOk(db.versions, m, db.modules[m]);
  }

  // --- The number a module has reached ---------------------------------------------------------------------

  /** How many times this module has been published. */
  function Publications(h: seq<Event>, m: ModuleId): nat {
    if h == [] then 0
    else Publications(h[..|h| - 1], m) + if h[|h| - 1].Publication? && h[|h| - 1].mod == m then 1 else 0
  }

  lemma PublicationsAfter(h: seq<Event>, e: Event, m: ModuleId)
    ensures Publications(h + [e], m) == Publications(h, m) + if e.Publication? && e.mod == m then 1 else 0
  {
    assert (h + [e])[..|h|] == h;
  }

  /** The number a row stands for, live or deleted, is how often it was published; a module not made yet never was. */
  predicate NumberOk(db: Db, h: seq<Event>, m: ModuleId) {
    if m !in db.modules then Publications(h, m) == 0
    else
      && Top(db, m) == Publications(h, m)
      && (db.modules[m].status.Deleted? ==>
            db.modules[m].deletedVersion == if Publications(h, m) == 0 then None else Some(Publications(h, m)))
  }

  /** Only a delete makes a tombstone, and only founding makes a module, which then is neither deleted nor published. */
  lemma NewRowsAreDrafts(db: Db, r: Request, m: ModuleId)
    requires LifecycleOk(db) && Apply(db, r).Ok? && m !in db.modules
    ensures !(EventOf(db, r).Publication? && EventOf(db, r).mod == m)
    ensures m in Apply(db, r).value.modules ==>
              !Apply(db, r).value.modules[m].status.Deleted? && Apply(db, r).value.modules[m].current.None?
  {
    hide Apply, EventOf, LifecycleOk, FreshPages, OwnedBy, IsFounding;
    PublishesAre(db, r);
    if Founds(r) {
      var f := FoundingFrame(db, r);
    } else {
      OthersMakeNoModule(db, r, m);
    }
  }

  lemma OthersMakeNoModule(db: Db, r: Request, m: ModuleId)
    requires LifecycleOk(db) && Apply(db, r).Ok? && m !in db.modules && !Founds(r)
    ensures m !in Apply(db, r).value.modules
    ensures r.Publish? ==> r.mod != m
  {
    hide LifecycleOk, Highest, Snapshot, SentBack, WithoutAssignmentsOf;
    if !r.Publish? && !r.DeleteModule? {
      hide Apply;
      MostStepsAreGentle(db, r);
    }
  }

  lemma OnlyDeletingDeletes(db: Db, r: Request, m: ModuleId)
    requires LifecycleOk(db) && Apply(db, r).Ok? && m in db.modules && !db.modules[m].status.Deleted? && r != DeleteModule(m)
    ensures m in Apply(db, r).value.modules && !Apply(db, r).value.modules[m].status.Deleted?
  {
    hide LifecycleOk, Highest, Snapshot, SentBack, WithoutAssignmentsOf, FreshPages, OwnedBy;
    if Founds(r) {
      var f := FoundingFrame(db, r);
    } else if !r.Publish? && !r.DeleteModule? {
      MostStepsAreGentle(db, r);
      assert Gentle(db.modules[m], Apply(db, r).value.modules[m]);
    }
  }

  lemma PublishesAre(db: Db, r: Request)
    requires Apply(db, r).Ok?
    ensures EventOf(db, r).Publication? <==> r.Publish?
    ensures r.Publish? ==> EventOf(db, r).mod == r.mod
  {
    hide Apply, Resolve, PageIds, Snapshot, Highest;
  }

  lemma StepKeepsNumbers(db: Db, h: seq<Event>, r: Request, m: ModuleId)
    requires LifecycleOk(db) && Apply(db, r).Ok? && NumberOk(db, h, m)
    ensures NumberOk(Apply(db, r).value, h + [EventOf(db, r)], m)
  {
    hide Apply, EventOf, LifecycleOk, Publications;
    PublicationsAfter(h, EventOf(db, r), m);
    PublishesAre(db, r);
    if m !in db.modules {
      NewRowsAreDrafts(db, r, m);
    } else {
      TopNeverFalls(db, r, m);
      if db.modules[m].status.Deleted? {
        TombstonesAbsorb(db, r, m);
      } else if r == DeleteModule(m) {
        DeletedNumber(db, m);
      } else {
        OnlyDeletingDeletes(db, r, m);
      }
    }
  }

  lemma DeletedNumber(db: Db, m: ModuleId)
    requires LifecycleOk(db) && Apply(db, DeleteModule(m)).Ok?
    ensures m in db.modules && m in Apply(db, DeleteModule(m)).value.modules
    ensures Apply(db, DeleteModule(m)).value.modules[m].deletedVersion == if Top(db, m) == 0 then None else Some(Top(db, m))
  {
    hide LifecycleOk, Top;
    DeletionRemembersTheNumber(db, m);
  }

  /**
   * In every reachable state the highest number of a module is how often it was published, and a deleted one's tombstone
   * remembers exactly that, or nothing when it never was.
   */
  lemma {:induction false} NumbersCountPublications(requests: seq<Request>, m: ModuleId)
    ensures NumberOk(Run(EMPTY, requests).db, Run(EMPTY, requests).history, m)
  {
    hide Apply, EventOf, NumberOk;
    if requests == [] {
      NothingPublishedYet(m);
    } else {
      var front := requests[..|requests| - 1];
      NumbersCountPublications(front, m);
      EveryRunIsOk(front);
      WorldIsDbOk(Run(EMPTY, front));
      var w, r := Run(EMPTY, front), requests[|requests| - 1];
      if Apply(w.db, r).Ok? {
        StepKeepsNumbers(w.db, w.history, r, m);
      }
    }
  }

  lemma NothingPublishedYet(m: ModuleId)
    ensures NumberOk(EMPTY.db, EMPTY.history, m)
  {
  }

  /** In every reachable state the translation groups partition the modules, and every group has a variant. */
  lemma GroupsOfEveryRun(requests: seq<Request>)
    ensures GroupsOk(Run(EMPTY, requests).db)
    ensures forall g :: g in Run(EMPTY, requests).db.groups ==> Siblings(Run(EMPTY, requests).db, g) != {}
  {
    hide Run, PagesOk, HistoryOk, LifecycleOk, EvidenceOk;
    EveryRunIsOk(requests);
    var db := Run(EMPTY, requests).db;
    forall g | g in db.groups ensures Siblings(db, g) != {} {
      assert db.groups[g] in Siblings(db, g);
    }
  }

  // --- A deleted text whose translation is assigned -----------------------------------------------------------

  lemma RunAfter(w: World, requests: seq<Request>, r: Request)
    ensures Run(w, requests + [r]) == Next(Run(w, requests), r)
  {
    assert (requests + [r])[..|requests|] == requests;
  }

  /** A new text, alone in a group of the same number. */
  function NewText(n: nat): Module {
    Module(n, n, InDraft, None, false, Draft(1, map[]), {}, None)
  }

  lemma TextsAreCreated(w: World, n: nat)
    requires n !in w.db.groups && n !in w.db.modules
    ensures var db := Next(w, CreateModule(n, n, n)).db;
            && db.groups == w.db.groups[n := n] && db.modules == w.db.modules[n := NewText(n)]
            && db.progress == w.db.progress && db.assignments == w.db.assignments && db.versions == w.db.versions
  {
  }

  /** The tables once texts 0 and 1 have been created, and 1 has been linked to 0 as its translation. */
  ghost predicate TwoTranslations(db: Db) {
    && db.modules == map[0 := NewText(0), 1 := NewText(1).(group := 0)]
    && db.progress == map[] && db.assignments == map[] && db.versions == map[]
  }

  lemma TranslationsAreLinked(w: World)
    requires w.db.groups == map[0 := 0, 1 := 1] && w.db.modules == map[0 := NewText(0), 1 := NewText(1)]
    requires w.db.progress == map[] && w.db.assignments == map[] && w.db.versions == map[]
    ensures TwoTranslations(Next(w, LinkVariant(0, 1)).db)
  {
    var db := w.db;
    assert Siblings(db, 1) == {1};
    assert AfterLink(db, 0, 1).Ok?;
    assert db.modules[1 := NewText(1).(group := 0)] == map[0 := NewText(0), 1 := NewText(1).(group := 0)];
  }

  /** Two translations of one text, reached from the empty platform: the first is deleted, and the second is then assigned. */
  lemma SiblingIsAssignedAfterDelete() returns (requests: seq<Request>)
    ensures var db := Run(EMPTY, requests).db;
            && 0 in db.modules && 1 in db.modules && db.modules[0].group == db.modules[1].group
            && AfterDelete(db, 0).Ok?
            && AfterAssign(AfterDelete(db, 0).value, 0, 1, ToTeam(0), None, true, true).Ok?
  {
    hide Next, Apply;
    var a, b, c := CreateModule(0, 0, 0), CreateModule(1, 1, 1), LinkVariant(0, 1);
    requests := [a] + [b] + [c];
    RunAfter(EMPTY, [], a);
    assert [] + [a] == [a];
    RunAfter(EMPTY, [a], b);
    RunAfter(EMPTY, [a] + [b], c);
    TextsAreCreated(EMPTY, 0);
    TextsAreCreated(Run(EMPTY, [a]), 1);
    TranslationsAreLinked(Run(EMPTY, [a] + [b]));
    TranslationsAreAssignable(Run(EMPTY, requests).db);
  }

  lemma TranslationsAreAssignable(db: Db)
    requires TwoTranslations(db)
    ensures 0 in db.modules && 1 in db.modules && db.modules[0].group == db.modules[1].group
    ensures AfterDelete(db, 0).Ok?
    ensures AfterAssign(AfterDelete(db, 0).value, 0, 1, ToTeam(0), None, true, true).Ok?
  {
  }

  // --- The draft lock ----------------------------------------------------------------------------------

  /** What one request may do to a module's draft: nothing, one claimed revision, or the purge of a delete. */
  lemma DraftStep(db: Db, r: Request, m: ModuleId)
    requires LifecycleOk(db) && Apply(db, r).Ok? && m in db.modules
    ensures m in Apply(db, r).value.modules
    ensures var d, d' := db.modules[m].draft, Apply(db, r).value.modules[m].draft;
            || d' == d
            || (Edits(r) && r.mod == m && r.token == d.revision == d'.revision - 1)
            || (r == DeleteModule(m) && d'.revision == d.revision)
    ensures Edits(r) && r.mod == m ==> Apply(db, r).value.modules[m].draft.revision == db.modules[m].draft.revision + 1 == r.token + 1
  {
    hide Apply, IsFounding, LifecycleOk, FreshPages, OwnedBy, Edited;
    if Founds(r) {
      var f := FoundingFrame(db, r);
    } else if Learns(r) {
      LearningFrame(db, r);
    } else if Edits(r) {
      EditingFrame(db, r);
      EditsClaim(db, r);
    } else {
      OtherStepsKeepDrafts(db, r, m);
    }
  }

  lemma EditsClaim(db: Db, r: Request)
    requires Edits(r) && r.mod in db.modules && Edited(db, r).Ok?
    ensures r.token == db.modules[r.mod].draft.revision == Edited(db, r).value.revision - 1
  {
    hide Enumerates, Listing, Renumbered;
  }

  lemma OtherStepsKeepDrafts(db: Db, r: Request, m: ModuleId)
    requires Apply(db, r).Ok? && m in db.modules && !Founds(r) && !Learns(r) && !Edits(r)
    ensures m in Apply(db, r).value.modules
    ensures var d, d' := db.modules[m].draft, Apply(db, r).value.modules[m].draft;
            d' == d || (r == DeleteModule(m) && d'.revision == d.revision)
  {
    hide Highest, Snapshot, SentBack, CurrentNumber, WithoutAssignmentsOf, HasProgress, Siblings;
  }

  /**
   * No lost update: between two moments of a run at which a live module's draft carries the same revision, its pages are
   * the same, so an edit accepted with a token finds exactly the pages that were listed under it.
   */
  lemma {:induction false} SameRevisionSamePages(w: World, requests: seq<Request>, m: ModuleId)
    requires WorldOk(w) && m in w.db.modules
    ensures var w' := Run(w, requests);
            && WorldOk(w') && m in w'.db.modules
            && w.db.modules[m].draft.revision <= w'.db.modules[m].draft.revision
            && (w.db.modules[m].status.Deleted? ==> w'.db.modules[m].status.Deleted?)
            && (w'.db.modules[m].draft.revision == w.db.modules[m].draft.revision && !w'.db.modules[m].status.Deleted? ==>
                  w'.db.modules[m].draft == w.db.modules[m].draft)
  {
    hide WorldOk, Apply, EventOf, Edits;
    if requests != [] {
      var before, r := Run(w, requests[..|requests| - 1]), requests[|requests| - 1];
      SameRevisionSamePages(w, requests[..|requests| - 1], m);
      StepKeepsWorld(before, r);
      if Apply(before.db, r).Ok? {
        WorldIsDbOk(before);
        DraftStep(before.db, r, m);
        DeletedStays(before.db, r, m);
      }
    }
  }

  lemma DeletedStays(db: Db, r: Request, m: ModuleId)
    requires LifecycleOk(db) && Apply(db, r).Ok? && m in db.modules
    ensures m in Apply(db, r).value.modules
    ensures db.modules[m].status.Deleted? ==> Apply(db, r).value.modules[m].status.Deleted?
    ensures r == DeleteModule(m) ==> Apply(db, r).value.modules[m].status.Deleted?
  {
    hide Apply, LifecycleOk;
    TopNeverFalls(db, r, m);
    if db.modules[m].status.Deleted? {
      TombstonesAbsorb(db, r, m);
    }
    if r == DeleteModule(m) {
      DeleteDeletes(db, m);
    }
  }

  lemma DeleteDeletes(db: Db, m: ModuleId)
    requires Apply(db, DeleteModule(m)).Ok?
    ensures m in Apply(db, DeleteModule(m)).value.modules && Apply(db, DeleteModule(m)).value.modules[m].status.Deleted?
  {
  }

  /** Each revision is claimed at most once: of two edits of a module accepted in a run, the later carries the larger token. */
  lemma RevisionsAreClaimedOnce(w: World, first: Request, between: seq<Request>, second: Request)
    requires WorldOk(w) && Edits(first) && Apply(w.db, first).Ok?
    requires Edits(second) && second.mod == first.mod && Apply(Run(Next(w, first), between).db, second).Ok?
    ensures first.token < second.token
  {
    hide Apply, WorldOk, EventOf;
    var w1 := Next(w, first);
    WorldIsDbOk(w);
    EditingFrame(w.db, first);
    DraftStep(w.db, first, first.mod);
    StepKeepsWorld(w, first);
    SameRevisionSamePages(w1, between, first.mod);
    var w2 := Run(w1, between);
    WorldIsDbOk(w2);
    DraftStep(w2.db, second, first.mod);
  }

  /** In every reachable state every draft numbers its pages 0..n-1. */
  lemma PositionsOfEveryRun(requests: seq<Request>, m: ModuleId)
    requires m in Run(EMPTY, requests).db.modules
    ensures Contiguous(Run(EMPTY, requests).db.modules[m].draft.rows)
  {
    hide Run, DbOk, HistoryOk, Contiguous;
    EveryRunIsOk(requests);
    var db := Run(EMPTY, requests).db;
    assert TableOk(db.pageOwner, m, db.modules[m].draft.rows);
  }

  // --- The variant a learner gets --------------------------------------------------------------------------

  /** With a row, every open, view and completion is of the row's text, for as long as that text stays readable. */
  lemma RowDecidesTheVariant(db: Db, k: Key)
    requires DbOk(db) && k in db.progress && k.user in db.users
    requires Readable(db, k.user, k.group, db.progress[k].mod)
    ensures Resolve(db, k.user, k.group) == Some(db.progress[k].mod)
  {
    hide MayRead, AssignedGroups, GroupsOk, VersionRowsOk, Variants.Pick, Variants.Favoured;
    var m := db.progress[k].mod;
    assert ProgressOk(db, k, db.progress[k]);
    assert RowOk(db.versions, m, db.modules[m]);
    var v := Variants.Variant(db.modules[m].language, m);
    assert v in ReadableVariants(db, k.user, k.group);
    Variants.StickyWins(ReadableVariants(db, k.user, k.group), db.users[k.user].preferred, Some(db.groups[k.group]), v);
  }

  /** The text changes only by an explicit switch, whatever preferences, primaries, links and publishes happen meanwhile. */
  lemma {:induction false} VariantIsStable(w: World, requests: seq<Request>, k: Key)
    requires WorldOk(w) && k in w.db.progress
    requires forall i :: 0 <= i < |requests| ==> !(requests[i].SwitchLanguage? && Touched(requests[i]) == k)
    ensures var db := Run(w, requests).db;
            && WorldOk(Run(w, requests))
            && k in db.progress && db.progress[k].mod == w.db.progress[k].mod
            && (k.user in db.users && Readable(db, k.user, k.group, w.db.progress[k].mod) ==>
                  Resolve(db, k.user, k.group) == Some(w.db.progress[k].mod))
  {
    hide WorldOk, Apply, EventOf, Readable, Resolve;
    if requests != [] {
      var before, r := Run(w, requests[..|requests| - 1]), requests[|requests| - 1];
      VariantIsStable(w, requests[..|requests| - 1], k);
      StepKeepsWorld(before, r);
      if Apply(before.db, r).Ok? {
        WorldIsDbOk(before);
        EvidenceIsConserved(before.db, r, k);
      }
    }
    var db := Run(w, requests).db;
    WorldIsDbOk(Run(w, requests));
    if k.user in db.users && Readable(db, k.user, k.group, w.db.progress[k].mod) {
      RowDecidesTheVariant(db, k);
    }
  }
}
