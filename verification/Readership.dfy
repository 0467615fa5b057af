/** What a learner has read counts, until something puts them back at the start, and whoever has read everything can attest. */
module Readership {
  import opened Common
  import opened Domain
  import opened Records
  import opened Frames
  import opened Lifecycle
  import opened Translations
  import opened Evidence
  import opened Effects
  import opened Attestation
  import opened Histories
  import opened Runs
  import Variants

  /** The pages of the current version of the text that opens for this learner. */
  ghost function OpenPages(db: Db, k: Key): seq<PageId>
    requires k.user in db.users && Resolve(db, k.user, k.group).Some?
  {
    PageIds(CurrentVersion(db, Resolve(db, k.user, k.group).value).pages)
  }

  /** Does this request put the learner back at the start: a substantive publish of the group, or their own switch to another text? */
  ghost predicate PutsBack(db: Db, r: Request, k: Key)
    requires Apply(db, r).Ok?
  {
    || SendsBack(db, r, k.group)
    || (r.SwitchLanguage? && Key(r.user, r.group) == k && k in db.progress && Subject(db, r) != db.progress[k].mod)
  }

  // --- One request -----------------------------------------------------------------------------------

  /** Exactly the learner's own view of a page adds to what they have viewed, and exactly what puts them back empties it. */
  lemma ViewedAfter(db: Db, r: Request, k: Key, q: PageId)
    requires DbOk(db) && Apply(db, r).Ok?
    ensures q in Viewed(Apply(db, r).value, k) <==>
              !PutsBack(db, r, k) && (q in Viewed(db, k) || r == ViewPage(k.user, k.group, q))
  {
    hide DbOk, Apply, Subject, SendsBack;
    if Learns(r) {
      LearningStep(db, r);
      LearnersSendNobodyBack(db, r, k.group);
    } else if k in db.progress {
      RowsStay(db, r, k);
    } else if k in Apply(db, r).value.progress {
      AnyKeyWasThere(db, r, k);
    }
  }

  lemma LearnersSendNobodyBack(db: Db, r: Request, g: GroupId)
    requires Learns(r)
    ensures !SendsBack(db, r, g)
  {
  }

  /** A page is listed once, however often it is viewed. */
  ghost predicate ListedOnce(db: Db) {
    forall k :: k in db.progress ==> NoDuplicates(db.progress[k].viewed)
  }

  lemma StepListsOnce(db: Db, r: Request)
    requires DbOk(db) && Apply(db, r).Ok? && ListedOnce(db)
    ensures ListedOnce(Apply(db, r).value)
  {
    hide DbOk, Apply, Subject, SendsBack;
    forall k | k in Apply(db, r).value.progress ensures NoDuplicates(Apply(db, r).value.progress[k].viewed) {
      if Learns(r) {
        LearningStep(db, r);
      } else {
        AnyKeyWasThere(db, r, k);
        RowsStay(db, r, k);
      }
    }
  }

  // --- Over every run -----------------------------------------------------------------------------------

  lemma ReadingLeavesItsMark(db: Db, r: Request, k: Key, p: PageId)
    requires DbOk(db) && Apply(db, r).Ok?
    ensures Matches(EventOf(db, r), Reads(k.user, k.group, p)) <==> r == ViewPage(k.user, k.group, p)
    ensures Matches(EventOf(db, r), Restarts(k.user, k.group)) <==> PutsBack(db, r, k)
  {
    hide Apply, EventOf, DbOk, Subject, PageIds, Snapshot, Highest;
    if Learns(r) {
      EventsOfLearning(db, r);
    } else {
      EventsOfAuthoring(db, r);
    }
  }

  /** A page counts exactly while its last view is more recent than whatever last put the learner back. */
  ghost predicate ViewsAreExact(w: World) {
    forall k: Key, p :: p in Viewed(w.db, k) <==> CountsAsRead(w.history, k, p)
  }

  ghost predicate CountsAsRead(h: seq<Event>, k: Key, p: PageId) {
    Last(h, Reads(k.user, k.group, p)) > Last(h, Restarts(k.user, k.group))
  }

  lemma StepKeepsViewsExact(w: World, r: Request)
    requires WorldOk(w) && ViewsAreExact(w) && ListedOnce(w.db)
    ensures ViewsAreExact(Next(w, r)) && ListedOnce(Next(w, r).db)
  {
    hide Apply, EventOf, PutsBack, WorldOk, Last, Matches, Viewed, ListedOnce;
    if Apply(w.db, r).Ok? {
      WorldIsDbOk(w);
      StepListsOnce(w.db, r);
      var w' := Next(w, r);
      forall k: Key, p ensures p in Viewed(w'.db, k) <==> CountsAsRead(w'.history, k, p) {
        ViewedAfter(w.db, r, k, p);
        ReadingLeavesItsMark(w.db, r, k, p);
        LastAfter(w.history, EventOf(w.db, r), Reads(k.user, k.group, p));
        LastAfter(w.history, EventOf(w.db, r), Restarts(k.user, k.group));
        assert p in Viewed(w.db, k) <==> CountsAsRead(w.history, k, p);
      }
    }
  }

  lemma {:induction false} ViewsOfEveryRun(requests: seq<Request>)
    ensures ViewsAreExact(Run(EMPTY, requests)) && ListedOnce(Run(EMPTY, requests).db)
  {
    hide Next, ViewsAreExact, ListedOnce;
    if requests == [] {
      assert ViewsAreExact(EMPTY) && ListedOnce(EMPTY.db) by { NothingRead(); }
    } else {
      var front := requests[..|requests| - 1];
      ViewsOfEveryRun(front);
      EveryRunIsOk(front);
      StepKeepsViewsExact(Run(EMPTY, front), requests[|requests| - 1]);
    }
  }

  lemma NothingRead()
    ensures ViewsAreExact(EMPTY) && ListedOnce(EMPTY.db)
  {
  }

  /** This learner viewed this page, and nothing has put them back since. */
  ghost predicate HasRead(h: seq<Event>, k: Key, p: PageId) {
    exists i :: 0 <= i < |h| && Matches(h[i], Reads(k.user, k.group, p)) && NoRestartAfter(h, i, k)
  }

  predicate NoRestartAfter(h: seq<Event>, i: int, k: Key)
    requires 0 <= i < |h|
  {
    forall j :: i < j < |h| ==> !Matches(h[j], Restarts(k.user, k.group))
  }

  lemma HasReadIff(h: seq<Event>, k: Key, p: PageId)
    ensures HasRead(h, k, p) <==> CountsAsRead(h, k, p)
  {
    hide Last;
    var v, s := Last(h, Reads(k.user, k.group, p)), Last(h, Restarts(k.user, k.group));
    LastMeans(h, Reads(k.user, k.group, p));
    LastMeans(h, Restarts(k.user, k.group));
    if HasRead(h, k, p) {
      var i :| 0 <= i < |h| && Matches(h[i], Reads(k.user, k.group, p)) && NoRestartAfter(h, i, k);
      assert i <= v;
      assert s <= i;
    }
  }

  /** In every reachable state exactly those pages count as viewed which the learner has read since they were last put back. */
  lemma ViewedIsExact(requests: seq<Request>, k: Key, p: PageId)
    ensures var w := Run(EMPTY, requests); p in Viewed(w.db, k) <==> HasRead(w.history, k, p)
  {
    hide Run, Viewed, CountsAsRead, HasRead;
    ViewsOfEveryRun(requests);
    var w := Run(EMPTY, requests);
    HasReadIff(w.history, k, p);
    assert p in Viewed(w.db, k) <==> CountsAsRead(w.history, k, p);
  }

  lemma AcceptedWhenViewed(db: Db, k: Key, now: Time)
    ensures Apply(db, Complete(k.user, k.group, now)).Ok? <==>
              && k.user in db.users && Resolve(db, k.user, k.group).Some? && forall p :: p in OpenPages(db, k) ==> p in Viewed(db, k)
  {
    hide Resolve, PageIds;
    if k.user in db.users && Resolve(db, k.user, k.group).Some? {
      assert Viewed(db, k) == Claimed(db, k, Resolve(db, k.user, k.group).value).viewed;
      assert Key(k.user, k.group) == k;
    }
  }

  /**
   * The other half of sound attestation: in every reachable state a learner's completion is accepted exactly when some text
   * opens for them and they have read each page of its current version since they were last put back.
   */
  lemma CompletionIsAcceptedIff(requests: seq<Request>, k: Key, now: Time)
    ensures var w := Run(EMPTY, requests);
            Apply(w.db, Complete(k.user, k.group, now)).Ok? <==>
              && k.user in w.db.users && Resolve(w.db, k.user, k.group).Some?
              && forall p :: p in OpenPages(w.db, k) ==> HasRead(w.history, k, p)
  {
    hide Run, Resolve, HasRead, OpenPages, Apply;
    var w := Run(EMPTY, requests);
    AcceptedWhenViewed(w.db, k, now);
    forall p ensures p in Viewed(w.db, k) <==> HasRead(w.history, k, p) {
      ViewedIsExact(requests, k, p);
    }
  }

  // --- From requests to attestation -------------------------------------------------------------------------

  /** Nothing in this run puts the learner back. */
  ghost predicate Undisturbed(w: World, requests: seq<Request>, k: Key) {
    forall i: nat :: i < |requests| && Accepted(w, requests, i) ==> !PutsBack(Before(w, requests, i).db, requests[i], k)
  }

  /** Somewhere in this run the learner's view of this page is accepted. */
  ghost predicate Views(w: World, requests: seq<Request>, k: Key, p: PageId) {
    exists i: nat :: i < |requests| && Accepted(w, requests, i) && requests[i] == ViewPage(k.user, k.group, p)
  }

  /** What was read before an undisturbed run, or is read in it, counts at its end; nothing else does. */
  lemma {:induction false} ReadingCounts(w: World, requests: seq<Request>, k: Key, p: PageId)
    requires WorldOk(w) && Undisturbed(w, requests, k)
    ensures WorldOk(Run(w, requests))
    ensures p in Viewed(Run(w, requests).db, k) <==> p in Viewed(w.db, k) || Views(w, requests, k, p)
    decreases |requests|
  {
    hide WorldOk, Apply, EventOf, PutsBack, Viewed, Before;
    if requests != [] {
      var front, n, r := requests[..|requests| - 1], |requests| - 1, requests[|requests| - 1];
      FrontOfRun(w, requests);
      assert Undisturbed(w, front, k) by {
        forall i: nat | i < |front| && Accepted(w, front, i) ensures !PutsBack(Before(w, front, i).db, front[i], k) {
          assert Accepted(w, requests, i);
        }
      }
      ReadingCounts(w, front, k, p);
      var before := Run(w, front);
      StepKeepsWorld(before, r);
      WorldIsDbOk(before);
      ViewsInOneMore(w, requests, k, p);
      if Apply(before.db, r).Ok? {
        assert Accepted(w, requests, n);
        ViewedAfter(before.db, r, k, p);
      }
    }
  }

  lemma ViewsInOneMore(w: World, requests: seq<Request>, k: Key, p: PageId)
    requires requests != []
    ensures var front, r := requests[..|requests| - 1], requests[|requests| - 1];
            Views(w, requests, k, p) <==>
              Views(w, front, k, p) || (Apply(Run(w, front).db, r).Ok? && r == ViewPage(k.user, k.group, p))
  {
    hide Run, Apply, Before;
    FrontOfRun(w, requests);
    var front, n := requests[..|requests| - 1], |requests| - 1;
    if i: nat :| i < |front| && Accepted(w, front, i) && front[i] == ViewPage(k.user, k.group, p) {
      assert Accepted(w, requests, i) && requests[i] == front[i];
    }
    if i: nat :| i < |requests| && Accepted(w, requests, i) && requests[i] == ViewPage(k.user, k.group, p) {
      assert i < n ==> Accepted(w, front, i) && front[i] == requests[i];
    }
    if Apply(Run(w, front).db, requests[n]).Ok? {
      assert Accepted(w, requests, n);
    }
  }

  /**
   * Whoever has every page of the text they are given viewed in the course of a run, with nothing putting them back in
   * between, has their completion accepted at its end, whatever everybody else does meanwhile.
   */
  lemma ReadingThroughCompletes(w: World, requests: seq<Request>, k: Key, now: Time)
    requires WorldOk(w) && Undisturbed(w, requests, k)
    requires k.user in Run(w, requests).db.users && Resolve(Run(w, requests).db, k.user, k.group).Some?
    requires forall p :: p in OpenPages(Run(w, requests).db, k) ==> Views(w, requests, k, p)
    ensures Apply(Run(w, requests).db, Complete(k.user, k.group, now)).Ok?
  {
    hide WorldOk, Run, Undisturbed, Views, Resolve, OpenPages;
    var db := Run(w, requests).db;
    forall p | p in OpenPages(db, k) ensures p in Viewed(db, k) {
      ReadingCounts(w, requests, k, p);
    }
    AcceptedWhenViewed(db, k, now);
  }

  // --- Which text opens ----------------------------------------------------------------------------------------

  predicate IsReading(db: Db, u: UserId, g: GroupId, m: ModuleId) {
    Key(u, g) in db.progress && db.progress[Key(u, g)].mod == m
  }

  /** None of the texts this learner may read is the one they are reading. */
  ghost predicate ReadsNone(db: Db, u: UserId, g: GroupId)
    requires u in db.users
  {
    forall n :: n in db.modules && Readable(db, u, g, n) ==> !IsReading(db, u, g, n)
  }

  ghost predicate NoneInTheirLanguage(db: Db, u: UserId, g: GroupId)
    requires u in db.users
  {
    forall n :: n in db.modules && Readable(db, u, g, n) ==> db.users[u].preferred != Some(db.modules[n].language)
  }

  ghost predicate IsFirstLanguage(db: Db, u: UserId, g: GroupId, m: ModuleId)
    requires u in db.users && m in db.modules
  {
    forall n :: n in db.modules && Readable(db, u, g, n) ==> db.modules[m].language <= db.modules[n].language
  }

  lemma ReadableAreTranslations(db: Db, u: UserId, g: GroupId)
    requires GroupsOk(db) && u in db.users
    ensures Variants.AreTranslations(ReadableVariants(db, u, g))
  {
    hide MayRead, AssignedGroups;
  }

  lemma RankedByPick(db: Db, u: UserId, g: GroupId, m: ModuleId)
    requires GroupsOk(db) && LifecycleOk(db) && u in db.users && Readable(db, u, g, m)
    requires Variants.Pick(ReadableVariants(db, u, g), db.users[u].preferred, Some(db.groups[g]), Sticky(db, Key(u, g))) ==
             Some(Variants.Variant(db.modules[m].language, m))
    ensures Resolve(db, u, g) == Some(m)
  {
    hide Variants.Pick, ReadableVariants, MayRead, AssignedGroups, VersionRowsOk;
    assert RowOk(db.versions, m, db.modules[m]);
  }

  /**
   * In every reachable state, of the texts of a material that a learner may read, the one they are reading opens; else the one in
   * their language; else the primary; else the one whose language comes first.
   */
  lemma WhatOpens(requests: seq<Request>, u: UserId, g: GroupId, m: ModuleId)
    requires u in Run(EMPTY, requests).db.users && Readable(Run(EMPTY, requests).db, u, g, m)
    ensures var db := Run(EMPTY, requests).db;
            && g in db.groups
            && (IsReading(db, u, g, m) ==> Resolve(db, u, g) == Some(m))
            && (ReadsNone(db, u, g) ==>
                  && (db.users[u].preferred == Some(db.modules[m].language) ==> Resolve(db, u, g) == Some(m))
                  && (NoneInTheirLanguage(db, u, g) ==>
                        && (db.groups[g] == m ==> Resolve(db, u, g) == Some(m))
                        && (!Readable(db, u, g, db.groups[g]) && IsFirstLanguage(db, u, g, m) ==> Resolve(db, u, g) == Some(m))))
  {
    hide Run, Resolve, GroupsOk, LifecycleOk, EvidenceOk, Variants.Pick, MayRead, AssignedGroups, Variants.AreTranslations, Readable;
    EveryRunIsOk(requests);
    WorldIsDbOk(Run(EMPTY, requests));
    RankedInState(Run(EMPTY, requests).db, u, g, m);
  }

  lemma RankedInState(db: Db, u: UserId, g: GroupId, m: ModuleId)
    requires GroupsOk(db) && LifecycleOk(db) && u in db.users && Readable(db, u, g, m)
    ensures g in db.groups
    ensures IsReading(db, u, g, m) ==> Resolve(db, u, g) == Some(m)
    ensures ReadsNone(db, u, g) && db.users[u].preferred == Some(db.modules[m].language) ==> Resolve(db, u, g) == Some(m)
    ensures ReadsNone(db, u, g) && NoneInTheirLanguage(db, u, g) && db.groups[g] == m ==> Resolve(db, u, g) == Some(m)
    ensures ReadsNone(db, u, g) && NoneInTheirLanguage(db, u, g) && !Readable(db, u, g, db.groups[g]) && IsFirstLanguage(db, u, g, m) ==>
              Resolve(db, u, g) == Some(m)
  {
    hide Resolve, LifecycleOk, Variants.Pick, MayRead, AssignedGroups, Variants.AreTranslations;
    ReadableAreTranslations(db, u, g);
    var vs, v := ReadableVariants(db, u, g), Variants.Variant(db.modules[m].language, m);
    assert v in vs;
    Variants.ChoiceIsRanked(vs, db.users[u].preferred, Some(db.groups[g]), Sticky(db, Key(u, g)), v);
    if Variants.Pick(vs, db.users[u].preferred, Some(db.groups[g]), Sticky(db, Key(u, g))) == Some(v) {
      RankedByPick(db, u, g, m);
    }
  }

  // --- Everybody who can open a text can complete it ----------------------------------------------------------

  function ViewAll(k: Key, pages: seq<PageId>): seq<Request> {
    seq(|pages|, i requires 0 <= i < |pages| => ViewPage(k.user, k.group, pages[i]))
  }

  /** What opens for this learner, and which version of it, is as before. */
  ghost predicate OpensTheSame(db: Db, db': Db, k: Key) {
    && db' == db.(progress := db'.progress)
    && k.user in db.users && Resolve(db', k.user, k.group) == Resolve(db, k.user, k.group)
  }

  lemma ReadableStays(db: Db, db': Db, k: Key)
    requires k.user in db.users && db' == db.(progress := db'.progress)
    ensures ReadableVariants(db', k.user, k.group) == ReadableVariants(db, k.user, k.group)
    ensures forall m :: Readable(db', k.user, k.group, m) <==> Readable(db, k.user, k.group, m)
  {
    assert AssignedGroups(db', k.user) == AssignedGroups(db, k.user);
  }

  /** A first view fixes the text it opened; a later one changes nothing about which text opens. */
  lemma ViewingKeepsTheText(w: World, k: Key, p: PageId)
    requires WorldOk(w) && Apply(w.db, ViewPage(k.user, k.group, p)).Ok?
    ensures OpensTheSame(w.db, Next(w, ViewPage(k.user, k.group, p)).db, k)
    ensures var db' := Next(w, ViewPage(k.user, k.group, p)).db;
            Viewed(db', k) == if p in Viewed(w.db, k) then Viewed(w.db, k) else Viewed(w.db, k) + [p]
  {
    hide WorldOk, PageIds, Readable, ReadableVariants;
    var r := ViewPage(k.user, k.group, p);
    var db' := Next(w, r).db;
    StepKeepsWorld(w, r);
    WorldIsDbOk(Next(w, r));
    assert db' == w.db.(progress := db'.progress);
    ReadableStays(w.db, db', k);
    if k !in w.db.progress {
      RowDecidesTheVariant(db', k);
    }
  }

  /** Whoever can open a text can complete it: they view what is left of it, page by page, and attest. */
  lemma {:induction false} ReadersCanComplete(w: World, k: Key, pages: seq<PageId>, now: Time)
    requires WorldOk(w) && k.user in w.db.users && Resolve(w.db, k.user, k.group).Some?
    requires forall p :: p in pages ==> p in OpenPages(w.db, k)
    requires forall p :: p in OpenPages(w.db, k) ==> p in pages || p in Viewed(w.db, k)
    ensures Apply(Run(w, ViewAll(k, pages)).db, Complete(k.user, k.group, now)).Ok?
    decreases |pages|
  {
    hide WorldOk, OpenPages, Resolve, Viewed, Next, Apply, Run;
    if pages == [] {
      assert Run(w, ViewAll(k, pages)) == w by { EmptyRun(w); }
      AcceptedWhenViewed(w.db, k, now);
    } else {
      var r := ViewPage(k.user, k.group, pages[0]);
      assert pages[0] in pages && pages == [pages[0]] + pages[1..];
      ViewIsAccepted(w.db, k, pages[0]);
      ViewingKeepsTheText(w, k, pages[0]);
      SamePagesOpen(w.db, Next(w, r).db, k);
      StepKeepsWorld(w, r);
      ReadersCanComplete(Next(w, r), k, pages[1..], now);
      assert ViewAll(k, pages) == [r] + ViewAll(k, pages[1..]);
      RunFromFirst(w, r, ViewAll(k, pages[1..]));
    }
  }

  lemma EmptyRun(w: World)
    ensures Run(w, []) == w
  {
  }

  lemma ViewIsAccepted(db: Db, k: Key, p: PageId)
    requires k.user in db.users && Resolve(db, k.user, k.group).Some? && p in OpenPages(db, k)
    ensures Apply(db, ViewPage(k.user, k.group, p)).Ok?
  {
    hide Resolve, PageIds;
  }

  lemma SamePagesOpen(db: Db, db': Db, k: Key)
    requires OpensTheSame(db, db', k) && Resolve(db, k.user, k.group).Some?
    ensures OpenPages(db', k) == OpenPages(db, k)
  {
    hide Resolve;
  }

  lemma {:induction false} RunFromFirst(w: World, r: Request, requests: seq<Request>)
    ensures Run(w, [r] + requests) == Run(Next(w, r), requests)
  {
    hide Next;
    var all := [r] + requests;
    if requests == [] {
      assert all == [r] && all[..0] == [];
      assert Run(w, all[..0]) == w;
    } else {
      assert all[..|all| - 1] == [r] + requests[..|requests| - 1];
      RunFromFirst(w, r, requests[..|requests| - 1]);
    }
  }
}
