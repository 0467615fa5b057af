/** Who has validly attested to which text: what a completion proves about the history behind it. */
module Attestation {
  import opened Domain
  import opened Records
  import Pages

  // --- Looking back through the history ------------------------------------------------------

  datatype Mark =
    | Publishes(mod: ModuleId, number: nat)                                // publication of this version
    | Supersedes(group: GroupId)                                           // substantive publication of any variant of this group
    | Views(user: UserId, group: GroupId, mod: ModuleId, page: PageId)     // this learner's view of this page
    | Attests(user: UserId, group: GroupId)                                // this learner's completion of this material
    | Reads(user: UserId, group: GroupId, page: PageId)                    // this learner's view of this page, in whichever text
    | Restarts(user: UserId, group: GroupId)                               // what puts this learner back at the start

  predicate Matches(e: Event, mark: Mark) {
    match mark
    case Publishes(m, n) => e.Publication? && e.mod == m && e.number == n
    case Supersedes(g) => e.Publication? && e.group == g && e.kind.Substantive?
    case Views(u, g, m, p) => e == PageView(u, g, m, p)
    case Attests(u, g) => e.Attestation? && e.user == u && e.group == g
    case Reads(u, g, p) => e.PageView? && e.user == u && e.group == g && e.page == p
    case Restarts(u, g) =>
      || (e.Publication? && e.group == g && e.kind.Substantive?)
      || (e.TextChange? && e.user == u && e.group == g)
  }

  /** The index of the last matching event, or -1. */
  function Last(h: seq<Event>, mark: Mark): (i: int)
    ensures -1 <= i < |h|
  {
    if h == [] then -1
    else if Matches(h[|h| - 1], mark) then |h| - 1
    else Last(h[..|h| - 1], mark)
  }

  lemma {:induction false} LastMeans(h: seq<Event>, mark: Mark)
    ensures Last(h, mark) >= 0 ==> Matches(h[Last(h, mark)], mark)
    ensures forall i :: Last(h, mark) < i < |h| ==> !Matches(h[i], mark)
  {
    if h != [] && !Matches(h[|h| - 1], mark) {
      LastMeans(h[..|h| - 1], mark);
    }
  }

  lemma LastAfter(h: seq<Event>, e: Event, mark: Mark)
    ensures Last(h + [e], mark) == if Matches(e, mark) then |h| else Last(h, mark)
  {
    assert (h + [e])[..|h|] == h;
  }

  // --- What the rows and the history say about each other ---------------------------------------

  /** Every page counted as viewed was viewed after the group's last substantive publication. */
  predicate ViewsOk(owners: map<PageId, ModuleId>, h: seq<Event>, k: Key, viewed: seq<PageId>) {
    forall i :: 0 <= i < |viewed| ==>
      viewed[i] in owners && Last(h, Views(k.user, k.group, owners[viewed[i]], viewed[i])) > Last(h, Supersedes(k.group))
  }

  /** All these pages had been viewed, each after the group's last substantive publication, when `h` was the whole history. */
  predicate Covered(h: seq<Event>, k: Key, m: ModuleId, pages: seq<PageId>) {
    forall i :: 0 <= i < |pages| ==> Last(h, Views(k.user, k.group, m, pages[i])) > Last(h, Supersedes(k.group))
  }

  /** The completion fields of a row record the learner's last attestation, and `supersededAt` whether it is still current. */
  predicate CompletionOk(h: seq<Event>, k: Key, row: Progress) {
    var c, s := Last(h, Attests(k.user, k.group)), Last(h, Supersedes(k.group));
    && (row.completedAt.Some? <==> c >= 0)
    && (row.completedAt.None? ==> row.supersededAt.None?)
    && (row.completedAt.Some? ==>
          && row.completedModule.Some? && row.completedVersion.Some?
          && h[c] == Event.Attestation(k.user, k.group, row.completedModule.value, row.completedVersion.value)
          && (row.supersededAt.None? <==> c > s))
  }

  /** The attested version was published before, and its pages had all been viewed by then. */
  predicate AttestedTextOk(h: seq<Event>, k: Key, m: ModuleId, n: nat) {
    var b, c := Last(h, Publishes(m, n)), Last(h, Attests(k.user, k.group));
    0 <= b < c && h[b].Publication? && Covered(h[..c], k, m, h[b].pages)
  }

  predicate RowHistoryOk(owners: map<PageId, ModuleId>, h: seq<Event>, k: Key, row: Progress) {
    && ViewsOk(owners, h, k, row.viewed)
    && CompletionOk(h, k, row)
    && (row.completedModule.Some? && row.completedVersion.Some? ==>
        AttestedTextOk(h, k, row.completedModule.value, row.completedVersion.value))
  }

  predicate VersionHistoryOk(h: seq<Event>, v: Version) {
    var b := Last(h, Publishes(v.mod, v.number));
    0 <= b && h[b].Publication? && h[b].pages == PageIds(v.pages)
  }

  ghost predicate HistoryOk(w: World) {
    && (forall k :: k in w.db.progress ==> RowHistoryOk(w.db.pageOwner, w.history, k, w.db.progress[k]))
    && (forall k: Key :: k !in w.db.progress ==> Last(w.history, Attests(k.user, k.group)) == -1)
    && (forall v :: v in w.db.versions ==> VersionHistoryOk(w.history, w.db.versions[v]))
  }

  // --- An event that concerns neither the row nor its text --------------------------------------------

  /** The event matches nothing that this row's history looks for. */
  predicate Unrelated(e: Event, k: Key, row: Progress) {
    && !Matches(e, Supersedes(k.group))
    && !Matches(e, Attests(k.user, k.group))
    && (row.completedModule.Some? && row.completedVersion.Some? ==>
        !Matches(e, Publishes(row.completedModule.value, row.completedVersion.value)))
  }

  lemma ViewsStayOk(owners: map<PageId, ModuleId>, owners': map<PageId, ModuleId>, h: seq<Event>, e: Event, k: Key, viewed: seq<PageId>)
    requires ViewsOk(owners, h, k, viewed) && Pages.Grown(owners, owners') && !Matches(e, Supersedes(k.group))
    ensures ViewsOk(owners', h + [e], k, viewed)
  {
    hide Last, Matches;
    LastAfter(h, e, Supersedes(k.group));
    forall i | 0 <= i < |viewed|
      ensures viewed[i] in owners' &&
          Last(h + [e], Views(k.user, k.group, owners'[viewed[i]], viewed[i])) > Last(h + [e], Supersedes(k.group))
    {
      LastAfter(h, e, Views(k.user, k.group, owners[viewed[i]], viewed[i]));
    }
  }

  lemma AttestedTextStaysOk(h: seq<Event>, e: Event, k: Key, m: ModuleId, n: nat)
    requires AttestedTextOk(h, k, m, n)
    requires !Matches(e, Attests(k.user, k.group)) && !Matches(e, Publishes(m, n))
    ensures AttestedTextOk(h + [e], k, m, n)
  {
    hide Last, Matches, Covered;
    LastAfter(h, e, Attests(k.user, k.group));
    LastAfter(h, e, Publishes(m, n));
    var c := Last(h, Attests(k.user, k.group));
    assert (h + [e])[..c] == h[..c];
  }

  lemma UnrelatedEventsKeepRows(owners: map<PageId, ModuleId>, owners': map<PageId, ModuleId>, h: seq<Event>,
        e: Event, k: Key, row: Progress)
    requires RowHistoryOk(owners, h, k, row) && Pages.Grown(owners, owners') && Unrelated(e, k, row)
    ensures RowHistoryOk(owners', h + [e], k, row)
  {
    hide Last, Matches, ViewsOk, AttestedTextOk;
    ViewsStayOk(owners, owners', h, e, k, row.viewed);
    LastAfter(h, e, Attests(k.user, k.group));
    LastAfter(h, e, Supersedes(k.group));
    if row.completedModule.Some? && row.completedVersion.Some? {
      AttestedTextStaysOk(h, e, k, row.completedModule.value, row.completedVersion.value);
    }
  }

  // --- The events that do concern it ---------------------------------------------------------------------

  /** A substantive publication of the group: the views are gone, and a completion is marked as past. */
  lemma SupersedingKeepsRows(owners: map<PageId, ModuleId>, h: seq<Event>, e: Event, k: Key, row: Progress, now: Time)
    requires RowHistoryOk(owners, h, k, row) && Matches(e, Supersedes(k.group))
    requires row.completedModule.Some? && row.completedVersion.Some? ==>
        !Matches(e, Publishes(row.completedModule.value, row.completedVersion.value))
    ensures RowHistoryOk(owners, h + [e], k, Outstanding(row, now))
  {
    hide Last, AttestedTextOk;
    LastAfter(h, e, Attests(k.user, k.group));
    LastAfter(h, e, Supersedes(k.group));
    if row.completedModule.Some? && row.completedVersion.Some? {
      AttestedTextStaysOk(h, e, k, row.completedModule.value, row.completedVersion.value);
    }
  }

  /** A page view: the page now counts, as a view of the module that owns it. */
  lemma ViewingKeepsRows(owners: map<PageId, ModuleId>, h: seq<Event>, k: Key, row: Progress, m: ModuleId, p: PageId)
    requires RowHistoryOk(owners, h, k, row) && p in owners && owners[p] == m
    ensures RowHistoryOk(owners, h + [PageView(k.user, k.group, m, p)], k, RowAfterView(row, p))
  {
    hide Last, AttestedTextOk, CompletionOk, ViewsOk;
    var e := PageView(k.user, k.group, m, p);
    UnrelatedEventsKeepRows(owners, owners, h, e, k, row);
    ViewingAddsAView(owners, h, k, row.viewed, m, p);
    LastAfter(h, e, Attests(k.user, k.group));
    LastAfter(h, e, Supersedes(k.group));
    CompletionIgnoresViews(h + [e], k, row, RowAfterView(row, p));
  }

  lemma CompletionIgnoresViews(h: seq<Event>, k: Key, row: Progress, row': Progress)
    requires CompletionOk(h, k, row)
    requires row' == row.(mod := row'.mod, viewed := row'.viewed, currentPage := row'.currentPage)
    ensures CompletionOk(h, k, row')
  {
  }

  lemma ViewingAddsAView(owners: map<PageId, ModuleId>, h: seq<Event>, k: Key, viewed: seq<PageId>, m: ModuleId, p: PageId)
    requires ViewsOk(owners, h, k, viewed) && p in owners && owners[p] == m
    ensures ViewsOk(owners, h + [PageView(k.user, k.group, m, p)], k, viewed + [p])
  {
    hide Last;
    var e := PageView(k.user, k.group, m, p);
    ViewsStayOk(owners, owners, h, e, k, viewed);
    LastAfter(h, e, Supersedes(k.group));
    LastAfter(h, e, Views(k.user, k.group, m, p));
  }

  /** A switch of language: nothing viewed so far counts for another text. */
  lemma SwitchingKeepsRows(owners: map<PageId, ModuleId>, h: seq<Event>, e: Event, k: Key, row: Progress, m: ModuleId)
    requires RowHistoryOk(owners, h, k, row) && (e.Other? || e.TextChange?)
    ensures RowHistoryOk(owners, h + [e], k, RowAfterSwitch(row, m))
  {
    hide Last, AttestedTextOk, CompletionOk;
    UnrelatedEventsKeepRows(owners, owners, h, e, k, row);
    CompletionIgnoresViews(h + [e], k, row, RowAfterSwitch(row, m));
  }

  /** An attestation: every page of the version had been viewed, and nothing has superseded those views. */
  lemma CompletingKeepsRows(owners: map<PageId, ModuleId>, h: seq<Event>, k: Key, row: Progress, m: ModuleId, version: Version, now: Time)
    requires RowHistoryOk(owners, h, k, row)
    requires version.mod == m && VersionHistoryOk(h, version) && Pages.Owned(owners, PageIds(version.pages), m)
    requires forall p :: p in PageIds(version.pages) ==> p in row.viewed
    ensures RowHistoryOk(owners, h + [Event.Attestation(k.user, k.group, m, version.number)], k,
        RowAfterCompletion(row, m, version.number, now))
  {
    hide Last;
    var e := Event.Attestation(k.user, k.group, m, version.number);
    ViewsStayOk(owners, owners, h, e, k, row.viewed);
    LastAfter(h, e, Attests(k.user, k.group));
    LastAfter(h, e, Supersedes(k.group));
    LastAfter(h, e, Publishes(m, version.number));
    assert (h + [e])[..|h|] == h;
    ViewedPagesCover(owners, h, k, m, PageIds(version.pages), row.viewed);
  }

  lemma ViewedPagesCover(owners: map<PageId, ModuleId>, h: seq<Event>, k: Key, m: ModuleId, pages: seq<PageId>, viewed: seq<PageId>)
    requires ViewsOk(owners, h, k, viewed) && Pages.Owned(owners, pages, m)
    requires forall p :: p in pages ==> p in viewed
    ensures Covered(h, k, m, pages)
  {
    hide Last;
    forall i | 0 <= i < |pages| ensures Last(h, Views(k.user, k.group, m, pages[i])) > Last(h, Supersedes(k.group)) {
      assert pages[i] in viewed;
      var j :| 0 <= j < |viewed| && viewed[j] == pages[i];
    }
  }
}
