/** The publishing, deleting, translating and learning routes, updating the tables in place. */
module Routes {
  import opened Common
  import opened Domain
  import opened Drafts
  import opened Records
  import opened Lifecycle
  import opened Evidence
  import opened Effects
  import opened Pages
  import Variants

  /** An accepted request leaves the tables its function computes; a refused one leaves them as they were. */
  ghost predicate Answered(expected: Result<Db, Refusal>, before: Db, after: Db, r: Result<(), Refusal>) {
    match expected
    case Ok(db) => r == Ok(()) && after == db
    case Err(e) => r == Err(e) && after == before
  }

  class Platform {
    var users: map<UserId, User>
    var groups: map<GroupId, ModuleId>
    var modules: map<ModuleId, Module>
    var versions: map<VersionId, Version>
    var progress: map<Key, Progress>
    var assignments: map<AssignmentId, Assignment>
    ghost var pageOwner: map<PageId, ModuleId>

    ghost function Tables(): Db
      reads this
    {
      Db(users, groups, modules, versions, progress, assignments, pageOwner)
    }

    ghost predicate Valid()
      reads this
    {
      DbOk(Tables()) && PagesOk(Tables())
    }

    // --- Publishing -------------------------------------------------------------------------

    /** `select coalesce(max(version_number), 0)` */
    method HighestVersion(m: ModuleId) returns (highest: nat)
      ensures highest == Highest(versions, m)
    {
      highest := 0;
      var unseen := versions.Keys;
      while unseen != {}
        invariant unseen <= versions.Keys
        invariant forall v :: v in versions && v !in unseen && versions[v].mod == m ==> versions[v].number <= highest
        invariant highest == 0 || exists v :: v in versions && versions[v].mod == m && versions[v].number == highest
        decreases |unseen|
      {
        var v :| v in unseen;
        if versions[v].mod == m && versions[v].number > highest {
          highest := versions[v].number;
        }
        unseen := unseen - {v};
      }
    }

    /** Every row of the group is put back at its start; each that held a completion is stamped and counted. */
    method SendLearnersBack(group: GroupId, now: Time) returns (superseded: nat)
      modifies this`progress
      ensures progress.Keys == old(progress).Keys
      ensures forall k :: k in progress ==>
                if k.group == group then IsSentBack(old(progress)[k], progress[k], now) else progress[k] == old(progress)[k]
      ensures superseded == |StampedRows(progress, group, now)|
      ensures progress == SentBack(old(progress), group, now)
    {
      hide SentBack, StampedRows, IsSentBack;
      superseded := 0;
      var unseen := progress.Keys;
      ghost var before, stamped: set<Key> := progress, {};
      while unseen != {}
        invariant unseen <= progress.Keys == old(progress).Keys
        invariant forall k :: k in unseen ==> progress[k] == before[k]
        invariant forall k :: k in progress && k !in unseen ==>
                    if k.group == group then IsSentBack(before[k], progress[k], now) else progress[k] == before[k]
        invariant stamped == set k | k in progress && k !in unseen && k.group == group && progress[k].completedAt.Some?
        invariant superseded == |stamped|
        decreases |unseen|
      {
        var k :| k in unseen;
        unseen := unseen - {k};
        if k.group == group {
          var row := progress[k].(viewed := [], currentPage := None);
          if row.completedAt.Some? {
            row := row.(supersededAt := Some(now));
            stamped := stamped + {k};
            superseded := superseded + 1;
          } else {
            row := row.(supersededAt := None);
          }
          OneSentBack(before[k], row, now);
          progress := progress[k := row];
        }
      }
      AllSentBack(before, progress, group, now);
      assert stamped == set k | k in progress && k.group == group && progress[k].completedAt.Some?;
    }

    method PublishModule(m: ModuleId, kind: Kind, newVersion: VersionId, now: Time) returns (r: Result<(), Refusal>)
      requires Valid()
      modifies this
      ensures Valid()
      ensures Answered(AfterPublish(old(Tables()), m, kind, newVersion, now), old(Tables()), Tables(), r)
    {
      hide DbOk, PagesOk, Snapshot, Highest, SentBack, Listing, BuildSnapshot, DistinctPositions;
      if m !in modules {
        return Err(NotFound);
      }
      if modules[m].status.Deleted? {
        return Err(ModuleDeleted);
      }
      ghost var before := Tables();
      DraftPagesAreDistinct(before, m);
      var pages := DraftStore.ModulePages(modules[m].draft.rows);
      if pages == [] {
        return Err(EmptyModule);
      }
      if newVersion in versions {
        return Err(Conflict);
      }
      var highest := HighestVersion(m);
      var snapshot := BuildSnapshot(modules[m].draft.rows, pages);
      Repoint(m, newVersion, Version(m, highest + 1, kind, snapshot));
      if kind.Substantive? {
        var superseded := SendLearnersBack(modules[m].group, now);
      }
      assert AfterPublish(before, m, kind, newVersion, now) == Ok(Tables());
      PublishingKeepsValid(before, m, kind, newVersion, now);
      return Ok(());
    }

    method Repoint(m: ModuleId, newVersion: VersionId, version: Version)
      requires m in modules
      modifies this`versions, this`modules
      ensures versions == old(versions)[newVersion := version]
      ensures modules == old(modules)[m := old(modules)[m].(status := Published, current := Some(newVersion))]
    {
      versions := versions[newVersion := version];
      modules := modules[m := modules[m].(status := Published)];
      modules := modules[m := modules[m].(current := Some(newVersion))];
    }

    method UnpublishModule(m: ModuleId) returns (r: Result<(), Refusal>)
      requires Valid()
      modifies this
      ensures Valid()
      ensures Answered(AfterUnpublish(old(Tables()), m), old(Tables()), Tables(), r)
      ensures r.Ok? ==> TakesOnly(m, old(Tables()), Tables())
    {
      hide DbOk, PagesOk, TakesOnly;
      if m !in modules {
        return Err(NotFound);
      }
      if !modules[m].status.Published? {
        return Err(NotPublished);
      }
      modules := modules[m := modules[m].(status := InDraft)];
      AppliedKeepsValid(old(Tables()), Unpublish(m));
      UnpublishingTakesOnly(old(Tables()), m);
      return Ok(());
    }

    // --- Deleting ------------------------------------------------------------------------------

    method DeleteModule(m: ModuleId) returns (r: Result<(), Refusal>)
      requires Valid()
      modifies this
      ensures Valid()
      ensures Answered(AfterDelete(old(Tables()), m), old(Tables()), Tables(), r)
    {
      hide DbOk, PagesOk;
      if m !in modules {
        return Err(NotFound);
      }
      if modules[m].status.Deleted? {
        return Err(AlreadyDeleted);
      }
      ghost var before := Tables();
      DeleteAssets(m);
      Bury(m);
      versions := map v | v in versions && versions[v].mod != m :: versions[v];
      assignments := map a | a in assignments && assignments[a].group != modules[m].group :: assignments[a];
      assert modules == before.modules[m := Tombstone(before, m)];
      assert AfterDelete(before, m) == Ok(Tables());
      DeletingKeepsValid(before, m);
      return Ok(());
    }

    /** The draft pages go, the number reached is captured before the pointer to it is cleared, and the row becomes a tombstone. */
    method Bury(m: ModuleId)
      requires m in modules
      modifies this`modules
      ensures modules == old(modules)[m := Tombstone(old(Tables()), m).(assets := old(modules)[m].assets)]
    {
      var row := modules[m].(draft := modules[m].draft.(rows := map[]));
      var number := match row.current
        case None => None
        case Some(v) => if v in versions then Some(versions[v].number) else None;
      row := row.(deletedVersion := number);
      row := row.(current := None);
      row := row.(status := Deleted, visible := false);
      modules := modules[m := row];
    }

    /** The asset rows go one by one, each with its stored object. */
    method DeleteAssets(m: ModuleId)
      requires m in modules
      modifies this`modules
      ensures modules == old(modules)[m := old(modules)[m].(assets := {})]
    {
      while modules[m].assets != {}
        invariant m in modules && modules == old(modules)[m := old(modules)[m].(assets := modules[m].assets)]
        decreases |modules[m].assets|
      {
        var asset :| asset in modules[m].assets;
        modules := modules[m := modules[m].(assets := modules[m].assets - {asset})];
      }
    }

    // --- Translations ---------------------------------------------------------------------------

    method LinkVariant(group: GroupId, m: ModuleId) returns (r: Result<(), Refusal>)
      requires Valid()
      modifies this
      ensures Valid()
      ensures Answered(AfterLink(old(Tables()), group, m), old(Tables()), Tables(), r)
      ensures r.Ok? ==> progress == old(progress)
    {
      hide DbOk, PagesOk;
      if group !in groups || m !in modules {
        return Err(NotFound);
      }
      if modules[m].group == group {
        return Err(AlreadyAVariant);
      }
      if modules[m].status.Deleted? {
        return Err(ModuleDeleted);
      }
      var left := modules[m].group;
      var siblings := set n | n in modules && modules[n].group == left;
      assert siblings == Siblings(Tables(), left) && m in siblings;
      if |siblings| > 1 {
        AloneWhenOne(siblings, m);
        return Err(SourceNotStandalone);
      }
      AloneWhenOne(siblings, m);
      var languages := set n | n in modules && modules[n].group == group :: modules[n].language;
      if modules[m].language in languages {
        return Err(LanguageAlreadyExists);
      }
      if exists k :: k in progress && k.group == left {
        return Err(SourceHasProgress);
      }
      modules := modules[m := modules[m].(group := group)];
      groups := groups - {left};
      assignments := map a | a in assignments && assignments[a].group != left :: assignments[a];
      assert progress == map k | k in progress && k.group != left :: progress[k];
      LinkingKeepsValid(old(Tables()), group, m);
      return Ok(());
    }

    method SetPrimaryVariant(group: GroupId, m: ModuleId) returns (r: Result<(), Refusal>)
      requires Valid()
      modifies this
      ensures Valid()
      ensures Answered(AfterSetPrimary(old(Tables()), group, m), old(Tables()), Tables(), r)
      ensures r.Ok? ==> ServesTheRest(m, old(Tables()), Tables())
    {
      hide DbOk, PagesOk, ServesTheRest;
      if group !in groups || m !in modules {
        return Err(NotFound);
      }
      if modules[m].group != group {
        return Err(NotAVariant);
      }
      groups := groups[group := m];
      AppliedKeepsValid(old(Tables()), SetPrimary(group, m));
      NominatingServesTheRest(old(Tables()), group, m);
      return Ok(());
    }

    // --- Assigning ---------------------------------------------------------------------------------

    /** One row for the material and the target; the unique constraint on the pair turns a second one away. */
    method CreateAssignment(id: AssignmentId, m: ModuleId, target: Target, due: Option<Day>, mandatory: bool, autoReminders: bool)
      returns (r: Result<(), Refusal>)
      requires Valid()
      modifies this
      ensures Valid()
      ensures Answered(AfterAssign(old(Tables()), id, m, target, due, mandatory, autoReminders), old(Tables()), Tables(), r)
      ensures r.Ok? ==>
                && m in modules && id in assignments
                && SaysWhatWasAsked(assignments[id], modules[m].group, target, due, mandatory, autoReminders)
    {
      hide DbOk, PagesOk;
      if m !in modules {
        return Err(NotFound);
      }
      if modules[m].status.Deleted? {
        return Err(ModuleDeleted);
      }
      if target.ToUser? && (target.user !in users || users[target.user].erased) {
        return Err(NotFound);
      }
      if id in assignments {
        return Err(Conflict);
      }
      if exists a :: a in assignments && assignments[a].group == modules[m].group && assignments[a].target == target {
        return Err(AlreadyAssigned);
      }
      assignments := assignments[id := Assignment(modules[m].group, target, due, mandatory, autoReminders)];
      AssigningKeepsValid(old(Tables()), id, m, target, due, mandatory, autoReminders);
      return Ok(());
    }

    method DeleteAssignment(id: AssignmentId) returns (r: Result<(), Refusal>)
      requires Valid()
      modifies this
      ensures Valid()
      ensures r == if id in old(assignments) then Ok(()) else Err(NotFound)
      ensures Tables() == old(Tables()).(assignments := old(assignments) - {id})
    {
      hide DbOk, PagesOk;
      if id !in assignments {
        assert assignments == assignments - {id};
        return Err(NotFound);
      }
      assignments := assignments - {id};
      AppliedKeepsValid(old(Tables()), Request.DeleteAssignment(id));
      return Ok(());
    }

    // --- Learning ----------------------------------------------------------------------------------

    /** The published variants of the group this learner may read, in whatever order the query returns them. */
    method SelectReadable(u: UserId, g: GroupId) returns (variants: seq<Variants.Variant>)
      requires u in users
      ensures Variants.AsSet(variants) == ReadableVariants(Tables(), u, g)
    {
      hide MayRead, AssignedGroups;
      var reach := set a | a in assignments && Names(assignments[a], u, users[u]) :: assignments[a].group;
      assert reach == AssignedGroups(Tables(), u) by {
        ReachIsAssigned(Tables(), u, reach);
      }
      variants := [];
      var unseen := modules.Keys;
      while unseen != {}
        invariant unseen <= modules.Keys
        invariant forall v :: v in variants <==>
            v.id in modules && v.id !in unseen && Readable(Tables(), u, g, v.id) && v.language == modules[v.id].language
        decreases |unseen|
      {
        var m :| m in unseen;
        var row := modules[m];
        if row.group == g && row.status.Published? && row.current.Some? && MayRead(users[u], row, reach) {
          variants := variants + [Variants.Variant(row.language, m)];
        }
        unseen := unseen - {m};
      }
    }

    method ResolveReadableVariant(u: UserId, g: GroupId) returns (r: Option<ModuleId>)
      requires u in users
      ensures r == Resolve(Tables(), u, g)
    {
      hide ReadableVariants, Variants.Pick, Readable;
      if g !in groups {
        return None;
      }
      var variants := SelectReadable(u, g);
      var sticky := if Key(u, g) in progress then Some(progress[Key(u, g)].mod) else None;
      var pick := Variants.PickVariant(variants, users[u].preferred, Some(groups[g]), sticky);
      if pick.None? {
        return None;
      }
      PickedIsReadable(Tables(), u, g, pick.value);
      if modules[pick.value.id].current.value !in versions {
        return None;
      }
      return Some(pick.value.id);
    }

    /** Inserted on conflict do nothing. */
    method ClaimProgress(k: Key, m: ModuleId)
      modifies this`progress
      ensures progress == old(progress)[k := Claimed(old(Tables()), k, m)]
    {
      if k !in progress {
        progress := progress[k := Progress(m, [], None, None, None, None, None)];
      }
    }

    method RecordPageView(u: UserId, g: GroupId, p: PageId) returns (r: Result<(), Refusal>)
      requires Valid()
      modifies this
      ensures Valid()
      ensures Answered(AfterView(old(Tables()), u, g, p), old(Tables()), Tables(), r)
      ensures r.Ok? ==> IsViewed(old(Tables()), Tables(), Key(u, g), p)
    {
      hide DbOk, PagesOk, Resolve, PageIds, IsViewed;
      if u !in users {
        return Err(ModuleUnavailable);
      }
      var m := ResolveReadableVariant(u, g);
      if m.None? {
        return Err(ModuleUnavailable);
      }
      var pages := PageIds(versions[modules[m.value].current.value].pages);
      if p !in pages {
        return Err(PageNotInVersion);
      }
      var k := Key(u, g);
      ghost var before := Tables();
      ClaimProgress(k, m.value);
      if p !in progress[k].viewed {
        progress := progress[k := progress[k].(viewed := progress[k].viewed + [p])];
      }
      progress := progress[k := progress[k].(currentPage := Some(p))];
      assert progress == before.progress[k := RowAfterView(Claimed(before, k, m.value), p)];
      ViewingKeepsValid(before, u, g, p);
      ViewIsRecorded(before, u, g, p);
      return Ok(());
    }

    method SwitchVariantLanguage(u: UserId, g: GroupId, language: Language) returns (r: Result<(), Refusal>)
      requires Valid()
      modifies this
      ensures Valid()
      ensures Answered(AfterSwitch(old(Tables()), u, g, language), old(Tables()), Tables(), r)
      ensures r.Ok? ==> IsSwitched(old(Tables()), Tables(), Key(u, g), language)
    {
      hide DbOk, PagesOk, ReadableVariants, IsSwitched;
      if u !in users {
        return Err(VariantUnavailable);
      }
      ghost var before := Tables();
      var readable := SelectReadable(u, g);
      var target: Option<ModuleId> := None;
      for i := 0 to |readable|
        invariant target.None? ==> forall j :: 0 <= j < i ==> readable[j].language != language
        invariant target.Some? ==> Variants.Variant(language, target.value) in readable
      {
        if target.None? && readable[i].language == language {
          target := Some(readable[i].id);
        }
      }
      SpeakerIsUnique(before, u, g, language, readable, target);
      if target.None? {
        return Err(VariantUnavailable);
      }
      if modules[target.value].current.value !in versions {
        return Err(ModuleUnavailable);
      }
      var k := Key(u, g);
      ClaimProgress(k, target.value);
      if progress[k].mod != target.value {
        progress := progress[k := progress[k].(mod := target.value, viewed := [], currentPage := None)];
      }
      assert progress == before.progress[k := RowAfterSwitch(Claimed(before, k, target.value), target.value)];
      SwitchingKeepsValid(before, u, g, language);
      SwitchGivesTheLanguage(before, u, g, language);
      return Ok(());
    }

    method CompleteModule(u: UserId, g: GroupId, now: Time) returns (r: Result<(), Refusal>)
      requires Valid()
      modifies this
      ensures Valid()
      ensures Answered(AfterComplete(old(Tables()), u, g, now), old(Tables()), Tables(), r)
      ensures r.Ok? ==>
                u in old(users) && old(Resolve(Tables(), u, g)).Some? &&
                IsCompleted(old(Tables()), Tables(), Key(u, g), old(Resolve(Tables(), u, g)).value, now)
    {
      hide DbOk, PagesOk, Resolve, PageIds, IsCompleted;
      if u !in users {
        return Err(ModuleUnavailable);
      }
      var m := ResolveReadableVariant(u, g);
      if m.None? {
        return Err(ModuleUnavailable);
      }
      var version := versions[modules[m.value].current.value];
      var k := Key(u, g);
      ghost var before := Tables();
      // A refusal rolls the claim back with the rest of the transaction, so the row is written only on success.
      var row := if k in progress then progress[k] else Progress(m.value, [], None, None, None, None, None);
      var ids := PageIds(version.pages);
      var outstanding := set p | p in ids && p !in row.viewed;
      assert forall p :: p in outstanding <==> p in ids && p !in row.viewed;
      if outstanding != {} {
        return Err(PagesOutstanding);
      }
      row := row.(completedAt := Some(now));
      row := row.(completedVersion := Some(version.number));
      row := row.(completedModule := Some(m.value));
      row := row.(supersededAt := None);
      progress := progress[k := row];
      assert progress == before.progress[k := RowAfterCompletion(Claimed(before, k, m.value), m.value, version.number, now)];
      CompletingKeepsValid(before, u, g, now);
      CompletionIsRecorded(before, u, g, now);
      return Ok(());
    }
  }

  /** Nothing viewed, no page open, and a completion still on record but stamped as past. */
  predicate IsSentBack(before: Progress, after: Progress, now: Time) {
    && after.viewed == [] && after.currentPage == None
    && after.supersededAt == (if before.completedAt.Some? then Some(now) else None)
    && after.mod == before.mod
    && after.completedAt == before.completedAt
    && after.completedVersion == before.completedVersion
    && after.completedModule == before.completedModule
  }

  lemma OneSentBack(before: Progress, after: Progress, now: Time)
    requires after == Outstanding(before, now)
    ensures IsSentBack(before, after, now)
  {
  }

  lemma AllSentBack(before: map<Key, Progress>, after: map<Key, Progress>, group: GroupId, now: Time)
    requires after.Keys == before.Keys
    requires forall k :: k in after ==> if k.group == group then IsSentBack(before[k], after[k], now) else after[k] == before[k]
    ensures after == SentBack(before, group, now)
    ensures StampedRows(after, group, now) == set k | k in after && k.group == group && after[k].completedAt.Some?
  {
  }

  /** The rows of the group that carry this moment as the one they were superseded at. */
  function StampedRows(progress: map<Key, Progress>, group: GroupId, now: Time): set<Key> {
    set k | k in progress && k.group == group && progress[k].supersededAt == Some(now)
  }

  // --- What the routes rely on ------------------------------------------------------------------------

  function BuildSnapshot(rows: PageTable, pages: seq<PageId>): seq<SnapshotPage>
    requires forall p :: p in pages ==> p in rows
  {
    seq(|pages|, i requires 0 <= i < |pages| =>
      assert pages[i] in pages; SnapshotPage(pages[i], rows[pages[i]].position, rows[pages[i]].title, rows[pages[i]].body))
  }

  lemma DraftPagesAreDistinct(db: Db, m: ModuleId)
    requires PagesOk(db) && m in db.modules
    ensures var rows := db.modules[m].draft.rows;
            && DistinctPositions(rows)
            && (forall p :: p in Listing(rows) ==> p in rows)
            && BuildSnapshot(rows, Listing(rows)) == Snapshot(rows)
            && (Listing(rows) == [] <==> rows == map[])
  {
    hide Listing;
    assert TableOk(db.pageOwner, m, db.modules[m].draft.rows);
    PositionsAreDistinct(db.modules[m].draft.rows);
    ListingElements(db.modules[m].draft.rows);
  }

  lemma AppliedKeepsValid(db: Db, r: Request)
    requires DbOk(db) && PagesOk(db) && Apply(db, r).Ok?
    ensures DbOk(Apply(db, r).value) && PagesOk(Apply(db, r).value)
  {
    hide DbOk, PagesOk, Apply;
    StepKeepsDbOk(db, r);
    StepKeepsPages(db, r);
  }

  lemma PublishingKeepsValid(db: Db, m: ModuleId, kind: Kind, v: VersionId, now: Time)
    requires DbOk(db) && PagesOk(db) && AfterPublish(db, m, kind, v, now).Ok?
    ensures DbOk(AfterPublish(db, m, kind, v, now).value) && PagesOk(AfterPublish(db, m, kind, v, now).value)
  {
    hide DbOk, PagesOk, AfterPublish;
    AppliedKeepsValid(db, Publish(m, kind, v, now));
  }

  lemma DeletingKeepsValid(db: Db, m: ModuleId)
    requires DbOk(db) && PagesOk(db) && AfterDelete(db, m).Ok?
    ensures DbOk(AfterDelete(db, m).value) && PagesOk(AfterDelete(db, m).value)
  {
    hide DbOk, PagesOk, AfterDelete;
    AppliedKeepsValid(db, DeleteModule(m));
  }

  lemma LinkingKeepsValid(db: Db, group: GroupId, m: ModuleId)
    requires DbOk(db) && PagesOk(db) && AfterLink(db, group, m).Ok?
    ensures DbOk(AfterLink(db, group, m).value) && PagesOk(AfterLink(db, group, m).value)
  {
    hide DbOk, PagesOk, AfterLink;
    AppliedKeepsValid(db, LinkVariant(group, m));
  }

  lemma AssigningKeepsValid(db: Db, id: AssignmentId, m: ModuleId, target: Target, due: Option<Day>, mandatory: bool, autoReminders: bool)
    requires DbOk(db) && PagesOk(db) && AfterAssign(db, id, m, target, due, mandatory, autoReminders).Ok?
    ensures var db' := AfterAssign(db, id, m, target, due, mandatory, autoReminders).value; DbOk(db') && PagesOk(db')
  {
    hide DbOk, PagesOk, AfterAssign;
    AppliedKeepsValid(db, CreateAssignment(id, m, target, due, mandatory, autoReminders));
  }

  lemma ViewingKeepsValid(db: Db, u: UserId, g: GroupId, p: PageId)
    requires DbOk(db) && PagesOk(db) && AfterView(db, u, g, p).Ok?
    ensures DbOk(AfterView(db, u, g, p).value) && PagesOk(AfterView(db, u, g, p).value)
  {
    hide DbOk, PagesOk, AfterView;
    AppliedKeepsValid(db, ViewPage(u, g, p));
  }

  lemma SwitchingKeepsValid(db: Db, u: UserId, g: GroupId, language: Language)
    requires DbOk(db) && PagesOk(db) && AfterSwitch(db, u, g, language).Ok?
    ensures DbOk(AfterSwitch(db, u, g, language).value) && PagesOk(AfterSwitch(db, u, g, language).value)
  {
    hide DbOk, PagesOk, AfterSwitch;
    AppliedKeepsValid(db, SwitchLanguage(u, g, language));
  }

  lemma CompletingKeepsValid(db: Db, u: UserId, g: GroupId, now: Time)
    requires DbOk(db) && PagesOk(db) && AfterComplete(db, u, g, now).Ok?
    ensures DbOk(AfterComplete(db, u, g, now).value) && PagesOk(AfterComplete(db, u, g, now).value)
  {
    hide DbOk, PagesOk, AfterComplete;
    AppliedKeepsValid(db, Complete(u, g, now));
  }

  // --- Who is offered what ---------------------------------------------------------------------

  /** Nobody may read `m` any more, everybody may read every other text as before, and what was read and completed stays on record. */
  ghost predicate TakesOnly(m: ModuleId, before: Db, after: Db)
    requires m in before.modules
  {
    && after.users == before.users
    && (forall u, g :: u in after.users ==>
          ReadableVariants(after, u, g) == ReadableVariants(before, u, g) - {Variants.Variant(before.modules[m].language, m)})
    && after.versions == before.versions && after.progress == before.progress && after.assignments == before.assignments
    && m in after.modules && after.modules[m].current == before.modules[m].current
  }

  lemma UnpublishingTakesOnly(db: Db, m: ModuleId)
    requires AfterUnpublish(db, m).Ok?
    ensures TakesOnly(m, db, AfterUnpublish(db, m).value)
  {
    hide Names;
    var db', taken := AfterUnpublish(db, m).value, Variants.Variant(db.modules[m].language, m);
    forall u, g | u in db.users ensures ReadableVariants(db', u, g) == ReadableVariants(db, u, g) - {taken} {
      assert AssignedGroups(db', u) == AssignedGroups(db, u);
      forall v ensures v in ReadableVariants(db', u, g) <==> v in ReadableVariants(db, u, g) - {taken} {
        OtherTextsAsBefore(db, m, u, g, v.id);
      }
    }
  }

  lemma OtherTextsAsBefore(db: Db, m: ModuleId, u: UserId, g: GroupId, v: ModuleId)
    requires AfterUnpublish(db, m).Ok? && u in db.users
    ensures Readable(AfterUnpublish(db, m).value, u, g, v) <==> v != m && Readable(db, u, g, v)
  {
    assert AssignedGroups(AfterUnpublish(db, m).value, u) == AssignedGroups(db, u);
  }

  /** This learner already reads a text of the group that may be read, or there is one in their language. */
  predicate IsServed(db: Db, u: UserId, g: GroupId)
    requires u in db.users
  {
    Variants.IsServed(ReadableVariants(db, u, g), db.users[u].preferred, Sticky(db, Key(u, g)))
  }

  /** As the primary, `m` becomes the text of those the other two rules do not serve and who may read it; the others keep theirs. */
  ghost predicate ServesTheRest(m: ModuleId, before: Db, after: Db)
    requires m in before.modules
  {
    && after.users == before.users
    && (forall u, g :: u in after.users && (g != before.modules[m].group || IsServed(before, u, g)) ==>
          Resolve(after, u, g) == Resolve(before, u, g))
    && (forall u :: u in after.users && !IsServed(before, u, before.modules[m].group) && Readable(before, u, before.modules[m].group, m) ==>
          Resolve(after, u, before.modules[m].group) == Some(m))
  }

  lemma NominatingServesTheRest(db: Db, group: GroupId, m: ModuleId)
    requires DbOk(db) && AfterSetPrimary(db, group, m).Ok?
    ensures ServesTheRest(m, db, AfterSetPrimary(db, group, m).value)
  {
    hide DbOk, Resolve, IsServed, Readable;
    var db' := AfterSetPrimary(db, group, m).value;
    forall u, g | u in db.users && (g != group || IsServed(db, u, g)) ensures Resolve(db', u, g) == Resolve(db, u, g) {
      ServedKeepTheirs(db, group, m, u, g);
    }
    forall u | u in db.users && !IsServed(db, u, group) && Readable(db, u, group, m) ensures Resolve(db', u, group) == Some(m) {
      NewPrimaryIsResolved(db, group, m, u);
    }
  }

  lemma SameReadable(db: Db, group: GroupId, m: ModuleId, u: UserId, g: GroupId)
    requires AfterSetPrimary(db, group, m).Ok? && u in db.users
    ensures ReadableVariants(AfterSetPrimary(db, group, m).value, u, g) == ReadableVariants(db, u, g)
  {
    assert AssignedGroups(AfterSetPrimary(db, group, m).value, u) == AssignedGroups(db, u);
  }

  lemma ServedKeepTheirs(db: Db, group: GroupId, m: ModuleId, u: UserId, g: GroupId)
    requires AfterSetPrimary(db, group, m).Ok? && u in db.users && (g != group || IsServed(db, u, g))
    ensures Resolve(AfterSetPrimary(db, group, m).value, u, g) == Resolve(db, u, g)
  {
    hide ReadableVariants, AssignedGroups, Variants.IsServed;
    SameReadable(db, group, m, u, g);
    if g == group {
      Variants.ServedKeepTheirs(ReadableVariants(db, u, g), db.users[u].preferred, Some(db.groups[g]), Some(m), Sticky(db, Key(u, g)));
    }
  }

  lemma NewPrimaryIsResolved(db: Db, group: GroupId, m: ModuleId, u: UserId)
    requires DbOk(db) && AfterSetPrimary(db, group, m).Ok? && u in db.users
    requires !IsServed(db, u, group) && Readable(db, u, group, m)
    ensures Resolve(AfterSetPrimary(db, group, m).value, u, group) == Some(m)
  {
    hide MayRead, AssignedGroups, VersionRowsOk, Variants.IsServed;
    assert RowOk(db.versions, m, db.modules[m]);
    SameReadable(db, group, m, u, group);
    var v := Variants.Variant(db.modules[m].language, m);
    assert v in ReadableVariants(db, u, group);
    Variants.PrimaryServesTheRest(ReadableVariants(db, u, group), db.users[u].preferred, v, Sticky(db, Key(u, group)));
  }

  lemma AloneWhenOne(s: set<ModuleId>, m: ModuleId)
    requires m in s
    ensures |s| > 1 <==> s != {m}
  {
    if |s| <= 1 {
      assert |s - {m}| == 0;
    }
  }

  lemma ReachIsAssigned(db: Db, u: UserId, reach: set<GroupId>)
    requires u in db.users
    requires reach == set a | a in db.assignments && Names(db.assignments[a], u, db.users[u]) :: db.assignments[a].group
    ensures reach == AssignedGroups(db, u)
  {
  }

  lemma PickedIsReadable(db: Db, u: UserId, g: GroupId, v: Variants.Variant)
    requires u in db.users && v in ReadableVariants(db, u, g)
    ensures Readable(db, u, g, v.id)
  {
  }

  /** At most one readable variant speaks a language, so the first one found in any order is the one meant. */
  lemma SpeakerIsUnique(db: Db, u: UserId, g: GroupId, language: Language, readable: seq<Variants.Variant>, target: Option<ModuleId>)
    requires DbOk(db) && u in db.users && Variants.AsSet(readable) == ReadableVariants(db, u, g)
    requires target.None? ==> forall j :: 0 <= j < |readable| ==> readable[j].language != language
    requires target.Some? ==> Variants.Variant(language, target.value) in readable
    ensures target.None? <==> Speaking(ReadableVariants(db, u, g), language) == {}
    ensures target.Some? ==>
        Readable(db, u, g, target.value) && Variants.First(Speaking(ReadableVariants(db, u, g), language)).id == target.value
  {
    hide LifecycleOk, EvidenceOk, MayRead, AssignedGroups;
    var speakers := Speaking(ReadableVariants(db, u, g), language);
    if target.None? {
      forall v | v in ReadableVariants(db, u, g) ensures v.language != language {
        assert v in Variants.AsSet(readable);
        var j :| 0 <= j < |readable| && readable[j] == v;
      }
    } else {
      var v := Variants.Variant(language, target.value);
      assert v in Variants.AsSet(readable);
      assert v in speakers;
      var first := Variants.First(speakers);
      assert first in speakers;
    }
  }
}
