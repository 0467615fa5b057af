/** What the reminder job and a learner's own list read, computed from the tables, and that they agree with what the viewer opens. */
module LiveFacts {
  import opened Common
  import opened Domain
  import opened Records
  import opened Translations
  import opened Lifecycle
  import opened Evidence
  import opened Histories
  import Assigning
  import Reminders
  import ReminderRuns
  import Reporting
  import Runs
  import Variants

  // --- The tables, as the job reads them ---------------------------------------------------------

  function PublishedVariants(db: Db, g: GroupId): set<Variants.Variant> {
    set m | m in db.modules && db.modules[m].group == g && db.modules[m].status.Published? :: Variants.Variant(db.modules[m].language, m)
  }

  /** `_module_for_notification`: the primary variant when it is published, else the first published one. */
  ghost function ModuleForNotification(db: Db, g: GroupId): Option<ModuleId> {
    if g in db.groups && db.groups[g] in db.modules && db.modules[db.groups[g]].status.Published? then Some(db.groups[g])
    else if PublishedVariants(db, g) == {} then None
    else Some(Variants.First(PublishedVariants(db, g)).id)
  }

  /** `_is_current_completion`, for everybody at once. */
  function CurrentKeys(db: Db): set<Key> {
    set k | k in db.progress && db.progress[k].completedAt.Some? && db.progress[k].supersededAt.None?
  }

  ghost function PublishedGroups(db: Db): set<GroupId> {
    set g | g in db.groups && ModuleForNotification(db, g).Some?
  }

  ghost function FactsOf(db: Db, teams: set<TeamId>): Reminders.Facts {
    Reminders.Facts(Assigning.Directory(db.users, teams), db.assignments, CurrentKeys(db), PublishedGroups(db))
  }

  predicate IsPublished(db: Db, m: ModuleId) {
    m in db.modules && db.modules[m].status.Published?
  }

  predicate HasPublished(db: Db, g: GroupId) {
    exists m :: m in db.modules && db.modules[m].group == g && db.modules[m].status.Published?
  }

  /** A mail about a group has a module to name exactly when some variant is published, and names a published variant of the group. */
  lemma NotifiedModuleIsPublished(db: Db, g: GroupId)
    requires GroupsOk(db)
    ensures ModuleForNotification(db, g).Some? <==> HasPublished(db, g)
    ensures ModuleForNotification(db, g).Some? ==>
              var m := ModuleForNotification(db, g).value; m in db.modules && db.modules[m].group == g && db.modules[m].status.Published?
    ensures HasPublished(db, g) ==> g in db.groups
    ensures g in db.groups && IsPublished(db, db.groups[g]) ==> ModuleForNotification(db, g) == Some(db.groups[g])
  {
    var variants := PublishedVariants(db, g);
    if m :| m in db.modules && db.modules[m].group == g && db.modules[m].status.Published? {
      assert Variants.Variant(db.modules[m].language, m) in variants;
    }
    if variants != {} {
      assert Variants.First(variants) in variants;
    }
  }

  /** Without a published primary it is the published variant whose language comes first. */
  lemma FirstLanguageIsNamed(db: Db, g: GroupId, m: ModuleId)
    requires GroupsOk(db) && g in db.groups && !IsPublished(db, db.groups[g])
    requires IsPublished(db, m) && db.modules[m].group == g
    ensures ModuleForNotification(db, g).Some? && ModuleForNotification(db, g).value in db.modules
    ensures db.modules[ModuleForNotification(db, g).value].language <= db.modules[m].language
  {
    hide Variants.First;
    var variants := PublishedVariants(db, g);
    var v := Variants.Variant(db.modules[m].language, m);
    assert v in variants;
    assert Variants.Before(Variants.First(variants), v);
    assert Variants.First(variants) in variants;
  }

  // --- The viewer ------------------------------------------------------------------------------------

  /** The groups a learner's list shows as available: some published variant of theirs may be read. */
  ghost function AvailableGroups(db: Db, u: UserId): set<GroupId>
    requires u in db.users
  {
    set g | g in db.groups && ReadableVariants(db, u, g) != {}
  }

  lemma ReadableHasVersion(db: Db, u: UserId, g: GroupId, m: ModuleId)
    requires LifecycleOk(db) && u in db.users && Readable(db, u, g, m)
    ensures db.modules[m].current.value in db.versions
  {
    assert RowOk(db.versions, m, db.modules[m]);
  }

  /** The list and the viewer agree: what is shown as available opens, and what opens is shown as available. */
  lemma AvailableOpens(db: Db, u: UserId, g: GroupId)
    requires LifecycleOk(db) && u in db.users
    ensures g in AvailableGroups(db, u) <==> Resolve(db, u, g).Some?
  {
    hide LifecycleOk, Readable, Variants.Favoured, Variants.First;
    if g in db.groups {
      var variants := ReadableVariants(db, u, g);
      var pick := Variants.Pick(variants, db.users[u].preferred, Some(db.groups[g]), Sticky(db, Key(u, g)));
      if pick.Some? {
        assert Readable(db, u, g, pick.value.id);
        ReadableHasVersion(db, u, g, pick.value.id);
      }
    }
  }

  lemma PublishedIsReadable(db: Db, u: UserId, g: GroupId, m: ModuleId)
    requires LifecycleOk(db) && u in db.users && g in AssignedGroups(db, u)
    requires m in db.modules && db.modules[m].group == g && db.modules[m].status.Published?
    ensures Readable(db, u, g, m)
    ensures ReadableVariants(db, u, g) != {}
  {
    hide AssignedGroups;
    assert RowOk(db.versions, m, db.modules[m]);
    assert Variants.Variant(db.modules[m].language, m) in ReadableVariants(db, u, g);
  }

  /** Somebody who is assigned a material can open it exactly when a mail about it has a module to name. */
  lemma AssignedOpensIff(db: Db, u: UserId, g: GroupId)
    requires GroupsOk(db) && LifecycleOk(db) && u in db.users && g in AssignedGroups(db, u)
    ensures Resolve(db, u, g).Some? <==> ModuleForNotification(db, g).Some?
  {
    hide LifecycleOk, GroupsOk, Resolve, ModuleForNotification, AssignedGroups, ReadableVariants, MayRead;
    NotifiedModuleIsPublished(db, g);
    AvailableOpens(db, u, g);
    if m :| m in db.modules && db.modules[m].group == g && db.modules[m].status.Published? {
      PublishedIsReadable(db, u, g, m);
    }
    if Resolve(db, u, g).Some? {
      var m := Resolve(db, u, g).value;
      assert m in db.modules && db.modules[m].group == g && db.modules[m].status.Published?;
    }
  }

  // --- Over every run ------------------------------------------------------------------------------------

  lemma ReachableIsOk(requests: seq<Request>)
    ensures DbOk(Run(EMPTY, requests).db) && GroupsOk(Run(EMPTY, requests).db) && LifecycleOk(Run(EMPTY, requests).db)
  {
    hide Run;
    EveryRunIsOk(requests);
    Runs.WorldIsDbOk(Run(EMPTY, requests));
  }

  lemma AudienceIsAssigned(db: Db, teams: set<TeamId>, a: AssignmentId, k: Key)
    requires a in db.assignments && k in Reminders.AudienceOf(FactsOf(db, teams), db.assignments[a])
    ensures k.user in db.users && db.users[k.user].Live() && k !in CurrentKeys(db)
    ensures k.group == db.assignments[a].group && k.group in AssignedGroups(db, k.user)
  {
    hide ModuleForNotification;
  }

  /** In every reachable state, whoever a run reminds, scheduled or manual, can open the material, and has not completed it. */
  lemma RemindedCanRead(requests: seq<Request>, teams: set<TeamId>, before: seq<Reminders.Reminder>, after: seq<Reminders.Reminder>,
        audience: set<Key>, today: Day, i: nat)
    requires Reminders.Ran(FactsOf(Run(EMPTY, requests).db, teams), before, after, audience, today)
    requires |before| <= i < |after|
    ensures var db, r := Run(EMPTY, requests).db, after[i];
            && r.assignment in db.assignments && r.user in db.users && db.users[r.user].Live()
            && Resolve(db, r.user, db.assignments[r.assignment].group).Some?
            && Key(r.user, db.assignments[r.assignment].group) !in CurrentKeys(db)
  {
    hide Run, Reminders.Accounts, Reminders.AudienceOf, GroupsOk, LifecycleOk, DbOk, Resolve, ModuleForNotification,
      AssignedGroups, CurrentKeys;
    var db := Run(EMPTY, requests).db;
    ReachableIsOk(requests);
    assert Reminders.Warranted(FactsOf(db, teams), after[i], today);
    var a := after[i].assignment;
    var g := db.assignments[a].group;
    AudienceIsAssigned(db, teams, a, Key(after[i].user, g));
    AssignedOpensIff(db, after[i].user, g);
  }

  /** And finds it, as available, on their own list. */
  lemma RemindedFindsItListed(requests: seq<Request>, teams: set<TeamId>, before: seq<Reminders.Reminder>, after: seq<Reminders.Reminder>,
        audience: set<Key>, today: Day, i: nat, mine: Reporting.Mine)
    requires Reminders.Ran(FactsOf(Run(EMPTY, requests).db, teams), before, after, audience, today)
    requires |before| <= i < |after| && after[i].user in Run(EMPTY, requests).db.users
    requires mine.winners.Keys == AssignedGroups(Run(EMPTY, requests).db, after[i].user)
    requires mine.readable == AvailableGroups(Run(EMPTY, requests).db, after[i].user)
    ensures after[i].assignment in Run(EMPTY, requests).db.assignments
    ensures var row := mine.Row(Run(EMPTY, requests).db.assignments[after[i].assignment].group); row.Some? && row.value.available
  {
    hide Run, Reminders.Accounts, Reminders.AudienceOf, GroupsOk, LifecycleOk, DbOk, Resolve, ModuleForNotification, AssignedGroups,
      AvailableGroups, CurrentKeys, Reporting.IsCurrent;
    var db := Run(EMPTY, requests).db;
    ReachableIsOk(requests);
    RemindedCanRead(requests, teams, before, after, audience, today, i);
    assert Reminders.Warranted(FactsOf(db, teams), after[i], today);
    var g := db.assignments[after[i].assignment].group;
    AudienceIsAssigned(db, teams, after[i].assignment, Key(after[i].user, g));
    AvailableOpens(db, after[i].user, g);
  }

  // --- The roster, the learner's resolution and the learner's list ------------------------------------------

  function CompletionOf(p: Progress): Completion {
    Completion(p.completedAt.Some?, p.supersededAt.Some?)
  }

  /** The roster's side: who has a row for this material. */
  function ProgressOn(db: Db, g: GroupId): Reporting.ProgressOf {
    map u | u in db.users && Key(u, g) in db.progress :: CompletionOf(db.progress[Key(u, g)])
  }

  /** The learner's side: what they have a row for. */
  function OwnProgress(db: Db, u: UserId): map<GroupId, Completion> {
    map k | k in db.progress && k.user == u :: k.group := CompletionOf(db.progress[k])
  }

  /** What the learner's own list is made from, as the tables give it. */
  ghost predicate IsReadFor(db: Db, u: UserId, byUser: seq<AssignmentId>, today: Day, mine: Reporting.Mine)
    requires u in db.users
  {
    && Assigning.IsQueryForUser(db.assignments, byUser, u, db.users[u])
    && (forall g :: g in mine.winners <==> Assigning.Winner(db.assignments, byUser, g, u, db.users[u]).Some?)
    && (forall g :: g in mine.winners ==> Some(mine.winners[g]) == Assigning.Winner(db.assignments, byUser, g, u, db.users[u]))
    && mine.progress == OwnProgress(db, u) && mine.readable == AvailableGroups(db, u) && mine.today == today
  }

  ghost function RosterOf(db: Db, teams: set<TeamId>, rows: seq<AssignmentId>, g: GroupId, u: UserId,
        today: Day): Option<Reporting.Standing> {
    Reporting.RosterEntry(Assigning.Directory(db.users, teams), db.assignments, rows, g, u, ProgressOn(db, g), today, false)
  }

  ghost function DueOn(entry: Option<Reporting.Standing>): Option<Day> {
    if entry.Some? then entry.value.due else None
  }

  /** On the roster are those assigned, with the state and the overdue flag that their date and completion give. */
  ghost predicate RosterIsRight(db: Db, entry: Option<Reporting.Standing>, u: UserId, g: GroupId, today: Day)
    requires u in db.users
  {
    && (entry.Some? <==> g in AssignedGroups(db, u))
    && (entry.Some? ==>
          && (entry.value.state.CompletedNow? <==> Key(u, g) in CurrentKeys(db))
          && (entry.value.state.NotStarted? <==> Key(u, g) !in db.progress)
          && (entry.value.onRecord <==> Key(u, g) in db.progress && db.progress[Key(u, g)].completedAt.Some?)
          && (entry.value.overdue <==> entry.value.due.Some? && entry.value.due.value < today && Key(u, g) !in CurrentKeys(db)))
  }

  /** On the own list is what was opened, or is assigned and opens, with the roster's date and overdue flag. */
  ghost predicate RowIsRight(db: Db, row: Option<Reporting.ListRow>, entry: Option<Reporting.Standing>, u: UserId, g: GroupId)
    requires u in db.users
  {
    && (row.Some? <==> Key(u, g) in db.progress || (g in AssignedGroups(db, u) && Resolve(db, u, g).Some?))
    && (row.Some? ==>
          && (row.value.available <==> Resolve(db, u, g).Some?) && (row.value.started <==> Key(u, g) in db.progress)
          && row.value.due == DueOn(entry) && row.value.overdue == (entry.Some? && entry.value.overdue)
          && row.value.group == g && (row.value.mandatory.Some? <==> g in AssignedGroups(db, u)))
  }

  lemma RosterFromTheTables(db: Db, teams: set<TeamId>, byUser: seq<AssignmentId>, byMaterial: seq<AssignmentId>,
        g: GroupId, u: UserId, today: Day)
    requires Assigning.Directory(db.users, teams).Ok() && Assigning.Directory(db.users, teams).Live(u)
    requires Assigning.IsQueryForUser(db.assignments, byUser, u, db.users[u]) && Reporting.IsQueryForMaterial(db.assignments, byMaterial, g)
    ensures RosterIsRight(db, RosterOf(db, teams, byMaterial, g, u, today), u, g, today)
  {
    hide Assigning.Winner, Names, ProgressOn;
    Assigning.AssignedGroupsAreWinners(db.assignments, byUser, u, db.users[u], g);
    Reporting.ViewsAgree(Assigning.Directory(db.users, teams), db.assignments, byUser, byMaterial, g, u, ProgressOn(db, g), false, today);
    SameCompletion(db, g, u);
  }

  lemma RowFromTheTables(db: Db, teams: set<TeamId>, byUser: seq<AssignmentId>, byMaterial: seq<AssignmentId>,
        g: GroupId, u: UserId, mine: Reporting.Mine, today: Day)
    requires LifecycleOk(db)
    requires Assigning.Directory(db.users, teams).Ok() && Assigning.Directory(db.users, teams).Live(u)
    requires IsReadFor(db, u, byUser, today, mine) && Reporting.IsQueryForMaterial(db.assignments, byMaterial, g)
    ensures RowIsRight(db, mine.Row(g), RosterOf(db, teams, byMaterial, g, u, today), u, g)
  {
    hide Assigning.Winner, Names, ProgressOn, OwnProgress, LifecycleOk, Resolve, AvailableGroups, AssignedGroups;
    AvailableOpens(db, u, g);
    RosterFromTheTables(db, teams, byUser, byMaterial, g, u, today);
    Reporting.ViewsAgree(Assigning.Directory(db.users, teams), db.assignments, byUser, byMaterial, g, u, ProgressOn(db, g),
                         g in AvailableGroups(db, u), today);
    SameCompletion(db, g, u);
  }

  /**
   * In every reachable state, for every live learner and material, the tables decide what the views show, and the roster,
   * the learner's own list and the viewer show the same.
   */
  lemma ViewsOfEveryState(requests: seq<Request>, teams: set<TeamId>, byUser: seq<AssignmentId>, byMaterial: seq<AssignmentId>,
        g: GroupId, u: UserId, mine: Reporting.Mine, today: Day)
    requires var dir := Assigning.Directory(Run(EMPTY, requests).db.users, teams); dir.Ok() && dir.Live(u)
    requires IsReadFor(Run(EMPTY, requests).db, u, byUser, today, mine)
    requires Reporting.IsQueryForMaterial(Run(EMPTY, requests).db.assignments, byMaterial, g)
    ensures var db := Run(EMPTY, requests).db;
            var entry := RosterOf(db, teams, byMaterial, g, u, today);
            RosterIsRight(db, entry, u, g, today) && RowIsRight(db, mine.Row(g), entry, u, g)
    ensures g in mine.winners && mine.Row(g).Some? ==> mine.Row(g).value.mandatory == Some(mine.winners[g].mandatory)
  {
    hide Run, LifecycleOk, GroupsOk, DbOk, RosterIsRight, RowIsRight;
    ReachableIsOk(requests);
    RosterFromTheTables(Run(EMPTY, requests).db, teams, byUser, byMaterial, g, u, today);
    RowFromTheTables(Run(EMPTY, requests).db, teams, byUser, byMaterial, g, u, mine, today);
  }

  lemma SameCompletion(db: Db, g: GroupId, u: UserId)
    requires u in db.users
    ensures var p := Reporting.Lookup(ProgressOn(db, g), u);
            && p == (if g in OwnProgress(db, u) then Some(OwnProgress(db, u)[g]) else None)
            && (p.Some? <==> Key(u, g) in db.progress)
            && (Reporting.IsCurrent(p) <==> Key(u, g) in CurrentKeys(db))
  {
    if g in OwnProgress(db, u) {
      var k :| k in db.progress && k.user == u && k.group == g;
      assert k == Key(u, g);
    }
    if Key(u, g) in db.progress {
      assert Key(u, g).group in OwnProgress(db, u);
    }
  }

  predicate IsFor(target: Target, u: UserId, user: User) {
    target == ToUser(u) || (target.ToTeam? && target.team in user.teams)
  }

  /** A mandatory, unmuted assignment of the material, naming this person or a team of theirs, is on a checkpoint today. */
  predicate IsDueToday(db: Db, a: AssignmentId, k: Key, today: Day)
    requires k.user in db.users
  {
    && a in db.assignments && db.assignments[a].group == k.group
    && IsFor(db.assignments[a].target, k.user, db.users[k.user])
    && db.assignments[a].mandatory && db.assignments[a].autoReminders
    && db.assignments[a].due.Some? && Reminders.IsCheckpoint(db.assignments[a].due.value, today)
  }

  /** The audience of the daily job, read off the tables of any reachable state. */
  lemma AudienceFromTheTables(requests: seq<Request>, teams: set<TeamId>, before: seq<Reminders.Reminder>,
        after: seq<Reminders.Reminder>, today: Day, k: Key)
    requires FactsOf(Run(EMPTY, requests).db, teams).dir.Ok()
    requires var facts := FactsOf(Run(EMPTY, requests).db, teams);
             Reminders.Ran(facts, before, after, Reminders.ScheduledAudience(facts, today), today)
    ensures var db := Run(EMPTY, requests).db;
            Reminders.Count(after, db.assignments, k, today) > 0 <==>
              || Reminders.Count(before, db.assignments, k, today) > 0
              || (&& k.user in db.users && !db.users[k.user].disabled && !db.users[k.user].erased
                  && (k in db.progress && db.progress[k].completedAt.Some? ==> db.progress[k].supersededAt.Some?)
                  && HasPublished(db, k.group)
                  && exists a :: IsDueToday(db, a, k, today))
  {
    hide Run, Reminders.Accounts, Reminders.Extends, Reminders.Count, Reminders.ScheduledAudience, Reminders.IsCheckpoint,
      GroupsOk, DbOk, LifecycleOk, ModuleForNotification, HasPublished;
    var db := Run(EMPTY, requests).db;
    var facts := FactsOf(db, teams);
    ReachableIsOk(requests);
    NotifiedModuleIsPublished(db, k.group);
    ReminderRuns.AudienceIsExact(facts, before, after, today, k);
    assert k.group in facts.published <==> HasPublished(db, k.group);
    if k.user in db.users {
      forall a ensures ReminderRuns.IsObligedBy(facts, a, k) && Reminders.IsCheckpoint(facts.table[a].due.value, today) <==>
        IsDueToday(db, a, k, today) && db.users[k.user].Live() && k !in facts.current && k.group in facts.published
      {
      }
    }
  }
}
