/** The administrator's roster, the per-team standings and the learner's own list: three loops over the same facts. */
module Reporting {
  import opened Common
  import opened Domain
  import opened Assigning

  datatype LearnerState = CompletedNow | InProgress | NotStarted

  /** Where a learner stands: `onRecord` is the completion carried along even when it is no longer current. */
  datatype Standing = Standing(state: LearnerState, overdue: bool, due: Option<Day>, onRecord: bool)

  /** Completion rows of one body of material, by learner. */
  type ProgressOf = map<UserId, Completion>

  function Lookup(progress: ProgressOf, u: UserId): Option<Completion> {
    if u in progress then Some(progress[u]) else None
  }

  predicate IsCurrent(p: Option<Completion>) {
    p.Some? && p.value.Current()
  }

  function StandingOf(p: Option<Completion>, due: Option<Day>, today: Day): Standing {
    var state := if IsCurrent(p) then CompletedNow else if p.Some? then InProgress else NotStarted;
    Standing(state, IsOverdue(due, IsCurrent(p), today), due, p.Some? && p.value.completed)
  }

  /** `rows` is a query result: exactly the rows assigning this material, in any order. */
  ghost predicate IsQueryForMaterial(table: Table, rows: seq<AssignmentId>, g: GroupId) {
    forall a :: a in rows <==> a in table && table[a].group == g
  }

  // --- The roster -------------------------------------------------------------------------

  /** Everyone who is on the roster, and how they stand. */
  function RosterEntry(dir: Directory, table: Table, rows: seq<AssignmentId>, g: GroupId, u: UserId,
        progress: ProgressOf, today: Day, unassigned: bool): Option<Standing> {
    if !dir.Live(u) then None
    else
      match Winner(table, rows, g, u, dir.users[u])
      case Some(a) => Some(StandingOf(Lookup(progress, u), a.due, today))
      case None => if unassigned && u in progress then Some(StandingOf(Some(progress[u]), None, today)) else None
  }

  /** When asked for, everybody else who is live and has a row is on the roster too, without a date and never overdue. */
  lemma OthersAreListedWithoutDate(dir: Directory, table: Table, rows: seq<AssignmentId>, g: GroupId, u: UserId,
        progress: ProgressOf, today: Day)
    requires RosterEntry(dir, table, rows, g, u, progress, today, false).None?
    ensures var entry := RosterEntry(dir, table, rows, g, u, progress, today, true);
            && (entry.Some? <==> dir.Live(u) && u in progress)
            && (entry.Some? ==>
                  && entry.value.due == None && !entry.value.overdue && entry.value.onRecord == progress[u].completed
                  && entry.value.state == if progress[u].completed && !progress[u].superseded then CompletedNow else InProgress)
  {
    hide Winner;
  }

  /** One assignment's live members, each keeping the nearer of its date and the date they already had. */
  method MergeMembers(dir: Directory, a: Assignment, before: map<UserId, Option<Day>>) returns (dues: map<UserId, Option<Day>>)
    ensures forall u :: u in dues <==> u in before || (dir.Live(u) && u in Targets(dir, a.target))
    ensures forall u :: u in dues ==>
              dues[u] == if dir.Live(u) && u in Targets(dir, a.target) &&
                  (u !in before || NearerDueDate(a.due, before[u])) then a.due else before[u]
  {
    hide NearerDueDate, Targets;
    dues := before;
    var members := set u | u in Targets(dir, a.target) && dir.Live(u);
    var unseen := members;
    while unseen != {}
      invariant unseen <= members
      invariant forall u :: u in dues <==> u in before || (u in members && u !in unseen)
      invariant forall u :: u in dues ==> dues[u] == if u in members && u !in unseen &&
          (u !in before || NearerDueDate(a.due, before[u])) then a.due else before[u]
      decreases |unseen|
    {
      var member :| member in unseen;
      if member !in dues || NearerDueDate(a.due, dues[member]) {
        dues := dues[member := a.due];
      }
      unseen := unseen - {member};
    }
  }

  method FullRoster(dir: Directory, table: Table, rows: seq<AssignmentId>, g: GroupId, progress: ProgressOf, today: Day, unassigned: bool)
    returns (roster: map<UserId, Standing>)
    requires dir.Ok() && IsQueryForMaterial(table, rows, g)
    ensures forall u :: u in roster <==> RosterEntry(dir, table, rows, g, u, progress, today, unassigned).Some?
    ensures forall u :: u in roster ==> roster[u] == RosterEntry(dir, table, rows, g, u, progress, today, unassigned).value
  {
    var dues: map<UserId, Option<Day>> := map[];
    for i := 0 to |rows|
      invariant forall u :: u in dues <==> dir.Live(u) && Winner(table, rows[..i], g, u, dir.users[u]).Some?
      invariant forall u :: u in dues ==> dues[u] == Winner(table, rows[..i], g, u, dir.users[u]).value.due
    {
      hide NearerDueDate, Targets, Names;
      assert rows[..i + 1][..i] == rows[..i];
      assert rows[i] in rows;
      var a := table[rows[i]];
      forall u | dir.Live(u) ensures u in Targets(dir, a.target) <==> Names(a, u, dir.users[u]) {
        TargetsAreNamed(dir, a, u);
      }
      dues := MergeMembers(dir, a, dues);
    }
    assert rows[..|rows|] == rows;
    if unassigned {
      var others := set u | u in progress && u !in dues && dir.Live(u);
      dues := dues + map u | u in others :: None;
    }
    roster := map u | u in dues :: StandingOf(Lookup(progress, u), dues[u], today);
  }

  // --- The standings of each team --------------------------------------------------------------

  datatype TeamSummary = TeamSummary(team: TeamId, standings: map<UserId, Standing>)

  function TeamStandings(dir: Directory, a: Assignment, progress: ProgressOf, today: Day): map<UserId, Standing> {
    map u | u in Targets(dir, a.target) && dir.Live(u) :: StandingOf(Lookup(progress, u), a.due, today)
  }

  /** The rows a content manager's report is about: those assigning the material to a team that exists. */
  function TeamRows(dir: Directory, table: Table, rows: seq<AssignmentId>): seq<Assignment>
    requires forall a :: a in rows ==> a in table
  {
    if rows == [] then []
    else
      var front, a := TeamRows(dir, table, rows[..|rows| - 1]), table[rows[|rows| - 1]];
      if a.target.ToTeam? && a.target.team in dir.teams then front + [a] else front
  }

  method GroupStandings(dir: Directory, table: Table, rows: seq<AssignmentId>, g: GroupId, progress: ProgressOf,
        today: Day) returns (summaries: seq<TeamSummary>)
    requires IsQueryForMaterial(table, rows, g)
    ensures var teams := TeamRows(dir, table, rows);
            && |summaries| == |teams|
            && forall i :: 0 <= i < |teams| ==>
                teams[i].target.ToTeam? && summaries[i] == TeamSummary(teams[i].target.team, TeamStandings(dir, teams[i], progress, today))
  {
    summaries := [];
    for i := 0 to |rows|
      invariant forall a :: a in rows[..i] ==> a in table
      invariant var teams := TeamRows(dir, table, rows[..i]);
                && |summaries| == |teams|
                && forall j :: 0 <= j < |teams| ==> teams[j].target.ToTeam? && summaries[j] == TeamSummary(teams[j].target.team, TeamStandings(dir, teams[j], progress, today))
    {
      hide Targets, TeamStandings;
      assert rows[..i + 1][..i] == rows[..i];
      assert rows[i] in rows;
      var a := table[rows[i]];
      if a.target.ToTeam? && a.target.team in dir.teams {
        summaries := summaries + [TeamSummary(a.target.team, TeamStandings(dir, a, progress, today))];
      }
    }
    assert rows[..|rows|] == rows;
  }

  // --- The learner's own list -------------------------------------------------------------------------

  datatype ListRow = ListRow(group: GroupId, due: Option<Day>, mandatory: Option<bool>, overdue: bool, started: bool, available: bool)

  /** The row of one body of material on the learner's list: started, or assigned and there to be read. */
  function MyRow(winner: Option<Assignment>, p: Option<Completion>, readable: bool, g: GroupId, today: Day): Option<ListRow> {
    if p.None? && (winner.None? || !readable) then None
    else
      var due := if winner.Some? then winner.value.due else None;
      var mandatory := if winner.Some? then Some(winner.value.mandatory) else None;
      Some(ListRow(g, due, mandatory, winner.Some? && IsOverdue(due, IsCurrent(p), today), p.Some?, readable))
  }

  /** The facts the learner's list is made from. */
  datatype Mine = Mine(progress: map<GroupId, Completion>, winners: map<GroupId, Assignment>, readable: set<GroupId>, today: Day)
  {
    function Row(g: GroupId): Option<ListRow> {
      MyRow(if g in winners then Some(winners[g]) else None, if g in progress then Some(progress[g]) else None, g in readable, g, today)
    }

    /** These rows are the rows of these groups, in this order. */
    predicate Lists(summaries: seq<ListRow>, groups: seq<GroupId>) {
      |summaries| == |groups| && forall i :: 0 <= i < |groups| ==> Row(groups[i]) == Some(summaries[i])
    }
  }

  method StartedSummaries(started: seq<GroupId>, facts: Mine) returns (summaries: seq<ListRow>)
    requires forall g :: g in started ==> g in facts.progress
    ensures facts.Lists(summaries, started)
  {
    hide IsOverdue, IsCurrent;
    summaries := [];
    for i := 0 to |started|
      invariant facts.Lists(summaries, started[..i])
    {
      var g := started[i];
      assert g in started;
      var due := if g in facts.winners then facts.winners[g].due else None;
      var mandatory := if g in facts.winners then Some(facts.winners[g].mandatory) else None;
      var overdue := if g in facts.winners then IsOverdue(due, IsCurrent(Some(facts.progress[g])), facts.today) else false;
      summaries := summaries + [ListRow(g, due, mandatory, overdue, true, g in facts.readable)];
    }
    assert started[..|started|] == started;
  }

  /** Material assigned and readable, but not opened yet. */
  method UnstartedSummaries(groups: seq<GroupId>, facts: Mine) returns (summaries: seq<ListRow>)
    requires forall g :: g in groups ==> g in facts.winners && g !in facts.progress && g in facts.readable
    ensures facts.Lists(summaries, groups)
  {
    hide IsOverdue;
    summaries := [];
    for i := 0 to |groups|
      invariant facts.Lists(summaries, groups[..i])
    {
      var g := groups[i];
      assert g in groups;
      var a := facts.winners[g];
      summaries := summaries + [ListRow(g, a.due, Some(a.mandatory), IsOverdue(a.due, false, facts.today), false, true)];
    }
    assert groups[..|groups|] == groups;
  }

  method InSomeOrder(s: set<GroupId>) returns (order: seq<GroupId>)
    ensures NoDuplicates(order) && forall g :: g in order <==> g in s
  {
    order := [];
    var left := s;
    while left != {}
      invariant left <= s && NoDuplicates(order) && forall g :: g in order <==> g in s && g !in left
      decreases |left|
    {
      var g :| g in left;
      order, left := order + [g], left - {g};
    }
  }

  /** Every group that has a row, once: first what was started, in the given order, then what is assigned and not yet opened. */
  method ListMyModules(started: seq<GroupId>, facts: Mine) returns (summaries: seq<ListRow>, groups: seq<GroupId>)
    requires NoDuplicates(started) && forall g :: g in started <==> g in facts.progress
    ensures facts.Lists(summaries, groups)
    ensures NoDuplicates(groups) && forall g :: g in groups <==> facts.Row(g).Some?
    ensures started <= groups
  {
    hide IsOverdue, IsCurrent;
    var first := StartedSummaries(started, facts);
    var rest := InSomeOrder(set g | g in facts.winners && g !in facts.progress && g in facts.readable);
    var second := UnstartedSummaries(rest, facts);
    summaries, groups := first + second, started + rest;
  }

  // --- The views agree -----------------------------------------------------------------------------------

  /**
   * For a live learner, whatever order each query returned its rows in: the roster and the learner's own resolution name
   * the same material with the same due date, and the roster and the learner's own list show the same date and the same
   * overdue flag.
   */
  lemma ViewsAgree(dir: Directory, table: Table, byUser: seq<AssignmentId>, byMaterial: seq<AssignmentId>,
        g: GroupId, u: UserId, progress: ProgressOf, readable: bool, today: Day)
    requires dir.Ok() && dir.Live(u)
    requires IsQueryForUser(table, byUser, u, dir.users[u]) && IsQueryForMaterial(table, byMaterial, g)
    ensures var mine, entry := Winner(table, byUser, g, u, dir.users[u]), RosterEntry(dir, table, byMaterial, g, u, progress, today, false);
            var row := MyRow(mine, Lookup(progress, u), readable, g, today);
            && (mine.Some? <==> entry.Some?)
            && (mine.Some? ==> entry.value.due == mine.value.due && entry.value.overdue == IsOverdue(mine.value.due, IsCurrent(Lookup(progress, u)), today))
            && (mine.Some? && row.Some? ==> row.value.due == entry.value.due && row.value.overdue == entry.value.overdue)
            && (mine.None? && row.Some? ==> row.value.due == None && !row.value.overdue)
  {
    hide Names;
    SameRowsSameDate(table, byUser, byMaterial, g, u, dir.users[u]);
  }

  /** A team's standings are of its live members, each against the date of the team's own assignment. */
  lemma TeamStandingsAreTheTeams(dir: Directory, a: Assignment, u: UserId, progress: ProgressOf, today: Day)
    requires dir.Ok() && a.target.ToTeam?
    ensures u in TeamStandings(dir, a, progress, today) <==> dir.Live(u) && a.target.team in dir.users[u].teams
    ensures u in TeamStandings(dir, a, progress, today) ==>
              var s := TeamStandings(dir, a, progress, today)[u];
              && s.due == a.due
              && (s.state.CompletedNow? <==> u in progress && progress[u].completed && !progress[u].superseded)
              && (s.state.NotStarted? <==> u !in progress)
              && (s.onRecord <==> u in progress && progress[u].completed)
              && (s.overdue <==> a.due.Some? && a.due.value < today && !s.state.CompletedNow?)
  {
  }

  /** Whoever a team standing shows as overdue, the roster shows as overdue too; and their states are the same everywhere. */
  lemma TeamOverdueIsRosterOverdue(dir: Directory, table: Table, rows: seq<AssignmentId>, g: GroupId,
        a: AssignmentId, u: UserId, progress: ProgressOf, today: Day)
    requires dir.Ok() && IsQueryForMaterial(table, rows, g) && a in rows && table[a].target.ToTeam? &&
        u in TeamStandings(dir, table[a], progress, today)
    ensures var entry := RosterEntry(dir, table, rows, g, u, progress, today, false);
            var standing := TeamStandings(dir, table[a], progress, today)[u];
            && entry.Some?
            && entry.value.state == standing.state
            && (standing.overdue ==> entry.value.overdue)
  {
    TargetsAreNamed(dir, table[a], u);
    WinnerIsNearest(table, rows, g, u, dir.users[u]);
    var i :| 0 <= i < |rows| && rows[i] == a;
    assert Covers(table, rows[i], g, u, dir.users[u]);
  }
}
