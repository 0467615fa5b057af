/** Resolving what a learner is assigned, and the nearest due date, from one learner's side. */
module Assigning {
  import opened Common
  import opened Domain

  type Table = map<AssignmentId, Assignment>

  /** Users and the teams that exist; membership rows only ever name existing teams. */
  datatype Directory = Directory(users: map<UserId, User>, teams: set<TeamId>)
  {
    predicate Ok() {
      forall u :: u in users ==> users[u].teams <= teams
    }

    predicate Live(u: UserId) {
      u in users && users[u].Live()
    }
  }

  /** `resolve_target_users`: who a target names right now. */
  function Targets(dir: Directory, target: Target): set<UserId> {
    match target
    case ToTeam(t) => if t in dir.teams then set u | u in dir.users && t in dir.users[u].teams else {}
    case ToUser(u) => if u in dir.users && !dir.users[u].erased then {u} else {}
  }

  /** Seen from the target or from the learner, the same live people are named. */
  lemma TargetsAreNamed(dir: Directory, a: Assignment, u: UserId)
    requires dir.Ok() && dir.Live(u)
    ensures u in Targets(dir, a.target) <==> Names(a, u, dir.users[u])
  {
  }

  /** A date beats none; of two dates the earlier wins. */
  predicate NearerDueDate(candidate: Option<Day>, current: Option<Day>) {
    if candidate.None? then false
    else if current.None? then true
    else candidate.value < current.value
  }

  predicate IsOverdue(due: Option<Day>, completed: bool, today: Day) {
    due.Some? && !completed && due.value < today
  }

  /** Does row `a` assign material `g` to this learner? */
  predicate Covers(table: Table, a: AssignmentId, g: GroupId, u: UserId, user: User) {
    a in table && table[a].group == g && Names(table[a], u, user)
  }

  /** Of the rows that assign `g` to this learner, the one the loops keep: the first among those with the nearest date. */
  function Winner(table: Table, rows: seq<AssignmentId>, g: GroupId, u: UserId, user: User): Option<Assignment> {
    if rows == [] then None
    else
      var current, a := Winner(table, rows[..|rows| - 1], g, u, user), rows[|rows| - 1];
      if Covers(table, a, g, u, user) && (current.None? || NearerDueDate(table[a].due, current.value.due)) then Some(table[a]) else current
  }

  /** No row of the list that assigns `g` to this learner has a nearer date. */
  predicate NoneNearer(table: Table, rows: seq<AssignmentId>, g: GroupId, u: UserId, user: User, due: Option<Day>) {
    forall i :: 0 <= i < |rows| && Covers(table, rows[i], g, u, user) ==> !NearerDueDate(table[rows[i]].due, due)
  }

  /** The earliest day on which any row assigning `g` to this learner is due, and no day when none of them has a date. */
  predicate IsEarliestDate(table: Table, rows: seq<AssignmentId>, g: GroupId, u: UserId, user: User, due: Option<Day>) {
    forall i :: 0 <= i < |rows| && Covers(table, rows[i], g, u, user) && table[rows[i]].due.Some? ==>
      due.Some? && due.value <= table[rows[i]].due.value
  }

  lemma {:induction false} WinnerIsNearest(table: Table, rows: seq<AssignmentId>, g: GroupId, u: UserId, user: User)
    ensures var w := Winner(table, rows, g, u, user);
            && (w.None? <==> forall i :: 0 <= i < |rows| ==> !Covers(table, rows[i], g, u, user))
            && (w.Some? ==> NoneNearer(table, rows, g, u, user, w.value.due) && IsEarliestDate(table, rows, g, u, user, w.value.due)
                            && exists i :: 0 <= i < |rows| && Covers(table, rows[i], g, u, user) && table[rows[i]] == w.value)
  {
    hide Names;
    if rows != [] {
      var front := rows[..|rows| - 1];
      WinnerIsNearest(table, front, g, u, user);
      var w0 := Winner(table, front, g, u, user);
      if w0.Some? {
        var i :| 0 <= i < |front| && Covers(table, front[i], g, u, user) && table[front[i]] == w0.value;
        assert rows[i] == front[i];
      }
      assert forall i :: 0 <= i < |front| ==> rows[i] == front[i];
    }
  }

  /** Two lists holding the same covering rows, in whatever orders, yield the same date: all the views rest on this. */
  lemma SameRowsSameDate(table: Table, rows: seq<AssignmentId>, rows': seq<AssignmentId>, g: GroupId, u: UserId, user: User)
    requires forall a :: Covers(table, a, g, u, user) ==> (a in rows <==> a in rows')
    ensures var w, w' := Winner(table, rows, g, u, user), Winner(table, rows', g, u, user);
            && (w.Some? <==> w'.Some?)
            && (w.Some? ==> w.value.due == w'.value.due)
  {
    hide Names;
    WinnerIsNearest(table, rows, g, u, user);
    WinnerIsNearest(table, rows', g, u, user);
    var w, w' := Winner(table, rows, g, u, user), Winner(table, rows', g, u, user);
    if w.Some? {
      var i :| 0 <= i < |rows| && Covers(table, rows[i], g, u, user) && table[rows[i]] == w.value;
      assert rows[i] in rows';
    }
    if w'.Some? {
      var i :| 0 <= i < |rows'| && Covers(table, rows'[i], g, u, user) && table[rows'[i]] == w'.value;
      assert rows'[i] in rows;
    }
  }

  // --- The requirement that comes with the date ------------------------------------------------

  /** Does row `a` tie for the nearest date among these rows? */
  predicate Ties(table: Table, rows: seq<AssignmentId>, g: GroupId, u: UserId, user: User, a: AssignmentId) {
    a in rows && Covers(table, a, g, u, user) && NoneNearer(table, rows, g, u, user, table[a].due)
  }

  lemma {:induction false} FirstTieWins(table: Table, first: AssignmentId, rest: seq<AssignmentId>, g: GroupId, u: UserId, user: User)
    requires Covers(table, first, g, u, user) && NoneNearer(table, rest, g, u, user, table[first].due)
    ensures Winner(table, [first] + rest, g, u, user) == Some(table[first])
  {
    hide Names, NearerDueDate;
    var rows := [first] + rest;
    if rest == [] {
      assert rows[..0] == [] && rows[0] == first;
    } else {
      assert rows[..|rows| - 1] == [first] + rest[..|rest| - 1];
      FirstTieWins(table, first, rest[..|rest| - 1], g, u, user);
    }
  }

  /** If both are there, they carry the same requirement. */
  predicate SameRequirement(w: Option<Assignment>, w': Option<Assignment>) {
    w.Some? && w'.Some? ==> w.value.mandatory == w'.value.mandatory
  }

  ghost predicate OrderDoesNotMatter(table: Table, rows: seq<AssignmentId>, g: GroupId, u: UserId, user: User) {
    forall other: seq<AssignmentId> :: multiset(other) == multiset(rows) ==>
      SameRequirement(Winner(table, other, g, u, user), Winner(table, rows, g, u, user))
  }

  predicate TiesAgree(table: Table, rows: seq<AssignmentId>, g: GroupId, u: UserId, user: User) {
    forall a, b :: a in rows && b in rows && Ties(table, rows, g, u, user, a) && Ties(table, rows, g, u, user, b) ==>
      table[a].mandatory == table[b].mandatory
  }

  /**
   * The winning requirement is independent of the order of the rows exactly when all the rows that tie for the nearest
   * date carry the same requirement; the date itself never depends on the order.
   */
  lemma RequirementIsDeterminedIff(table: Table, rows: seq<AssignmentId>, g: GroupId, u: UserId, user: User)
    ensures OrderDoesNotMatter(table, rows, g, u, user) <==> TiesAgree(table, rows, g, u, user)
  {
    hide Names;
    if TiesAgree(table, rows, g, u, user) {
      forall other: seq<AssignmentId> | multiset(other) == multiset(rows)
        ensures SameRequirement(Winner(table, other, g, u, user), Winner(table, rows, g, u, user))
      {
        if Winner(table, rows, g, u, user).Some? && Winner(table, other, g, u, user).Some? {
          var a := WinningRow(table, rows, rows, g, u, user);
          var b := WinningRow(table, rows, other, g, u, user);
        }
      }
    } else {
      var a, b :| a in rows && b in rows && Ties(table, rows, g, u, user, a) && Ties(table, rows, g, u, user, b) &&
        table[a].mandatory != table[b].mandatory;
      var x := Leading(table, rows, g, u, user, a);
      var y := Leading(table, rows, g, u, user, b);
      WinnerIsNearest(table, rows, g, u, user);
      assert Winner(table, rows, g, u, user).Some?;
    }
  }

  /** One learner assigned the same material directly as mandatory and through a team as optional, both due on one day. */
  lemma RowOrderDecides() returns (table: Table, user: User)
    ensures table.Keys == {0, 1}
    ensures Winner(table, [0, 1], 0, 0, user) == Some(table[0]) && table[0].mandatory
    ensures Winner(table, [1, 0], 0, 0, user) == Some(table[1]) && !table[1].mandatory
    ensures !OrderDoesNotMatter(table, [0, 1], 0, 0, user)
  {
    user := User(false, None, {7}, false, false);
    table := map[0 := Assignment(0, ToUser(0), Some(0), true, true), 1 := Assignment(0, ToTeam(7), Some(0), false, true)];
    FirstOfTwo(table, 0, 1, user);
    FirstOfTwo(table, 1, 0, user);
    assert multiset([1, 0]) == multiset([0, 1]);
  }

  lemma FirstOfTwo(table: Table, a: AssignmentId, b: AssignmentId, user: User)
    requires Covers(table, a, 0, 0, user) && Covers(table, b, 0, 0, user) && !NearerDueDate(table[b].due, table[a].due)
    ensures Winner(table, [a, b], 0, 0, user) == Some(table[a])
  {
    assert [a] + [b] == [a, b];
    FirstTieWins(table, a, [b], 0, 0, user);
  }

  lemma WinningRow(table: Table, rows: seq<AssignmentId>, other: seq<AssignmentId>, g: GroupId, u: UserId,
        user: User) returns (a: AssignmentId)
    requires multiset(other) == multiset(rows) && Winner(table, other, g, u, user).Some?
    ensures Ties(table, rows, g, u, user, a) && table[a] == Winner(table, other, g, u, user).value
  {
    hide Names, NearerDueDate;
    WinnerIsNearest(table, other, g, u, user);
    var i :| 0 <= i < |other| && Covers(table, other[i], g, u, user) && table[other[i]] == Winner(table, other, g, u, user).value;
    a := other[i];
    assert a in multiset(other) && a in multiset(rows);
    forall j | 0 <= j < |rows| && Covers(table, rows[j], g, u, user) ensures !NearerDueDate(table[rows[j]].due, table[a].due) {
      assert rows[j] in multiset(rows) && rows[j] in multiset(other);
      var l :| 0 <= l < |other| && other[l] == rows[j];
    }
  }

  /** The same rows with a tying one moved to the front: then it wins. */
  lemma Leading(table: Table, rows: seq<AssignmentId>, g: GroupId, u: UserId, user: User,
        a: AssignmentId) returns (other: seq<AssignmentId>)
    requires Ties(table, rows, g, u, user, a)
    ensures multiset(other) == multiset(rows) && Winner(table, other, g, u, user) == Some(table[a])
  {
    hide Names, NearerDueDate;
    var i :| 0 <= i < |rows| && rows[i] == a;
    var rest := rows[..i] + rows[i + 1..];
    other := [a] + rest;
    assert rows == rows[..i] + [a] + rows[i + 1..];
    forall j | 0 <= j < |rest| && Covers(table, rest[j], g, u, user) ensures !NearerDueDate(table[rest[j]].due, table[a].due) {
      assert rest[j] == rows[if j < i then j else j + 1];
    }
    FirstTieWins(table, a, rest, g, u, user);
  }

  // --- The learner's own side, as the code computes it -------------------------------------------

  /** `rows` is a query result: exactly the rows naming this user, in any order. */
  ghost predicate IsQueryForUser(table: Table, rows: seq<AssignmentId>, u: UserId, user: User) {
    forall a :: a in rows <==> a in table && Names(table[a], u, user)
  }

  method AssignmentsForUser(table: Table, rows: seq<AssignmentId>, u: UserId, user: User) returns (winners: map<GroupId, Assignment>)
    requires IsQueryForUser(table, rows, u, user)
    ensures forall g :: g in winners <==> Winner(table, rows, g, u, user).Some?
    ensures forall g :: g in winners ==> winners[g] == Winner(table, rows, g, u, user).value
  {
    winners := map[];
    for i := 0 to |rows|
      invariant forall g :: g in winners <==> Winner(table, rows[..i], g, u, user).Some?
      invariant forall g :: g in winners ==> winners[g] == Winner(table, rows[..i], g, u, user).value
    {
      hide NearerDueDate;
      assert rows[..i + 1][..i] == rows[..i];
      assert rows[i] in rows;
      var row := table[rows[i]];
      if row.group !in winners || NearerDueDate(row.due, winners[row.group].due) {
        winners := winners[row.group := row];
      }
    }
    assert rows[..|rows|] == rows;
  }

  /** The cheap form every access check uses names exactly the same material. */
  lemma AssignedGroupsAreWinners(table: Table, rows: seq<AssignmentId>, u: UserId, user: User, g: GroupId)
    requires IsQueryForUser(table, rows, u, user)
    ensures g in (set a | a in table && Names(table[a], u, user) :: table[a].group) <==> Winner(table, rows, g, u, user).Some?
  {
    WinnerIsNearest(table, rows, g, u, user);
    if exists a :: Covers(table, a, g, u, user) {
      var a :| Covers(table, a, g, u, user);
      assert a in rows;
    }
  }
}
