/** The reminder cap and the cadence, over whole days and over runs of days. */
module ReminderRuns {
  import opened Common
  import opened Domain
  import opened Assigning
  import opened Reminders
  import Reporting

  // --- One day: any interleaving of scheduled runs, nudges and other changes ---------------------

  datatype State = State(facts: Facts, log: seq<Reminder>, nudged: seq<GroupId>)

  /** Assignments may be added, never removed or retargeted; everything else may change freely. */
  predicate OnlyAdds(before: Table, after: Table) {
    forall a :: a in before ==> a in after && after[a] == before[a]
  }

  datatype Action = Scheduled | Nudge(group: GroupId) | Change(facts: Facts)

  /** One step of the day `today`. */
  ghost predicate Step(s: State, action: Action, s': State, today: Day) {
    match action
    case Scheduled => s'.facts == s.facts && s'.nudged == s.nudged && Ran(s.facts, s.log, s'.log, ScheduledAudience(s.facts, today), today)
    case Nudge(g) =>
      if g in s.nudged then s' == s
      else s'.facts == s.facts && s'.nudged == s.nudged + [g] && Ran(s.facts, s.log, s'.log, NudgeAudience(s.facts, g), today)
    case Change(facts) => s' == s.(facts := facts) && OnlyAdds(s.facts.table, facts.table)
  }

  /** Every row of the log names an assignment that exists, as its foreign key demands. */
  predicate Referential(s: State) {
    forall i :: 0 <= i < |s.log| ==> s.log[i].assignment in s.facts.table
  }

  ghost predicate AtMostOneEach(s: State, today: Day) {
    && Referential(s)
    && (forall k: Key :: Count(s.log, s.facts.table, k, today) <= 1)
    && NoDuplicates(s.nudged)
  }

  lemma {:induction false} AddingKeepsCounts(log: seq<Reminder>, before: Table, after: Table, k: Key, day: Day)
    requires OnlyAdds(before, after) && forall i :: 0 <= i < |log| ==> log[i].assignment in before
    ensures Count(log, after, k, day) == Count(log, before, k, day)
  {
    if log != [] {
      AddingKeepsCounts(log[..|log| - 1], before, after, k, day);
    }
  }

  lemma StepKeepsTheCap(s: State, action: Action, s': State, today: Day)
    requires AtMostOneEach(s, today) && Step(s, action, s', today)
    ensures AtMostOneEach(s', today)
  {
    hide Count, ScheduledAudience, NudgeAudience, Eligible;
    match action
    case Change(facts) =>
      forall k: Key ensures Count(s'.log, s'.facts.table, k, today) <= 1 {
        AddingKeepsCounts(s.log, s.facts.table, facts.table, k, today);
      }
    case _ =>
      forall i | 0 <= i < |s'.log| ensures s'.log[i].assignment in s'.facts.table {
        if i < |s.log| {
          assert s'.log[i] == s.log[i];
        } else if s' != s {
          assert Warranted(s.facts, s'.log[i], today);
        }
      }
  }

  ghost predicate IsRun(states: seq<State>, actions: seq<Action>, today: Day) {
    |states| == |actions| + 1 && forall i :: 0 <= i < |actions| ==> Step(states[i], actions[i], states[i + 1], today)
  }

  /** At most one reminder per learner and material, and at most one accepted nudge per material, at every moment of the day. */
  lemma {:induction false} CapHoldsAllDay(states: seq<State>, actions: seq<Action>, today: Day)
    requires IsRun(states, actions, today) && AtMostOneEach(states[0], today)
    ensures forall i :: 0 <= i < |states| ==> AtMostOneEach(states[i], today)
    decreases |actions|
  {
    hide Step, AtMostOneEach;
    if actions != [] {
      var n := |actions| - 1;
      CapHoldsAllDay(states[..n + 1], actions[..n], today);
      assert states[..n + 1][n] == states[n];
      StepKeepsTheCap(states[n], actions[n], states[n + 1], today);
    }
  }

  // --- Idempotence ---------------------------------------------------------------------------------

  lemma {:induction false} CountGrows(before: seq<Reminder>, after: seq<Reminder>, table: Table, k: Key, day: Day)
    requires before <= after
    ensures Count(before, table, k, day) <= Count(after, table, k, day)
    decreases |after|
  {
    if before != after {
      assert before <= after[..|after| - 1];
      CountGrows(before, after[..|after| - 1], table, k, day);
    } else {
      assert before == after;
    }
  }

  /** A scheduled run repeated on the same day with nothing else changed sends nothing. */
  lemma RepeatedRunSendsNothing(facts: Facts, before: seq<Reminder>, once: seq<Reminder>, twice: seq<Reminder>, today: Day)
    requires Ran(facts, before, once, ScheduledAudience(facts, today), today)
    requires Ran(facts, once, twice, ScheduledAudience(facts, today), today)
    ensures twice == once
  {
    hide Count, ScheduledAudience, AudienceOf, Eligible;
    if |twice| > |once| {
      // The first row a second run would add is about someone the first run had already counted.
      var r := twice[|once|];
      assert Warranted(facts, r, today);
      var k := Key(r.user, facts.table[r.assignment].group);
      var longer := once + [r];
      assert longer <= twice;
      CountAfter(once, r, facts.table, k, today);
      CountGrows(longer, twice, facts.table, k, today);
    }
  }

  lemma InAudienceIff(facts: Facts, a: Assignment, k: Key)
    requires facts.dir.Ok()
    ensures Eligible(a) && a.group in facts.published && k in AudienceOf(facts, a) <==> a.group == k.group && Obliges(facts, a, k.user)
  {
    if facts.dir.Live(k.user) {
      TargetsAreNamed(facts.dir, a, k.user);
    }
  }

  /** This assignment of the material obliges the learner. */
  predicate IsObligedBy(facts: Facts, a: AssignmentId, k: Key) {
    a in facts.table && facts.table[a].group == k.group && Obliges(facts, facts.table[a], k.user)
  }

  /**
   * After a scheduled run exactly those have a reminder today who had one before, or whom some mandatory, dated, unmuted
   * assignment obliges that is on a checkpoint today.
   */
  lemma AudienceIsExact(facts: Facts, before: seq<Reminder>, after: seq<Reminder>, today: Day, k: Key)
    requires facts.dir.Ok() && Ran(facts, before, after, ScheduledAudience(facts, today), today)
    ensures Count(after, facts.table, k, today) > 0 <==>
              || Count(before, facts.table, k, today) > 0
              || exists a :: IsObligedBy(facts, a, k) && IsCheckpoint(facts.table[a].due.value, today)
  {
    hide Count, ScheduledKind, AudienceOf, Obliges, IsCheckpoint;
    forall a | a in facts.table
      ensures IsObligedBy(facts, a, k) ==> facts.table[a].due.Some?
      ensures OnCheckpoint(facts, facts.table[a], today) && k in AudienceOf(facts, facts.table[a]) <==>
              facts.table[a].due.Some? && IsObligedBy(facts, a, k) && IsCheckpoint(facts.table[a].due.value, today)
    {
      InAudienceIff(facts, facts.table[a], k);
      OnlyDatedOblige(facts, facts.table[a], k.user);
      if facts.table[a].due.Some? {
        KindIsOfTheDay(facts.table[a].due.value, today);
      }
    }
    assert k in ScheduledAudience(facts, today) <==>
        exists a :: a in facts.table && OnCheckpoint(facts, facts.table[a], today) && k in AudienceOf(facts, facts.table[a]);
  }

  lemma OnlyDatedOblige(facts: Facts, a: Assignment, u: UserId)
    ensures Obliges(facts, a, u) ==> a.due.Some?
  {
  }

  /** After a nudge, those who had one before, or whom some such assignment of this material obliges, whatever the day. */
  lemma NudgeAudienceIsExact(facts: Facts, before: seq<Reminder>, after: seq<Reminder>, g: GroupId, today: Day, k: Key)
    requires facts.dir.Ok() && Ran(facts, before, after, NudgeAudience(facts, g), today)
    ensures Count(after, facts.table, k, today) > 0 <==>
              Count(before, facts.table, k, today) > 0 || (k.group == g && exists a :: IsObligedBy(facts, a, k))
  {
    hide Count, ScheduledKind, AudienceOf, Obliges, Eligible;
    forall a | a in facts.table
      ensures Eligible(facts.table[a]) && facts.table[a].group in facts.published && k in AudienceOf(facts, facts.table[a]) <==>
              IsObligedBy(facts, a, k)
      ensures k in AudienceOf(facts, facts.table[a]) ==> k.group == facts.table[a].group
    {
      InAudienceIff(facts, facts.table[a], k);
      AudienceIsOfTheGroup(facts, facts.table[a], k);
    }
    assert g in facts.published ==> (k in NudgeAudience(facts, g) <==>
        exists a :: a in facts.table && Eligible(facts.table[a]) && facts.table[a].group == g && k in AudienceOf(facts, facts.table[a]));
  }

  lemma AudienceIsOfTheGroup(facts: Facts, a: Assignment, k: Key)
    ensures k in AudienceOf(facts, a) ==> k.group == a.group
  {
  }

  /** Whoever is sent an overdue reminder is, in that day's roster, overdue and not completed. */
  lemma OverdueReminderIsOverdueInRoster(facts: Facts, before: seq<Reminder>, after: seq<Reminder>, i: nat, audience: set<Key>, today: Day,
                                         rows: seq<AssignmentId>, g: GroupId, progress: Reporting.ProgressOf)
    requires facts.dir.Ok() && Ran(facts, before, after, audience, today)
    requires |before| <= i < |after| && after[i].kind == OverdueWeekly
    requires after[i].assignment in facts.table && facts.table[after[i].assignment].group == g
    requires Reporting.IsQueryForMaterial(facts.table, rows, g)
    requires forall u :: Reporting.IsCurrent(Reporting.Lookup(progress, u)) <==> Key(u, g) in facts.current
    ensures var entry := Reporting.RosterEntry(facts.dir, facts.table, rows, g, after[i].user, progress, today, false);
            entry.Some? && entry.value.overdue && !entry.value.state.CompletedNow?
  {
    hide Accounts;
    var r := after[i];
    assert Warranted(facts, r, today);
    var u, a := r.user, facts.table[r.assignment];
    assert a.due.value < today;
    TargetsAreNamed(facts.dir, a, u);
    WinnerIsNearest(facts.table, rows, g, u, facts.dir.users[u]);
    assert r.assignment in rows;
    var j :| 0 <= j < |rows| && rows[j] == r.assignment;
    assert Covers(facts.table, rows[j], g, u, facts.dir.users[u]);
  }

  // --- When assignments are removed --------------------------------------------------------------------

  /** Deleting assignments deletes their reminder rows with them. */
  function Cascaded(log: seq<Reminder>, gone: set<AssignmentId>): seq<Reminder> {
    if log == [] then []
    else Cascaded(log[..|log| - 1], gone) + if log[|log| - 1].assignment in gone then [] else [log[|log| - 1]]
  }

  lemma {:induction false} CascadedCounts(log: seq<Reminder>, gone: set<AssignmentId>, table: Table, k: Key, day: Day)
    ensures Count(Cascaded(log, gone), table, k, day) <= Count(log, table, k, day)
    ensures Count(Cascaded(log, gone), table, k, day) == Count(log, table, k, day) <==>
              forall i :: 0 <= i < |log| && IsAbout(log[i], table, k, day) ==> log[i].assignment !in gone
  {
    if log != [] {
      var front, r := log[..|log| - 1], log[|log| - 1];
      CascadedCounts(front, gone, table, k, day);
      if r.assignment in gone {
        assert Cascaded(log, gone) == Cascaded(front, gone);
      } else {
        CountAfter(Cascaded(front, gone), r, table, k, day);
      }
      assert forall i :: 0 <= i < |front| ==> front[i] == log[i];
    }
  }

  lemma {:induction false} CascadedAreOthers(log: seq<Reminder>, gone: set<AssignmentId>)
    ensures forall i :: 0 <= i < |Cascaded(log, gone)| ==> Cascaded(log, gone)[i] in log && Cascaded(log, gone)[i].assignment !in gone
  {
    if log != [] {
      CascadedAreOthers(log[..|log| - 1], gone);
    }
  }

  /**
   * The cap is kept on rows, not on mails. Once the assignments `gone` are removed, one by a delete or all of a group's with
   * its module, others perhaps added, the next run reminds a learner of its audience, reminded already today, once more
   * exactly when the row of that reminder belonged to one of them.
   */
  lemma RemovalReopensTheCapIff(before: Table, log: seq<Reminder>, gone: set<AssignmentId>, facts: Facts,
        after: seq<Reminder>, audience: set<Key>, k: Key, today: Day)
    requires forall i :: 0 <= i < |log| ==> log[i].assignment in before
    requires OnlyAdds(before - gone, facts.table)
    requires Count(log, before, k, today) == 1 && k in audience
    requires Ran(facts, Cascaded(log, gone), after, audience, today)
    ensures Count(after, facts.table, k, today) == Count(Cascaded(log, gone), facts.table, k, today) + 1 <==>
              exists i :: 0 <= i < |log| && IsAbout(log[i], before, k, today) && log[i].assignment in gone
  {
    hide Count, IsAbout;
    CascadedCounts(log, gone, before, k, today);
    CascadedAreOthers(log, gone);
    AddingKeepsCounts(Cascaded(log, gone), before - gone, before, k, today);
    AddingKeepsCounts(Cascaded(log, gone), before - gone, facts.table, k, today);
  }

  /** A day on which that happens: a scheduled reminder, then the assignment removed and made again, then a nudge. */
  lemma TwoMailsInOneDay() returns (first: Facts, second: Facts, scheduled: Reminder, nudge: Reminder)
    ensures first.table.Keys == {0} && second == first.(table := map[1 := first.table[0]])
    ensures Ran(first, [], [scheduled], ScheduledAudience(first, 0), 0)
    ensures Cascaded([scheduled], {scheduled.assignment}) == []
    ensures Ran(second, [], [nudge], NudgeAudience(second, 0), 0)
    ensures scheduled.user == nudge.user && scheduled.day == nudge.day
  {
    var learner := User(false, None, {}, false, false);
    var a := Assignment(0, ToUser(0), Some(0), true, true);
    first := Facts(Directory(map[0 := learner], {}), map[0 := a], {}, {0});
    second := first.(table := map[1 := a]);
    scheduled, nudge := Reminder(0, 0, Due, 0), Reminder(1, 0, Manual, 0);
    var k := Key(0, 0);
    assert AudienceOf(first, a) == {k} && AudienceOf(second, a) == {k};
    assert ScheduledAudience(first, 0) == {} + {k} by {
      assert 0 in first.table && OnCheckpoint(first, a, 0) && k in AudienceOf(first, a);
    }
    assert NudgeAudience(second, 0) == {} + {k} by {
      assert 1 in second.table && Eligible(a) && k in AudienceOf(second, a);
    }
    NothingRan(first, [], 0);
    OneMoreCounted(first, [], [], {}, scheduled, 0);
    NothingRan(second, [], 0);
    OneMoreCounted(second, [], [], {}, nudge, 0);
    assert [] + [scheduled] == [scheduled] && [] + [nudge] == [nudge];
    assert [scheduled][..0] == [];
  }

  // --- The cadence over days -------------------------------------------------------------------------------

  /** On how many of the `n` days from `from` on the calendar falls on a checkpoint of this due date. */
  function Checkpoints(due: Day, from: Day, n: nat): nat {
    if n == 0 then 0 else Checkpoints(due, from, n - 1) + if ScheduledKind(due, from + n - 1).Some? then 1 else 0
  }

  /** The checkpoints there are up to and including day `last`. */
  function CheckpointsUpTo(due: Day, last: Day): nat {
    if last < due - 7 then 0
    else if last < due - 1 then 1
    else if last < due then 2
    else 3 + (last - due) / 7
  }

  lemma {:induction false} CadenceInClosedForm(due: Day, from: Day, n: nat)
    requires from <= due - 7
    ensures Checkpoints(due, from, n) == CheckpointsUpTo(due, from + n - 1)
  {
    if n > 0 {
      CadenceInClosedForm(due, from, n - 1);
      WeeksCount(from + n - 1 - due);
    }
  }

  lemma WeeksCount(late: int)
    ensures late > 0 ==> (late / 7 == (late - 1) / 7 + 1 <==> late % 7 == 0) && (late % 7 != 0 ==> late / 7 == (late - 1) / 7)
    ensures late > 0 ==> (-late % 7 == 0 <==> late % 7 == 0)
  {
  }

  /** Reminders of this learner about this material on the `n` days from `from` on. */
  function CountOver(log: seq<Reminder>, table: Table, k: Key, from: Day, n: nat): nat {
    if n == 0 then 0 else CountOver(log, table, k, from, n - 1) + Count(log, table, k, from + n - 1)
  }

  /** The job run once a day: `starts[i]` is the log the run of day `from + i` finds, and `ends[i]` the log it leaves. */
  ghost predicate DailyRuns(facts: seq<Facts>, starts: seq<seq<Reminder>>, ends: seq<seq<Reminder>>, from: Day) {
    && |starts| == |ends| == |facts|
    && forall i :: 0 <= i < |facts| ==> Ran(facts[i], starts[i], ends[i], ScheduledAudience(facts[i], from + i), from + i)
  }

  /** A row that belongs to an assignment, but is no reminder of this learner about this material. */
  predicate AboutOthers(r: Reminder, table: Table, k: Key) {
    r.assignment in table && !(r.user == k.user && table[r.assignment].group == k.group)
  }

  /**
   * What may happen between one day's run and the next: the assignments `gone` are removed with their rows, others are
   * added, and nudges add rows about other learners or other material.
   */
  ghost predicate Meanwhile(table: Table, log: seq<Reminder>, table': Table, log': seq<Reminder>, gone: set<AssignmentId>,
        k: Key, a: AssignmentId) {
    && a !in gone && OnlyAdds(table - gone, table')
    && Cascaded(log, gone) <= log'
    && forall i :: |Cascaded(log, gone)| <= i < |log'| ==> AboutOthers(log'[i], table', k)
  }

  /** So it goes on every night of the stretch. */
  ghost predicate Nights(facts: seq<Facts>, starts: seq<seq<Reminder>>, ends: seq<seq<Reminder>>, k: Key, a: AssignmentId)
    requires |starts| == |ends| == |facts|
  {
    forall i: nat :: i + 1 < |facts| ==> Night(facts, starts, ends, k, a, i)
  }

  ghost predicate Night(facts: seq<Facts>, starts: seq<seq<Reminder>>, ends: seq<seq<Reminder>>, k: Key, a: AssignmentId, i: nat)
    requires |starts| == |ends| == |facts| && i + 1 < |facts|
  {
    Overnight(facts[i].table, ends[i], facts[i + 1].table, starts[i + 1], k, a)
  }

  ghost predicate Overnight(table: Table, log: seq<Reminder>, table': Table, log': seq<Reminder>, k: Key, a: AssignmentId) {
    exists gone: set<AssignmentId> :: Meanwhile(table, log, table', log', gone, k, a)
  }

  /**
   * On this day `a` is an eligible assignment with this due date, and the only one covering this learner, who is live and
   * outstanding, for this material, which is published. Nothing is said of other people's assignments.
   */
  ghost predicate Outstanding(f: Facts, k: Key, a: AssignmentId, due: Day) {
    && f.dir.Live(k.user) && k !in f.current && k.group in f.published
    && a in f.table && f.table[a].group == k.group && f.table[a].mandatory && f.table[a].autoReminders && f.table[a].due == Some(due)
    && forall b :: b in f.table && f.table[b].group == k.group && k.user in Targets(f.dir, f.table[b].target) <==> b == a
  }

  ghost predicate AlwaysOutstanding(facts: seq<Facts>, k: Key, a: AssignmentId, due: Day) {
    forall i :: 0 <= i < |facts| ==> Outstanding(facts[i], k, a, due)
  }

  lemma OutstandingOnCheckpoints(f: Facts, k: Key, a: AssignmentId, due: Day, today: Day)
    requires Outstanding(f, k, a, due)
    ensures k in ScheduledAudience(f, today) <==> ScheduledKind(due, today).Some?
  {
    hide ScheduledKind;
    assert k in AudienceOf(f, f.table[a]);
    if k in ScheduledAudience(f, today) {
      var b :| b in f.table && OnCheckpoint(f, f.table[b], today) && k in AudienceOf(f, f.table[b]);
      assert b == a;
    }
  }

  // --- What holds of the log all along ---------------------------------------------------------------------

  predicate NamesAssignments(log: seq<Reminder>, table: Table) {
    forall i :: 0 <= i < |log| ==> log[i].assignment in table
  }

  /** Every row about this learner and this material, of day `from` or later, belongs to `a`. */
  ghost predicate OnlyUnder(log: seq<Reminder>, table: Table, k: Key, a: AssignmentId, from: Day) {
    forall i, d: Day :: 0 <= i < |log| && from <= d && IsAbout(log[i], table, k, d) ==> log[i].assignment == a
  }

  ghost predicate NothingFrom(log: seq<Reminder>, table: Table, k: Key, from: Day) {
    forall d: Day :: from <= d ==> Count(log, table, k, d) == 0
  }

  /** After `n` days: one reminder for each checkpoint so far, all under `a`, and none of a later day. */
  ghost predicate Settled(log: seq<Reminder>, table: Table, k: Key, a: AssignmentId, due: Day, from: Day, n: nat) {
    && NamesAssignments(log, table)
    && OnlyUnder(log, table, k, a, from)
    && CountOver(log, table, k, from, n) == Checkpoints(due, from, n)
    && NothingFrom(log, table, k, from + n)
  }

  /** A log that counts none has none. */
  lemma {:induction false} NoneCounted(log: seq<Reminder>, table: Table, k: Key, d: Day)
    ensures Count(log, table, k, d) == 0 <==> forall i :: 0 <= i < |log| ==> !IsAbout(log[i], table, k, d)
  {
    hide IsAbout;
    if log != [] {
      NoneCounted(log[..|log| - 1], table, k, d);
      assert forall i :: 0 <= i < |log| - 1 ==> log[..|log| - 1][i] == log[i];
    }
  }

  lemma SettledAtFirst(log: seq<Reminder>, table: Table, k: Key, a: AssignmentId, due: Day, from: Day)
    requires NamesAssignments(log, table) && NothingFrom(log, table, k, from)
    ensures Settled(log, table, k, a, due, from, 0)
  {
    hide IsAbout, Count;
    forall i, d: Day | 0 <= i < |log| && from <= d ensures !IsAbout(log[i], table, k, d) {
      NoneCounted(log, table, k, d);
    }
  }

  /** The rows a run adds about an outstanding learner are under the one assignment that covers them. */
  lemma RunStaysUnder(f: Facts, start: seq<Reminder>, end: seq<Reminder>, k: Key, a: AssignmentId, due: Day, from: Day, today: Day)
    requires Outstanding(f, k, a, due) && Extends(f, start, end, today)
    requires NamesAssignments(start, f.table) && OnlyUnder(start, f.table, k, a, from)
    ensures NamesAssignments(end, f.table) && OnlyUnder(end, f.table, k, a, from)
  {
    hide Eligible, ScheduledKind;
    forall i | 0 <= i < |end|
      ensures end[i].assignment in f.table
      ensures forall d: Day :: from <= d && IsAbout(end[i], f.table, k, d) ==> end[i].assignment == a
    {
      if i < |start| {
        assert end[i] == start[i];
      } else {
        assert Warranted(f, end[i], today);
      }
    }
  }

  /** After the day's run, the day's own count is settled and the earlier days' counts are as they were. */
  lemma {:induction false} EarlierDaysStay(facts: Facts, before: seq<Reminder>, after: seq<Reminder>,
        audience: set<Key>, today: Day, k: Key, from: Day, n: nat)
    requires Accounts(facts.table, before, after, audience, today) && from + n <= today
    ensures CountOver(after, facts.table, k, from, n) == CountOver(before, facts.table, k, from, n)
  {
    hide Count;
    if n > 0 {
      EarlierDaysStay(facts, before, after, audience, today, k, from, n - 1);
    }
  }

  lemma DayIsSettled(f: Facts, start: seq<Reminder>, end: seq<Reminder>, k: Key, a: AssignmentId, due: Day, from: Day, n: nat)
    requires Outstanding(f, k, a, due) && Settled(start, f.table, k, a, due, from, n)
    requires Ran(f, start, end, ScheduledAudience(f, from + n), from + n)
    ensures Settled(end, f.table, k, a, due, from, n + 1)
  {
    hide Count, ScheduledAudience, ScheduledKind, Extends, Outstanding, OnlyUnder, NamesAssignments;
    var today := from + n;
    RunStaysUnder(f, start, end, k, a, due, from, today);
    OutstandingOnCheckpoints(f, k, a, due, today);
    EarlierDaysStay(f, start, end, ScheduledAudience(f, today), today, k, from, n);
    assert Count(start, f.table, k, today) == 0;
  }

  // --- Over a night ----------------------------------------------------------------------------------------

  /** Rows about others count for nothing here. */
  lemma {:induction false} OthersCountNothing(log: seq<Reminder>, log': seq<Reminder>, table: Table, k: Key, d: Day)
    requires log <= log' && forall i :: |log| <= i < |log'| ==> AboutOthers(log'[i], table, k)
    ensures Count(log', table, k, d) == Count(log, table, k, d)
    decreases |log'|
  {
    if |log'| > |log| {
      var front := log'[..|log'| - 1];
      assert log <= front && forall i :: |log| <= i < |front| ==> front[i] == log'[i];
      OthersCountNothing(log, front, table, k, d);
    } else {
      assert log' == log;
    }
  }

  lemma NightKeepsCounts(table: Table, log: seq<Reminder>, table': Table, log': seq<Reminder>, gone: set<AssignmentId>,
        k: Key, a: AssignmentId, from: Day, d: Day)
    requires Meanwhile(table, log, table', log', gone, k, a)
    requires NamesAssignments(log, table) && OnlyUnder(log, table, k, a, from) && from <= d
    ensures Count(log', table', k, d) == Count(log, table, k, d)
  {
    hide Count, IsAbout;
    var kept := Cascaded(log, gone);
    CascadedCounts(log, gone, table, k, d);
    CascadedAreOthers(log, gone);
    AddingKeepsCounts(kept, table - gone, table, k, d);
    AddingKeepsCounts(kept, table - gone, table', k, d);
    OthersCountNothing(kept, log', table', k, d);
  }

  lemma {:induction false} NightKeepsCountOver(table: Table, log: seq<Reminder>, table': Table, log': seq<Reminder>, gone: set<AssignmentId>,
        k: Key, a: AssignmentId, from: Day, n: nat)
    requires Meanwhile(table, log, table', log', gone, k, a)
    requires NamesAssignments(log, table) && OnlyUnder(log, table, k, a, from)
    ensures CountOver(log', table', k, from, n) == CountOver(log, table, k, from, n)
  {
    hide Count, Meanwhile, OnlyUnder, NamesAssignments;
    if n > 0 {
      NightKeepsCountOver(table, log, table', log', gone, k, a, from, n - 1);
      NightKeepsCounts(table, log, table', log', gone, k, a, from, from + n - 1);
    }
  }

  lemma NightStaysUnder(table: Table, log: seq<Reminder>, table': Table, log': seq<Reminder>, gone: set<AssignmentId>,
        k: Key, a: AssignmentId, from: Day)
    requires Meanwhile(table, log, table', log', gone, k, a)
    requires NamesAssignments(log, table) && OnlyUnder(log, table, k, a, from)
    ensures NamesAssignments(log', table') && OnlyUnder(log', table', k, a, from)
  {
    var kept := Cascaded(log, gone);
    CascadedAreOthers(log, gone);
    forall i | 0 <= i < |log'|
      ensures log'[i].assignment in table'
      ensures forall d: Day :: from <= d && IsAbout(log'[i], table', k, d) ==> log'[i].assignment == a
    {
      if i < |kept| {
        assert log'[i] == kept[i];
        var j :| 0 <= j < |log| && log[j] == kept[i];
        assert log[j].assignment in table - gone;
        forall d: Day | from <= d && IsAbout(log'[i], table', k, d) ensures log'[i].assignment == a {
          assert IsAbout(log[j], table, k, d);
        }
      } else {
        assert AboutOthers(log'[i], table', k);
      }
    }
  }

  lemma NightIsSettled(table: Table, log: seq<Reminder>, table': Table, log': seq<Reminder>, gone: set<AssignmentId>,
        k: Key, a: AssignmentId, due: Day, from: Day, n: nat)
    requires Meanwhile(table, log, table', log', gone, k, a) && Settled(log, table, k, a, due, from, n)
    ensures Settled(log', table', k, a, due, from, n)
  {
    hide Count, Meanwhile, OnlyUnder, NamesAssignments;
    NightStaysUnder(table, log, table', log', gone, k, a, from);
    NightKeepsCountOver(table, log, table', log', gone, k, a, from, n);
    forall d: Day | from + n <= d ensures Count(log', table', k, d) == 0 {
      NightKeepsCounts(table, log, table', log', gone, k, a, from, d);
    }
  }

  /**
   * Daily runs remind an always outstanding learner, covered by one assignment and never nudged about it, on exactly the
   * checkpoint days, whatever else is assigned, withdrawn or nudged on the platform meanwhile.
   */
  lemma {:induction false} RemindedOnEveryCheckpoint(facts: seq<Facts>, starts: seq<seq<Reminder>>, ends: seq<seq<Reminder>>,
        from: Day, k: Key, a: AssignmentId, due: Day, i: nat)
    requires DailyRuns(facts, starts, ends, from) && Nights(facts, starts, ends, k, a) && AlwaysOutstanding(facts, k, a, due)
    requires i < |facts| && NamesAssignments(starts[0], facts[0].table) && NothingFrom(starts[0], facts[0].table, k, from)
    ensures Settled(ends[i], facts[i].table, k, a, due, from, i + 1)
  {
    hide Settled, Outstanding, Ran, Meanwhile, NothingFrom, NamesAssignments, ScheduledAudience;
    if i == 0 {
      SettledAtFirst(starts[0], facts[0].table, k, a, due, from);
    } else {
      RemindedOnEveryCheckpoint(facts, starts, ends, from, k, a, due, i - 1);
      assert Night(facts, starts, ends, k, a, i - 1);
      var gone: set<AssignmentId> :| Meanwhile(facts[i - 1].table, ends[i - 1], facts[i].table, starts[i], gone, k, a);
      NightIsSettled(facts[i - 1].table, ends[i - 1], facts[i].table, starts[i], gone, k, a, due, from, i);
    }
    DayIsSettled(facts[i], starts[i], ends[i], k, a, due, from, i);
  }

  /** Three reminders by the due date, and one more for every full week it stays overdue: 3 + k by day `due + 7k`. */
  lemma CadenceIsExact(facts: seq<Facts>, starts: seq<seq<Reminder>>, ends: seq<seq<Reminder>>,
        from: Day, k: Key, a: AssignmentId, due: Day, weeks: nat)
    requires DailyRuns(facts, starts, ends, from) && Nights(facts, starts, ends, k, a) && AlwaysOutstanding(facts, k, a, due)
    requires from <= due - 7 && from + |facts| - 1 == due + 7 * weeks
    requires NamesAssignments(starts[0], facts[0].table) && NothingFrom(starts[0], facts[0].table, k, from)
    ensures CountOver(ends[|facts| - 1], facts[|facts| - 1].table, k, from, |facts|) == 3 + weeks
  {
    hide Count, ScheduledKind, Nights, DailyRuns, AlwaysOutstanding, NamesAssignments, NothingFrom, OnlyUnder;
    assert |facts| > 0;
    RemindedOnEveryCheckpoint(facts, starts, ends, from, k, a, due, |facts| - 1);
    CadenceInClosedForm(due, from, |facts|);
  }
}
