/** The daily cadence and the manual nudge, and the cap of one reminder per learner, material and day they share. */
module Reminders {
  import opened Common
  import opened Domain
  import opened Assigning

  datatype Kind = Advance7 | Advance1 | Due | OverdueWeekly | Manual

  /** A row of `module_reminders`; `day` is the day whose window contains `sent_at`. */
  datatype Reminder = Reminder(assignment: AssignmentId, user: UserId, kind: Kind, day: Day)

  /** What a run reads: people, assignments, who is currently completed, and which material has a published variant. */
  datatype Facts = Facts(dir: Directory, table: Table, current: set<Key>, published: set<GroupId>)

  /** Python's `%` on a negative difference is non-negative, as Dafny's is. */
  function ScheduledKind(due: Day, today: Day): Option<Kind> {
    var delta := due - today;
    if delta == 7 then Some(Advance7)
    else if delta == 1 then Some(Advance1)
    else if delta == 0 then Some(Due)
    else if delta < 0 && delta % 7 == 0 then Some(OverdueWeekly)
    else None
  }

  predicate Eligible(a: Assignment) {
    a.mandatory && a.autoReminders && a.due.Some?
  }

  // --- The log ---------------------------------------------------------------------------------

  /** Joined through its assignment, is this row a reminder of this learner about this material on this day? */
  predicate IsAbout(r: Reminder, table: Table, k: Key, day: Day) {
    r.assignment in table && table[r.assignment].group == k.group && r.user == k.user && r.day == day
  }

  function Count(log: seq<Reminder>, table: Table, k: Key, day: Day): nat {
    if log == [] then 0
    else Count(log[..|log| - 1], table, k, day) + if IsAbout(log[|log| - 1], table, k, day) then 1 else 0
  }

  lemma CountAfter(log: seq<Reminder>, r: Reminder, table: Table, k: Key, day: Day)
    ensures Count(log + [r], table, k, day) == Count(log, table, k, day) + if IsAbout(r, table, k, day) then 1 else 0
  {
    assert (log + [r])[..|log|] == log;
  }

  /** Under the cap: a learner already reminded stays as they are, one in the audience gets exactly one, anybody else none. */
  function Capped(before: nat, reached: bool): nat {
    if before > 0 then before else if reached then 1 else 0
  }

  /** Every learner of the audience, and nobody else, has been brought to at least one row today; no other day is touched. */
  ghost predicate Accounts(table: Table, before: seq<Reminder>, after: seq<Reminder>, audience: set<Key>, today: Day) {
    forall k: Key, d: Day ::
        Count(after, table, k, d) ==
        if d == today then Capped(Count(before, table, k, d), k in audience) else Count(before, table, k, d)
  }

  lemma AccountsCompose(table: Table, a: seq<Reminder>, b: seq<Reminder>, c: seq<Reminder>, reached: set<Key>, more: set<Key>, today: Day)
    requires Accounts(table, a, b, reached, today) && Accounts(table, b, c, more, today)
    ensures Accounts(table, a, c, reached + more, today)
  {
    hide Count;
  }

  // --- Who a run is for --------------------------------------------------------------------------

  /** The live learners an assignment targets who are not currently completed. */
  function AudienceOf(facts: Facts, a: Assignment): set<Key> {
    set u | u in Targets(facts.dir, a.target) && facts.dir.Live(u) && Key(u, a.group) !in facts.current :: Key(u, a.group)
  }

  predicate OnCheckpoint(facts: Facts, a: Assignment, today: Day) {
    Eligible(a) && ScheduledKind(a.due.value, today).Some? && a.group in facts.published
  }

  /** Everyone with an eligible assignment on a checkpoint today, over all assignments at once. */
  function ScheduledAudience(facts: Facts, today: Day): set<Key> {
    set a, k | a in facts.table && OnCheckpoint(facts, facts.table[a], today) && k in AudienceOf(facts, facts.table[a]) :: k
  }

  /** Everyone a nudge about this material is for: the same assignments, without the calendar. */
  function NudgeAudience(facts: Facts, g: GroupId): set<Key> {
    if g !in facts.published then {}
    else set a, k | a in facts.table && Eligible(facts.table[a]) && facts.table[a].group == g && k in AudienceOf(facts, facts.table[a]) :: k
  }

  /** A row a run may add: today's, about somebody in the audience of the assignment it names, of the kind the calendar gives. */
  predicate Warranted(facts: Facts, r: Reminder, today: Day) {
    && r.day == today
    && r.assignment in facts.table
    && Eligible(facts.table[r.assignment])
    && facts.table[r.assignment].group in facts.published
    && Key(r.user, facts.table[r.assignment].group) in AudienceOf(facts, facts.table[r.assignment])
    && (r.kind == Manual || Some(r.kind) == ScheduledKind(facts.table[r.assignment].due.value, today))
  }

  /** Is `a` mandatory, due some day and not muted, and does it name this live learner, who has not completed its published material? */
  predicate Obliges(facts: Facts, a: Assignment, u: UserId) {
    && a.mandatory && a.autoReminders && a.due.Some?
    && u in facts.dir.users && !facts.dir.users[u].disabled && !facts.dir.users[u].erased
    && (a.target == ToUser(u) || (a.target.ToTeam? && a.target.team in facts.dir.users[u].teams))
    && Key(u, a.group) !in facts.current && a.group in facts.published
  }

  /** How the day stands to the due date in a reminder of this kind. */
  predicate SuitsTheDay(kind: Kind, due: Day, today: Day) {
    match kind
    case Advance7 => today == due - 7
    case Advance1 => today == due - 1
    case Due => today == due
    case OverdueWeekly => today > due && (today - due) % 7 == 0
    case Manual => true
  }

  /** A week ahead, a day ahead, on the day, and every full week after it. */
  predicate IsCheckpoint(due: Day, today: Day) {
    today == due - 7 || today == due - 1 || today == due || (today > due && (today - due) % 7 == 0)
  }

  /** A row of today, sent to somebody its assignment obliges, on a day its kind is for. */
  predicate IsProper(facts: Facts, r: Reminder, today: Day) {
    && r.day == today && r.assignment in facts.table
    && Obliges(facts, facts.table[r.assignment], r.user)
    && SuitsTheDay(r.kind, facts.table[r.assignment].due.value, today)
  }

  lemma WarrantedIsProper(facts: Facts, r: Reminder, today: Day)
    requires Warranted(facts, r, today)
    ensures IsProper(facts, r, today)
  {
    var due := facts.table[r.assignment].due.value;
    assert (due - today) % 7 == 0 <==> (today - due) % 7 == 0 by { SevensBothWays(due - today); }
  }

  lemma SevensBothWays(n: int)
    ensures n % 7 == 0 <==> (-n) % 7 == 0
  {
  }

  /** The kind follows from the day, and there is one exactly on the checkpoints. */
  lemma KindIsOfTheDay(due: Day, today: Day)
    ensures forall kind :: kind != Manual ==> (ScheduledKind(due, today) == Some(kind) <==> SuitsTheDay(kind, due, today))
    ensures ScheduledKind(due, today) != Some(Manual)
    ensures ScheduledKind(due, today).Some? <==> IsCheckpoint(due, today)
  {
    SevensBothWays(due - today);
  }

  /** A run adds proper rows and nothing else. */
  lemma RunsAddProperRows(facts: Facts, before: seq<Reminder>, after: seq<Reminder>, audience: set<Key>, today: Day, i: nat)
    requires Ran(facts, before, after, audience, today) && |before| <= i < |after|
    ensures IsProper(facts, after[i], today)
  {
    hide Accounts, Warranted, IsProper;
    WarrantedIsProper(facts, after[i], today);
  }

  /** The log has only grown, and only by warranted rows. */
  ghost predicate Extends(facts: Facts, before: seq<Reminder>, after: seq<Reminder>, today: Day) {
    before <= after && forall i :: |before| <= i < |after| ==> Warranted(facts, after[i], today)
  }

  /** What a run over `audience` does to the log, whatever order it visits assignments and members in. */
  ghost predicate Ran(facts: Facts, before: seq<Reminder>, after: seq<Reminder>, audience: set<Key>, today: Day) {
    Accounts(facts.table, before, after, audience, today) && Extends(facts, before, after, today)
  }

  // --- Visiting members in a given order, with nothing but the cap ------------------------------------

  /** Is this learner owed a reminder about assignment `a`, by the log alone? */
  predicate Owed(facts: Facts, a: AssignmentId, u: UserId, log: seq<Reminder>, today: Day)
    requires a in facts.table
  {
    var k := Key(u, facts.table[a].group);
    facts.dir.Live(u) && k !in facts.current && Count(log, facts.table, k, today) == 0
  }

  /** The log after these members of one assignment have been visited in this order. */
  function Visited(facts: Facts, a: AssignmentId, kind: Kind, order: seq<UserId>, log: seq<Reminder>, today: Day): seq<Reminder>
    requires a in facts.table
  {
    if order == [] then log
    else
      var before, u := Visited(facts, a, kind, order[..|order| - 1], log, today), order[|order| - 1];
      if Owed(facts, a, u, before, today) then before + [Reminder(a, u, kind, today)] else before
  }

  /** The same over several assignments in turn, each with the order its members were visited in. */
  function VisitedInTurn(facts: Facts, rows: seq<AssignmentId>, orders: seq<seq<UserId>>, kind: Kind,
        log: seq<Reminder>, today: Day): seq<Reminder>
    requires |orders| == |rows| && forall a :: a in rows ==> a in facts.table
  {
    if rows == [] then log
    else
      var n := |rows| - 1;
      Visited(facts, rows[n], kind, orders[n], VisitedInTurn(facts, rows[..n], orders[..n], kind, log, today), today)
  }

  lemma NoneInTurn(facts: Facts, kind: Kind, log: seq<Reminder>, today: Day)
    ensures VisitedInTurn(facts, [], [], kind, log, today) == log
  {
  }

  lemma OneMoreInTurn(facts: Facts, rows: seq<AssignmentId>, a: AssignmentId, orders: seq<seq<UserId>>, order: seq<UserId>,
        kind: Kind, log: seq<Reminder>, today: Day)
    requires |orders| == |rows| && forall b :: b in rows + [a] ==> b in facts.table
    ensures VisitedInTurn(facts, rows + [a], orders + [order], kind, log, today) ==
            Visited(facts, a, kind, order, VisitedInTurn(facts, rows, orders, kind, log, today), today)
  {
    hide Visited;
    assert (rows + [a])[..|rows|] == rows && (orders + [order])[..|rows|] == orders;
  }

  lemma OneMoreVisited(facts: Facts, a: AssignmentId, kind: Kind, order: seq<UserId>, u: UserId, log: seq<Reminder>, today: Day)
    requires a in facts.table
    ensures var before := Visited(facts, a, kind, order, log, today);
            Visited(facts, a, kind, order + [u], log, today) ==
            if Owed(facts, a, u, before, today) then before + [Reminder(a, u, kind, today)] else before
  {
    hide Owed;
    assert (order + [u])[..|order|] == order;
  }

  // --- The two paths, as nested loops over the log ---------------------------------------------------

  class ReminderLog {
    var log: seq<Reminder>
    var nudges: seq<(GroupId, Day)>

    /** Is there any row, of whatever kind and under whichever assignment, about this learner, this material and today? */
    method AlreadyRemindedToday(facts: Facts, k: Key, today: Day) returns (already: bool)
      ensures already <==> exists i :: 0 <= i < |log| && IsAbout(log[i], facts.table, k, today)
      ensures already <==> Count(log, facts.table, k, today) > 0
    {
      hide IsAbout;
      var count := 0;
      for i := 0 to |log|
        invariant count == Count(log[..i], facts.table, k, today)
        invariant count > 0 <==> exists j :: 0 <= j < i && IsAbout(log[j], facts.table, k, today)
      {
        assert log[..i + 1][..i] == log[..i];
        if IsAbout(log[i], facts.table, k, today) {
          count := count + 1;
        }
      }
      assert log[..|log|] == log;
      already := count != 0;
    }

    /** The inner loop: one assignment's members, each checked against the cap and reminded at most once. */
    method RemindMembers(facts: Facts, a: AssignmentId, kind: Kind, today: Day) returns (sent: nat, order: seq<UserId>)
      requires a in facts.table && Eligible(facts.table[a]) && facts.table[a].group in facts.published
      requires kind == Manual || Some(kind) == ScheduledKind(facts.table[a].due.value, today)
      modifies this`log
      ensures Ran(facts, old(log), log, AudienceOf(facts, facts.table[a]), today)
      ensures log == Visited(facts, a, kind, order, old(log), today)
      ensures Visits(facts, a, order)
      ensures |log| == |old(log)| + sent
      ensures AddsOnly(old(log), log, kind)
    {
      hide Count, ScheduledKind, Visited;
      sent, order := 0, [];
      NoneVisited(facts, a, kind, log, today);
      var g := facts.table[a].group;
      ghost var reached: set<Key> := {};
      var members := Targets(facts.dir, facts.table[a].target);
      var unseen := members;
      while unseen != {}
        invariant unseen <= members
        invariant reached == set u | u in members && u !in unseen && facts.dir.Live(u) && Key(u, g) !in facts.current :: Key(u, g)
        invariant Ran(facts, old(log), log, reached, today)
        invariant log == Visited(facts, a, kind, order, old(log), today)
        invariant NoDuplicates(order) && forall u :: u in order <==> u in members && u !in unseen
        invariant |log| == |old(log)| + sent
        invariant AddsOnly(old(log), log, kind)
        decreases |unseen|
      {
        var learner :| learner in unseen;
        ghost var met := reached;
        unseen := unseen - {learner};
        OneMoreVisited(facts, a, kind, order, learner, old(log), today);
        order := order + [learner];
        if !facts.dir.Live(learner) {
          continue;
        }
        if Key(learner, g) in facts.current {
          continue;
        }
        reached := reached + {Key(learner, g)};
        var already := AlreadyRemindedToday(facts, Key(learner, g), today);
        if already {
          AlreadyCounted(facts, old(log), log, met, Key(learner, g), today);
          continue;
        }
        OneMoreCounted(facts, old(log), log, met, Reminder(a, learner, kind, today), today);
        log := log + [Reminder(a, learner, kind, today)];
        sent := sent + 1;
      }
      assert reached == AudienceOf(facts, facts.table[a]);
    }

    /** The daily job; `rows` are the eligible assignments in whatever order the query returned them. */
    method RunScheduledReminders(facts: Facts, rows: seq<AssignmentId>, today: Day) returns (sent: nat)
      requires forall a :: a in rows <==> a in facts.table && Eligible(facts.table[a])
      modifies this`log
      ensures Ran(facts, old(log), log, ScheduledAudience(facts, today), today)
      ensures |log| == |old(log)| + sent
      ensures forall i :: |old(log)| <= i < |log| ==> IsProper(facts, log[i], today) && log[i].kind != Manual
    {
      hide Count, ScheduledKind, Accounts, Extends, AudienceOf, IsProper;
      sent := 0;
      ghost var reached: set<Key> := {};
      NothingRan(facts, log, today);
      for i := 0 to |rows|
        invariant forall k :: k in reached <==>
            exists j :: 0 <= j < i && OnCheckpoint(facts, facts.table[rows[j]], today) && k in AudienceOf(facts, facts.table[rows[j]])
        invariant Ran(facts, old(log), log, reached, today)
        invariant |log| == |old(log)| + sent
        invariant forall j :: |old(log)| <= j < |log| ==> log[j].kind != Manual
      {
        assert rows[i] in rows;
        var a := facts.table[rows[i]];
        var kind := ScheduledKind(a.due.value, today);
        if kind.None? {
          continue;
        }
        if a.group !in facts.published {
          continue;
        }
        ghost var before := log;
        var more, order := RemindMembers(facts, rows[i], kind.value, today);
        RunsCompose(facts, old(log), before, log, reached, AudienceOf(facts, a), today);
        KindIsOfTheDay(a.due.value, today);
        reached := reached + AudienceOf(facts, a);
        sent := sent + more;
      }
      assert reached == ScheduledAudience(facts, today) by {
        ReachedIsTheAudience(facts, rows, reached, today);
      }
      forall i | |old(log)| <= i < |log| ensures IsProper(facts, log[i], today) {
        RunsAddProperRows(facts, old(log), log, reached, today, i);
      }
    }

    /**
     * The manual path also keeps a set of learners already reminded and skips them first. The log it comes to is the one the
     * cap alone gives over the same order of visits.
     */
    method NudgeMembers(facts: Facts, a: AssignmentId, today: Day, before: set<UserId>)
      returns (sent: nat, alreadyReminded: set<UserId>, order: seq<UserId>)
      requires a in facts.table && Eligible(facts.table[a]) && facts.table[a].group in facts.published
      requires forall u :: u in before ==> Count(log, facts.table, Key(u, facts.table[a].group), today) > 0
      modifies this`log
      ensures Ran(facts, old(log), log, AudienceOf(facts, facts.table[a]), today)
      ensures log == Visited(facts, a, Manual, order, old(log), today)
      ensures Visits(facts, a, order)
      ensures forall u :: u in alreadyReminded ==> Count(log, facts.table, Key(u, facts.table[a].group), today) > 0
      ensures |log| == |old(log)| + sent
      ensures AddsOnly(old(log), log, Manual)
    {
      hide Count, ScheduledKind, Visited;
      sent, order := 0, [];
      alreadyReminded := before;
      NoneVisited(facts, a, Manual, log, today);
      var g := facts.table[a].group;
      ghost var reached: set<Key> := {};
      var members := Targets(facts.dir, facts.table[a].target);
      var unseen := members;
      while unseen != {}
        invariant unseen <= members
        invariant reached == set u | u in members && u !in unseen && facts.dir.Live(u) && Key(u, g) !in facts.current :: Key(u, g)
        invariant Ran(facts, old(log), log, reached, today)
        invariant log == Visited(facts, a, Manual, order, old(log), today)
        invariant NoDuplicates(order) && forall u :: u in order <==> u in members && u !in unseen
        invariant forall u :: u in alreadyReminded ==> Count(log, facts.table, Key(u, g), today) > 0
        invariant |log| == |old(log)| + sent
        invariant AddsOnly(old(log), log, Manual)
        decreases |unseen|
      {
        var learner :| learner in unseen;
        ghost var met := reached;
        unseen := unseen - {learner};
        OneMoreVisited(facts, a, Manual, order, learner, old(log), today);
        order := order + [learner];
        if facts.dir.Live(learner) && Key(learner, g) !in facts.current {
          reached := reached + {Key(learner, g)};
        }
        if learner in alreadyReminded {
          if facts.dir.Live(learner) && Key(learner, g) !in facts.current {
            AlreadyCounted(facts, old(log), log, met, Key(learner, g), today);
          }
          continue;
        }
        if !facts.dir.Live(learner) {
          continue;
        }
        if Key(learner, g) in facts.current {
          continue;
        }
        var already := AlreadyRemindedToday(facts, Key(learner, g), today);
        if already {
          AlreadyCounted(facts, old(log), log, met, Key(learner, g), today);
          continue;
        }
        var row := Reminder(a, learner, Manual, today);
        OneMoreCounted(facts, old(log), log, met, row, today);
        StillCounted(facts.table, log, row, alreadyReminded, g, today);
        log := log + [row];
        alreadyReminded := alreadyReminded + {learner};
        sent := sent + 1;
      }
      assert reached == AudienceOf(facts, facts.table[a]);
    }

    /** Every eligible assignment of the material in turn, under one set of learners already reminded that changes nothing. */
    method SendManualReminders(facts: Facts, rows: seq<AssignmentId>, g: GroupId, today: Day) returns (sent: nat, orders: seq<seq<UserId>>)
      requires forall a :: a in rows <==> a in facts.table && Eligible(facts.table[a]) && facts.table[a].group == g
      modifies this`log
      ensures Ran(facts, old(log), log, NudgeAudience(facts, g), today)
      ensures g in facts.published ==> |orders| == |rows| && log == VisitedInTurn(facts, rows, orders, Manual, old(log), today)
      ensures g in facts.published ==> forall i :: 0 <= i < |rows| ==> Visits(facts, rows[i], orders[i])
      ensures |log| == |old(log)| + sent
      ensures AddsOnly(old(log), log, Manual)
    {
      hide Count, ScheduledKind, Accounts, Extends, AudienceOf, Visited, VisitedInTurn, Visits;
      sent, orders := 0, [];
      NoneInTurn(facts, Manual, log, today);
      NothingRan(facts, log, today);
      if g !in facts.published {
        return;
      }
      var alreadyReminded: set<UserId> := {};
      ghost var reached: set<Key> := {};
      for i := 0 to |rows|
        invariant forall k :: k in reached <==> exists j :: 0 <= j < i && k in AudienceOf(facts, facts.table[rows[j]])
        invariant Ran(facts, old(log), log, reached, today)
        invariant forall u :: u in alreadyReminded ==> Count(log, facts.table, Key(u, g), today) > 0
        invariant |orders| == i && (forall j :: 0 <= j < i ==> Visits(facts, rows[j], orders[j]))
        invariant forall a :: a in rows[..i] ==> a in facts.table
        invariant log == VisitedInTurn(facts, rows[..i], orders, Manual, old(log), today)
        invariant |log| == |old(log)| + sent
        invariant AddsOnly(old(log), log, Manual)
      {
        assert rows[i] in rows;
        ghost var before := log;
        var more, known, order := NudgeMembers(facts, rows[i], today, alreadyReminded);
        OneMoreInTurn(facts, rows[..i], rows[i], orders, order, Manual, old(log), today);
        assert rows[..i + 1] == rows[..i] + [rows[i]];
        orders := orders + [order];
        RunsCompose(facts, old(log), before, log, reached, AudienceOf(facts, facts.table[rows[i]]), today);
        reached := reached + AudienceOf(facts, facts.table[rows[i]]);
        alreadyReminded := known;
        sent := sent + more;
      }
      assert rows[..|rows|] == rows;
      assert reached == NudgeAudience(facts, g) by {
        ReachedIsTheNudgeAudience(facts, rows, reached, g);
      }
    }

    /** The route: once per material and day, counted by calls rather than by mails. */
    method RemindOutstandingLearners(facts: Facts, rows: seq<AssignmentId>, g: GroupId, today: Day) returns (sent: Option<nat>)
      requires forall a :: a in rows <==> a in facts.table && Eligible(facts.table[a]) && facts.table[a].group == g
      modifies this
      ensures sent.None? <==> (g, today) in old(nudges)
      ensures sent.None? ==> log == old(log) && nudges == old(nudges)
      ensures sent.Some? ==> Ran(facts, old(log), log, NudgeAudience(facts, g), today) && nudges == old(nudges) + [(g, today)]
      ensures sent.Some? ==> |log| == |old(log)| + sent.value
      ensures AddsOnly(old(log), log, Manual) && forall i :: |old(log)| <= i < |log| ==> IsProper(facts, log[i], today)
    {
      hide Accounts, IsProper;
      if (g, today) in nudges {
        return None;
      }
      var count, orders := SendManualReminders(facts, rows, g, today);
      forall i | |old(log)| <= i < |log| ensures IsProper(facts, log[i], today) {
        RunsAddProperRows(facts, old(log), log, NudgeAudience(facts, g), today, i);
      }
      nudges := nudges + [(g, today)];
      return Some(count);
    }
  }

  /** The log has only grown, and only by rows of this kind. */
  predicate AddsOnly(before: seq<Reminder>, after: seq<Reminder>, kind: Kind) {
    before <= after && forall i :: |before| <= i < |after| ==> after[i].kind == kind
  }

  /** Every member of the assignment's target, once. */
  ghost predicate Visits(facts: Facts, a: AssignmentId, order: seq<UserId>) {
    a in facts.table && NoDuplicates(order) && forall u :: u in order <==> u in Targets(facts.dir, facts.table[a].target)
  }

  lemma NoneVisited(facts: Facts, a: AssignmentId, kind: Kind, log: seq<Reminder>, today: Day)
    requires a in facts.table
    ensures Visited(facts, a, kind, [], log, today) == log
  {
  }

  // --- One visit at a time -----------------------------------------------------------------------------

  lemma NothingRan(facts: Facts, log: seq<Reminder>, today: Day)
    ensures Ran(facts, log, log, {}, today)
  {
  }

  lemma RunsCompose(facts: Facts, a: seq<Reminder>, b: seq<Reminder>, c: seq<Reminder>, reached: set<Key>, more: set<Key>, today: Day)
    requires Ran(facts, a, b, reached, today) && Ran(facts, b, c, more, today)
    ensures Ran(facts, a, c, reached + more, today)
  {
    hide Warranted, Accounts;
    AccountsCompose(facts.table, a, b, c, reached, more, today);
    forall i | |a| <= i < |c| ensures Warranted(facts, c[i], today) {
      if i < |b| {
        assert c[i] == b[i];
      }
    }
  }

  lemma AlreadyCounted(facts: Facts, before: seq<Reminder>, log: seq<Reminder>, reached: set<Key>, k: Key, today: Day)
    requires Ran(facts, before, log, reached, today) && Count(log, facts.table, k, today) > 0
    ensures Ran(facts, before, log, reached + {k}, today)
  {
    hide Count;
  }

  lemma OneMoreCounted(facts: Facts, before: seq<Reminder>, log: seq<Reminder>, reached: set<Key>, r: Reminder, today: Day)
    requires Ran(facts, before, log, reached, today) && Warranted(facts, r, today)
    requires Count(log, facts.table, Key(r.user, facts.table[r.assignment].group), today) == 0
    ensures Ran(facts, before, log + [r], reached + {Key(r.user, facts.table[r.assignment].group)}, today)
  {
    hide Count, Warranted;
    WarrantedIsToday(facts, r, today);
    var k0 := Key(r.user, facts.table[r.assignment].group);
    forall k: Key, d: Day
      ensures Count(log + [r], facts.table, k, d) ==
              if d == today then Capped(Count(before, facts.table, k, d), k in reached + {k0}) else Count(before, facts.table, k, d)
    {
      CountAfter(log, r, facts.table, k, d);
    }
    assert forall i :: |before| <= i < |log + [r]| ==> Warranted(facts, (log + [r])[i], today);
  }

  lemma WarrantedIsToday(facts: Facts, r: Reminder, today: Day)
    requires Warranted(facts, r, today)
    ensures r.day == today && r.assignment in facts.table
  {
  }

  lemma StillCounted(table: Table, log: seq<Reminder>, r: Reminder, users: set<UserId>, g: GroupId, today: Day)
    requires r.assignment in table && table[r.assignment].group == g && r.day == today
    requires forall u :: u in users ==> Count(log, table, Key(u, g), today) > 0
    ensures forall u :: u in users + {r.user} ==> Count(log + [r], table, Key(u, g), today) > 0
  {
    forall u | u in users + {r.user} ensures Count(log + [r], table, Key(u, g), today) > 0 {
      CountAfter(log, r, table, Key(u, g), today);
    }
  }

  lemma ReachedIsTheAudience(facts: Facts, rows: seq<AssignmentId>, reached: set<Key>, today: Day)
    requires forall a :: a in rows <==> a in facts.table && Eligible(facts.table[a])
    requires forall k :: k in reached <==>
        exists j :: 0 <= j < |rows| && OnCheckpoint(facts, facts.table[rows[j]], today) && k in AudienceOf(facts, facts.table[rows[j]])
    ensures reached == ScheduledAudience(facts, today)
  {
    hide AudienceOf, ScheduledKind;
    forall k | k in ScheduledAudience(facts, today) ensures k in reached {
      var a :| a in facts.table && OnCheckpoint(facts, facts.table[a], today) && k in AudienceOf(facts, facts.table[a]);
      assert a in rows;
      var j :| 0 <= j < |rows| && rows[j] == a;
    }
    forall k | k in reached ensures k in ScheduledAudience(facts, today) {
      var j :| 0 <= j < |rows| && OnCheckpoint(facts, facts.table[rows[j]], today) && k in AudienceOf(facts, facts.table[rows[j]]);
      assert rows[j] in rows;
    }
  }

  lemma ReachedIsTheNudgeAudience(facts: Facts, rows: seq<AssignmentId>, reached: set<Key>, g: GroupId)
    requires g in facts.published
    requires forall a :: a in rows <==> a in facts.table && Eligible(facts.table[a]) && facts.table[a].group == g
    requires forall k :: k in reached <==> exists j :: 0 <= j < |rows| && k in AudienceOf(facts, facts.table[rows[j]])
    ensures reached == NudgeAudience(facts, g)
  {
    hide AudienceOf;
    forall k | k in NudgeAudience(facts, g) ensures k in reached {
      var a :| a in facts.table && Eligible(facts.table[a]) && facts.table[a].group == g && k in AudienceOf(facts, facts.table[a]);
      assert a in rows;
      var j :| 0 <= j < |rows| && rows[j] == a;
    }
    forall k | k in reached ensures k in NudgeAudience(facts, g) {
      var j :| 0 <= j < |rows| && k in AudienceOf(facts, facts.table[rows[j]]);
      assert rows[j] in rows;
    }
  }
}
