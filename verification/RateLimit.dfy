/** The sliding-window limiter that the login and the two-factor step share. */
module RateLimit {
  import opened Common

  const MAX_ATTEMPTS: nat := 10
  const WINDOW: nat := 15 * 60  // seconds

  datatype Row = Row(email: string, ip: string, at: int)

  /**
   * One request to either endpoint: the address as typed, the client, when the limiter looked at the clock, when the
   * database says the transaction began, which is what a recorded row carries, and whether the secret was right.
   */
  datatype Attempt = Attempt(email: string, ip: string, checked: int, stamped: int, correct: bool)

  datatype Response = Admitted | Unauthorized | TooManyRequests

  function Normalize(email: string): string {
    Lower(Strip(email))
  }

  /** The same letter, in either case. */
  predicate SameLetter(c: char, d: char) {
    c == d || ('A' <= c <= 'Z' && d as int == c as int + 32) || ('A' <= d <= 'Z' && c as int == d as int + 32)
  }

  predicate SameLetters(s: string, t: string) {
    |s| == |t| && forall i :: 0 <= i < |s| ==> SameLetter(s[i], t[i])
  }

  /** The same address, typed with other letter case or other white space around it. */
  ghost predicate SameAddress(email: string, other: string) {
    exists core, core' :: IsAround(email, core) && IsAround(other, core') && SameLetters(core, core')
  }

  lemma SameLetterIff(c: char, d: char)
    ensures LowerChar(c) == LowerChar(d) <==> SameLetter(c, d)
  {
  }

  lemma SameLettersIff(s: string, t: string)
    ensures Lower(s) == Lower(t) <==> SameLetters(s, t)
  {
    hide LowerChar, SameLetter, Lower;
    if |s| == |t| {
      forall i | 0 <= i < |s| ensures Lower(s)[i] == Lower(t)[i] <==> SameLetter(s[i], t[i]) {
        SameLetterIff(s[i], t[i]);
      }
    }
  }

  /** Two addresses are counted as one exactly when they are the same but for letter case and surrounding white space. */
  lemma CountedAsOneIff(email: string, other: string)
    ensures Normalize(email) == Normalize(other) <==> SameAddress(email, other)
  {
    hide Strip, Lower, IsAround, SameLetters;
    AroundIsStripped(email, Strip(email));
    AroundIsStripped(other, Strip(other));
    SameLettersIff(Strip(email), Strip(other));
    if SameAddress(email, other) {
      var core, core' :| IsAround(email, core) && IsAround(other, core') && SameLetters(core, core');
      AroundIsStripped(email, core);
      AroundIsStripped(other, core');
    }
  }

  predicate InWindow(row: Row, email: string, ip: string, lo: int, hi: Option<int>) {
    row.email == email && row.ip == ip && lo <= row.at && (hi.Some? ==> row.at <= hi.value)
  }

  /** How many rows of this pair were created at `lo` or later and, when `hi` is given, no later than `hi`. */
  function Count(rows: seq<Row>, email: string, ip: string, lo: int, hi: Option<int>): nat {
    if rows == [] then 0
    else
      Count(rows[..|rows| - 1], email, ip, lo, hi)
      + if InWindow(rows[|rows| - 1], email, ip, lo, hi) then 1 else 0
  }

  predicate Limited(rows: seq<Row>, email: string, ip: string, now: int) {
    Count(rows, Normalize(email), ip, now - WINDOW, None) >= MAX_ATTEMPTS
  }

  function After(rows: seq<Row>, a: Attempt): seq<Row> {
    if Limited(rows, a.email, a.ip, a.checked) || a.correct then rows
    else rows + [Row(Normalize(a.email), a.ip, a.stamped)]
  }

  function AfterAll(attempts: seq<Attempt>): seq<Row> {
    if attempts == [] then []
    else After(AfterAll(attempts[..|attempts| - 1]), attempts[|attempts| - 1])
  }

  class AttemptLog {
    var rows: seq<Row>

    constructor ()
      ensures rows == []
    {
      rows := [];
    }

    method IsRateLimited(email: string, ip: string, now: int) returns (limited: bool)
      ensures limited == Limited(rows, email, ip, now)
    {
      var windowStart := now - WINDOW;
      var count := Count(rows, Normalize(email), ip, windowStart, None);
      limited := count >= MAX_ATTEMPTS;
    }

    method RecordFailedLoginAttempt(email: string, ip: string, stamped: int)
      modifies this
      ensures rows == old(rows) + [Row(Normalize(email), ip, stamped)]
    {
      rows := rows + [Row(Normalize(email), ip, stamped)];
    }

    /** The gate both endpoints put around their secret check. */
    method Try(a: Attempt) returns (r: Response)
      modifies this
      ensures rows == After(old(rows), a)
      ensures r.TooManyRequests? <==> old(Count(rows, Normalize(a.email), a.ip, a.checked - 900, None)) >= 10
      ensures r.TooManyRequests? ==> rows == old(rows)
      ensures r.Admitted? ==> a.correct && rows == old(rows)
      ensures r.Unauthorized? ==> !a.correct && IsRecorded(old(rows), rows, a)
    {
      FailureIsRecorded(rows, a);
      var limited := IsRateLimited(a.email, a.ip, a.checked);
      if limited {
        return TooManyRequests;
      }
      if !a.correct {
        RecordFailedLoginAttempt(a.email, a.ip, a.stamped);
        return Unauthorized;
      }
      return Admitted;
    }
  }

  /** One more failure of this address from this client at this moment, in every count it belongs to and in no other. */
  ghost predicate IsRecorded(before: seq<Row>, after: seq<Row>, a: Attempt) {
    forall email: string, ip: string, lo: int, hi: Option<int> ::
      Count(after, Normalize(email), ip, lo, hi) ==
      Count(before, Normalize(email), ip, lo, hi) +
        if SameAddress(email, a.email) && ip == a.ip && lo <= a.stamped && (hi.Some? ==> a.stamped <= hi.value) then 1 else 0
  }

  lemma FailureIsRecorded(rows: seq<Row>, a: Attempt)
    ensures IsRecorded(rows, rows + [Row(Normalize(a.email), a.ip, a.stamped)], a)
  {
    hide SameAddress, Normalize;
    var after := rows + [Row(Normalize(a.email), a.ip, a.stamped)];
    assert after[..|after| - 1] == rows;
    forall email: string, ip: string, lo: int, hi: Option<int>
      ensures Count(after, Normalize(email), ip, lo, hi) ==
              Count(rows, Normalize(email), ip, lo, hi) +
                if SameAddress(email, a.email) && ip == a.ip && lo <= a.stamped && (hi.Some? ==> a.stamped <= hi.value) then 1 else 0
    {
      CountedAsOneIff(email, a.email);
    }
  }

  lemma {:induction false} WiderCountsMore(rows: seq<Row>, email: string, ip: string, lo: int, hi: Option<int>, lo': int)
    requires lo' <= lo
    ensures Count(rows, email, ip, lo, hi) <= Count(rows, email, ip, lo', None)
  {
    if rows != [] {
      WiderCountsMore(rows[..|rows| - 1], email, ip, lo, hi, lo');
    }
  }

  /** No attempt's check was made more than `lag` after the moment its row is stamped with. */
  predicate LagsAtMost(attempts: seq<Attempt>, lag: int) {
    forall i :: 0 <= i < |attempts| ==> attempts[i].checked <= attempts[i].stamped + lag
  }

  /**
   * In any run and wherever it lies, a closed window shorter than the limiter's by the longest lag between stamp and check
   * holds no more failures than the budget. The attempts may come in any order of time.
   */
  lemma {:induction false} ShorterWindowsAreBounded(attempts: seq<Attempt>, lag: nat, email: string, ip: string, start: int)
    requires LagsAtMost(attempts, lag)
    ensures Count(AfterAll(attempts), email, ip, start, Some(start + WINDOW - lag)) <= MAX_ATTEMPTS
  {
    if attempts != [] {
      hide Normalize;
      var before, a := AfterAll(attempts[..|attempts| - 1]), attempts[|attempts| - 1];
      ShorterWindowsAreBounded(attempts[..|attempts| - 1], lag, email, ip, start);
      var rows := AfterAll(attempts);
      if rows != before {
        assert rows[..|rows| - 1] == before;
        if InWindow(rows[|rows| - 1], email, ip, start, Some(start + WINDOW - lag)) {
          // The row just added lies in this window, so the limiter had already counted everything else in it.
          WiderCountsMore(before, email, ip, start, Some(start + WINDOW - lag), a.checked - WINDOW);
        }
      }
    }
  }

  /** When rows are stamped no earlier than the check that let them in, every closed window of 15 minutes is within the budget. */
  lemma EveryWindowIsBounded(attempts: seq<Attempt>, email: string, ip: string, start: int)
    requires LagsAtMost(attempts, 0)
    ensures Count(AfterAll(attempts), email, ip, start, Some(start + WINDOW)) <= MAX_ATTEMPTS
  {
    ShorterWindowsAreBounded(attempts, 0, email, ip, start);
  }

  /** `n` failures of one pair at moment 0, checked and stamped at once. */
  function Failures(n: nat): seq<Attempt> {
    seq(n, i => Attempt("", "", 0, 0, false))
  }

  function Zeros(n: nat): seq<Row> {
    seq(n, i => Row("", "", 0))
  }

  lemma {:induction false} ZerosCounted(n: nat, lo: int, hi: Option<int>)
    requires hi.Some? ==> hi.value >= 0
    ensures Count(Zeros(n), "", "", lo, hi) == if lo <= 0 then n else 0
  {
    if n > 0 {
      ZerosCounted(n - 1, lo, hi);
      assert Zeros(n)[..n - 1] == Zeros(n - 1);
    }
  }

  lemma {:induction false} FailuresAreRecorded(n: nat)
    requires n <= MAX_ATTEMPTS
    ensures AfterAll(Failures(n)) == Zeros(n)
  {
    hide Count;
    assert Normalize("") == "";
    if n > 0 {
      FailuresAreRecorded(n - 1);
      ZerosCounted(n - 1, 0 - WINDOW, None);
      assert Failures(n)[..n - 1] == Failures(n - 1);
      assert Zeros(n) == Zeros(n - 1) + [Row("", "", 0)];
    }
  }

  /**
   * The second factor's order of clocks: its challenge query opens the transaction, and the check comes after. Ten failures
   * at one moment and an eleventh whose stamp is just a window later, its check one second after that: the limiter no longer
   * sees the ten, and the closed window holds eleven.
   */
  lemma ElevenInOneWindow() returns (attempts: seq<Attempt>)
    ensures LagsAtMost(attempts, 1)
    ensures Count(AfterAll(attempts), "", "", 0, Some(WINDOW)) == MAX_ATTEMPTS + 1
  {
    var ten, late, eleventh := Failures(MAX_ATTEMPTS), Attempt("", "", WINDOW + 1, WINDOW, false), Row("", "", WINDOW);
    attempts := ten + [late];
    var rows := Zeros(MAX_ATTEMPTS);
    FailuresAreRecorded(MAX_ATTEMPTS);
    ZerosCounted(MAX_ATTEMPTS, 1, None);
    ZerosCounted(MAX_ATTEMPTS, 0, Some(WINDOW));
    assert Normalize("") == "";
    assert attempts[..|attempts| - 1] == ten;
    assert AfterAll(attempts) == rows + [eleventh];
    assert (rows + [eleventh])[..|rows|] == rows;
  }

  predicate WithinBudget(attempts: seq<Attempt>, email: string, ip: string, start: int) {
    Count(AfterAll(attempts), email, ip, start, Some(start + WINDOW)) <= MAX_ATTEMPTS
  }

  /** Every run whose lag stays within `lag` keeps every closed window of the limiter's length within the budget. */
  ghost predicate WindowsAreBounded(lag: int) {
    forall attempts: seq<Attempt>, email: string, ip: string, start: int ::
      LagsAtMost(attempts, lag) ==> WithinBudget(attempts, email, ip, start)
  }

  /** The full window is bounded in every run exactly when no stamp may come before its check. */
  lemma WindowsAreBoundedIff(lag: int)
    ensures WindowsAreBounded(lag) <==> lag <= 0
  {
    if lag <= 0 {
      forall attempts: seq<Attempt>, email: string, ip: string, start: int
        ensures LagsAtMost(attempts, lag) ==> WithinBudget(attempts, email, ip, start)
      {
        if LagsAtMost(attempts, lag) {
          EveryWindowIsBounded(attempts, email, ip, start);
        }
      }
    } else {
      var attempts := ElevenInOneWindow();
      assert LagsAtMost(attempts, lag);
      assert !WithinBudget(attempts, "", "", 0);
    }
  }

  lemma {:induction false} NoRowsNoCount(rows: seq<Row>, email: string, ip: string, lo: int)
    requires forall i :: 0 <= i < |rows| ==> !InWindow(rows[i], email, ip, lo, None)
    ensures Count(rows, email, ip, lo, None) == 0
  {
    if rows != [] {
      NoRowsNoCount(rows[..|rows| - 1], email, ip, lo);
    }
  }

  /** Attempts age out on their own: a pair whose last failure is more than a window old is never refused. */
  lemma NeverLockedOut(rows: seq<Row>, email: string, ip: string, now: int)
    requires forall i :: 0 <= i < |rows| && rows[i].email == Normalize(email) && rows[i].ip == ip ==> rows[i].at + WINDOW < now
    ensures !Limited(rows, email, ip, now)
  {
    NoRowsNoCount(rows, Normalize(email), ip, now - WINDOW);
  }

  lemma {:induction false} CountAppend(rows: seq<Row>, more: seq<Row>, email: string, ip: string, lo: int)
    ensures Count(rows + more, email, ip, lo, None) == Count(rows, email, ip, lo, None) + Count(more, email, ip, lo, None)
  {
    if more == [] {
      assert rows + more == rows;
    } else {
      assert (rows + more)[..|rows + more| - 1] == rows + more[..|more| - 1];
      CountAppend(rows, more[..|more| - 1], email, ip, lo);
    }
  }

  /** One pair's budget is its own: an attempt with another address, or from another client, changes no verdict about this one. */
  lemma PairsAreIndependent(rows: seq<Row>, a: Attempt, email: string, ip: string, now: int)
    requires !SameAddress(a.email, email) || a.ip != ip
    ensures Limited(After(rows, a), email, ip, now) == Limited(rows, email, ip, now)
  {
    CountedAsOneIff(a.email, email);
    var row := Row(Normalize(a.email), a.ip, a.stamped);
    CountAppend(rows, [row], Normalize(email), ip, now - WINDOW);
  }
}
