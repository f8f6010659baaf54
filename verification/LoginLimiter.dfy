/** The portal's login lockout. Times are in milliseconds. */
module LoginLimiter {
  import opened Powers

  const MAX_ATTEMPTS: nat := 5
  const LOCKOUT_BASE: int := 30000
  const LOCKOUT_MAX: int := 900000
  const WINDOW: int := 300000
  const MAX_TRACKED: nat := 50000

  datatype Key = Key(text: string)

  datatype Attempts = Attempts(count: nat, lockedUntil: int)

  type Book = map<Key, Attempts>

  datatype Verdict = Free | Blocked(retryAfter: int)

  function Min(a: int, b: int): int {
    if a <= b then a else b
  }

  /** The lockout after the `count`-th failure. */
  function Lockout(count: nat): int
    requires count >= MAX_ATTEMPTS
  {
    Min(LOCKOUT_BASE * Pow2(count - MAX_ATTEMPTS), LOCKOUT_MAX)
  }

  function Check(book: Book, key: Key, now: int): Verdict {
    if key in book && now < book[key].lockedUntil then Blocked(book[key].lockedUntil - now) else Free
  }

  function Failure(book: Book, key: Key, now: int): Book {
    if key !in book then book[key := Attempts(1, 0)]
    else
      var count := book[key].count + 1;
      book[key := Attempts(count, if count >= MAX_ATTEMPTS then now + Lockout(count) else book[key].lockedUntil)]
  }

  function FailureVerdict(book: Book, key: Key): Verdict {
    if key in book && book[key].count + 1 >= MAX_ATTEMPTS then Blocked(Lockout(book[key].count + 1)) else Free
  }

  predicate Stale(entry: Attempts, now: int) {
    (entry.lockedUntil > 0 && now > entry.lockedUntil + WINDOW) ||
    (entry.lockedUntil == 0 && entry.count < MAX_ATTEMPTS)
  }

  function Cleanup(book: Book, now: int): Book {
    map key | key in book && !Stale(book[key], now) :: book[key]
  }

  // ----- the invariant -----

  /** An entry is locked, now or in the past, exactly from the fifth failure on. */
  ghost predicate Sound(book: Book) {
    forall key :: key in book ==> book[key].count >= 1 && book[key].lockedUntil >= 0 &&
                                  (book[key].lockedUntil == 0 <==> book[key].count < MAX_ATTEMPTS)
  }

  lemma LockoutBounds(count: nat)
    requires count >= MAX_ATTEMPTS
    ensures LOCKOUT_BASE <= Lockout(count) <= LOCKOUT_MAX
  {
  }

  /** Lockouts never shrink from one failure to the next, and from the tenth on they are the maximum. */
  lemma LockoutsGrow(count: nat)
    requires count >= MAX_ATTEMPTS
    ensures Lockout(count) <= Lockout(count + 1) <= LOCKOUT_MAX
    ensures count >= 10 ==> Lockout(count) == LOCKOUT_MAX
  {
    if count >= 10 { Pow2AtLeast(count - MAX_ATTEMPTS); }
  }

  lemma {:induction false} Pow2AtLeast(n: nat)
    requires n >= 5
    ensures Pow2(n) >= 32
  {
    if n == 5 {
      assert Pow2(2) == 4;
      assert Pow2(4) == 16;
    } else {
      Pow2AtLeast(n - 1);
    }
  }

  lemma FailureSound(book: Book, key: Key, now: int)
    requires Sound(book) && now >= 0
    ensures Sound(Failure(book, key, now))
  {
    if key in book && book[key].count + 1 >= MAX_ATTEMPTS { LockoutBounds(book[key].count + 1); }
  }

  /** Cleaning up never changes the answer of a check at that time or later. */
  lemma CleanupKeepsAnswers(book: Book, cleaned: int, key: Key, now: int)
    requires Sound(book) && cleaned <= now && 0 <= now
    ensures Check(Cleanup(book, cleaned), key, now) == Check(book, key, now)
    ensures Sound(Cleanup(book, cleaned))
  {
  }

  /** The answer to each counted failure: nothing up to the fourth, and then half a minute, doubled each time up to a
      quarter of an hour. */
  lemma AnswersByNumber(book: Book, key: Key)
    ensures var n := if key in book then book[key].count + 1 else 1;
            && (n < 5 ==> FailureVerdict(book, key) == Free)
            && (n == 5 ==> FailureVerdict(book, key) == Blocked(30000))
            && (n == 6 ==> FailureVerdict(book, key) == Blocked(60000))
            && (n == 7 ==> FailureVerdict(book, key) == Blocked(120000))
            && (n == 8 ==> FailureVerdict(book, key) == Blocked(240000))
            && (n == 9 ==> FailureVerdict(book, key) == Blocked(480000))
            && (n >= 10 ==> FailureVerdict(book, key) == Blocked(900000))
  {
    hide Lockout;
    FirstLockouts();
    var n := if key in book then book[key].count + 1 else 1;
    if n >= 10 { LockoutsGrow(n); }
  }

  /** Cleaning up forgets an identifier when it was never locked or its lock ended more than five minutes ago. */
  lemma ForgottenByAge(book: Book, now: int, key: Key)
    requires Sound(book) && key in book
    ensures key in Cleanup(book, now) <==> book[key].lockedUntil != 0 && now <= book[key].lockedUntil + 300000
    ensures key in Cleanup(book, now) ==> Cleanup(book, now)[key] == book[key]
  {
  }

  // ----- any sequence of requests -----

  datatype Event = Failed(key: Key, now: int) | Succeeded(key: Key) | Cleaned(now: int)

  function Apply(book: Book, e: Event): Book {
    match e
    case Failed(key, now) => Failure(book, key, now)
    case Succeeded(key) => book - {key}
    case Cleaned(now) => Cleanup(book, now)
  }

  function After(events: seq<Event>): Book {
    if events == [] then map[] else Apply(After(events[..|events| - 1]), events[|events| - 1])
  }

  /** Whatever happens, `lockedUntil` is 0 exactly when fewer than five failures are counted. */
  lemma {:induction false} AlwaysSound(events: seq<Event>)
    requires forall e :: e in events && e.Failed? ==> e.now >= 0
    ensures Sound(After(events))
  {
    if events != [] {
      var book := After(events[..|events| - 1]);
      AlwaysSound(events[..|events| - 1]);
      assert events[|events| - 1] in events;
      match events[|events| - 1] {
        case Failed(key, now) => FailureSound(book, key, now);
        case Succeeded(key) =>
        case Cleaned(now) =>
      }
    }
  }

  // ----- one identifier in sequence -----

  /** A failing login: the time of its check and the time its failure is recorded. */
  datatype Login = Login(checked: int, recorded: int)

  /** One after the other, without success or cleanup in between. */
  ghost predicate Sequential(logins: seq<Login>) {
    && (forall i :: 0 <= i < |logins| ==> 0 <= logins[i].checked <= logins[i].recorded)
    && (forall i :: 0 < i < |logins| ==> logins[i - 1].recorded <= logins[i].checked)
  }

  /** The book after these logins and the times of the failures that were counted: a blocked login is not. */
  function RunLogins(key: Key, logins: seq<Login>): (Book, seq<int>) {
    if logins == [] then (map[], [])
    else
      var (book, failures) := RunLogins(key, logins[..|logins| - 1]);
      var login := logins[|logins| - 1];
      if Check(book, key, login.checked).Blocked? then (book, failures)
      else (Failure(book, key, login.recorded), failures + [login.recorded])
  }

  /** The book counts the failures, and is locked for the last lockout from the last failure. */
  ghost predicate Tracks(key: Key, book: Book, failures: seq<int>) {
    if failures == [] then key !in book
    else
      && key in book && book[key].count == |failures|
      && book[key].lockedUntil == (if |failures| >= MAX_ATTEMPTS then failures[|failures| - 1] + Lockout(|failures|) else 0)
  }

  /** Each failure after the fifth comes at least the lockout after the one before it. */
  ghost predicate Spaced(failures: seq<int>) {
    && (forall i :: 0 <= i < |failures| ==> 0 <= failures[i])
    && forall n :: MAX_ATTEMPTS <= n < |failures| ==> failures[n] >= failures[n - 1] + Lockout(n)
  }

  lemma {:induction false} RunIsSpaced(key: Key, logins: seq<Login>)
    requires Sequential(logins)
    ensures Tracks(key, RunLogins(key, logins).0, RunLogins(key, logins).1)
    ensures Spaced(RunLogins(key, logins).1)
    ensures forall t :: t in RunLogins(key, logins).1 ==> logins != [] && t <= logins[|logins| - 1].recorded
  {
    if logins != [] {
      var before := logins[..|logins| - 1];
      RunIsSpaced(key, before);
      var (book, failures) := RunLogins(key, before);
      var login := logins[|logins| - 1];
      if Check(book, key, login.checked).Free? {
        var n := |failures|;
        var more := failures + [login.recorded];
        assert n >= MAX_ATTEMPTS ==> login.checked >= failures[n - 1] + Lockout(n);
        assert Spaced(more);
      }
    }
  }

  lemma {:induction false} SpacingAddsUp(failures: seq<int>, n: nat)
    requires Spaced(failures) && 10 <= n <= |failures|
    ensures failures[n - 1] >= failures[4] + 930000 + 900000 * (n - 10)
  {
    if n == 10 {
      FirstLockouts();
      assert failures[5] >= failures[4] + Lockout(5);
      assert failures[6] >= failures[5] + Lockout(6);
      assert failures[7] >= failures[6] + Lockout(7);
      assert failures[8] >= failures[7] + Lockout(8);
      assert failures[9] >= failures[8] + Lockout(9);
    } else {
      SpacingAddsUp(failures, n - 1);
      LockoutsGrow(n - 1);
    }
  }

  lemma FirstLockouts()
    ensures Lockout(5) == 30000 && Lockout(6) == 60000 && Lockout(7) == 120000
    ensures Lockout(8) == 240000 && Lockout(9) == 480000
  {
    assert Pow2(1) == 2;
    assert Pow2(2) == 4;
    assert Pow2(3) == 8;
    assert Pow2(4) == 16;
  }

  /** However the logins of one identifier are timed, the n-th counted failure, from the tenth on, comes at
      least 930000 + 900000 (n - 10) milliseconds after the fifth. */
  lemma FailuresTakeTime(key: Key, logins: seq<Login>, n: nat)
    requires Sequential(logins)
    requires 10 <= n <= |RunLogins(key, logins).1|
    ensures var failures := RunLogins(key, logins).1;
            failures[n - 1] >= failures[4] + 930000 + 900000 * (n - 10)
  {
    RunIsSpaced(key, logins);
    SpacingAddsUp(RunLogins(key, logins).1, n);
  }

  /** The time of failure `n` of logins that come back the moment a lockout ends. */
  function TightTime(n: nat): int {
    if n < MAX_ATTEMPTS then 0 else TightTime(n - 1) + Lockout(n)
  }

  function TightLogins(n: nat): (logins: seq<Login>)
    ensures |logins| == n
  {
    if n == 0 then [] else TightLogins(n - 1) + [Login(TightTime(n - 1), TightTime(n - 1))]
  }

  /** A failing login that comes when no lockout is left is counted. */
  lemma Counted(key: Key, logins: seq<Login>, time: int)
    requires var (book, failures) := RunLogins(key, logins);
             && Tracks(key, book, failures)
             && (|failures| >= MAX_ATTEMPTS ==> time >= failures[|failures| - 1] + Lockout(|failures|))
    requires time >= 0
    ensures var (book, failures) := RunLogins(key, logins + [Login(time, time)]);
            Tracks(key, book, failures) && failures == RunLogins(key, logins).1 + [time]
  {
    hide Lockout;
    assert (logins + [Login(time, time)])[..|logins|] == logins;
  }

  lemma {:induction false} TightSequential(n: nat)
    ensures Sequential(TightLogins(n))
    ensures n > 0 ==> TightLogins(n)[n - 1].recorded == TightTime(n - 1) >= 0
  {
    if n > 0 {
      TightSequential(n - 1);
      if n > MAX_ATTEMPTS { LockoutBounds(n - 1); }
    }
  }

  /** The counted failures are the first `n` of those times. */
  ghost predicate AtTightTimes(failures: seq<int>, n: nat) {
    |failures| == n && forall i: nat :: i < n ==> failures[i] == TightTime(i)
  }

  lemma OneMoreTightTime(failures: seq<int>, n: nat)
    requires AtTightTimes(failures, n)
    ensures AtTightTimes(failures + [TightTime(n)], n + 1)
    ensures n >= MAX_ATTEMPTS ==> TightTime(n) == failures[n - 1] + Lockout(n)
  {
    hide Lockout;
    forall i: nat | i < n + 1 ensures (failures + [TightTime(n)])[i] == TightTime(i) {
    }
  }

  lemma TightStep(key: Key, n: nat)
    requires var (book, failures) := RunLogins(key, TightLogins(n));
             Tracks(key, book, failures) && AtTightTimes(failures, n)
    requires TightTime(n) >= 0
    ensures var (book, failures) := RunLogins(key, TightLogins(n + 1));
            Tracks(key, book, failures) && AtTightTimes(failures, n + 1)
  {
    hide RunLogins, Tracks, AtTightTimes, Lockout, TightTime;
    OneMoreTightTime(RunLogins(key, TightLogins(n)).1, n);
    TightLength(RunLogins(key, TightLogins(n)).1, n);
    Counted(key, TightLogins(n), TightTime(n));
  }

  lemma TightLength(failures: seq<int>, n: nat)
    requires AtTightTimes(failures, n)
    ensures |failures| == n
  {
  }

  lemma NoLogins(key: Key)
    ensures var (book, failures) := RunLogins(key, TightLogins(0));
            Tracks(key, book, failures) && AtTightTimes(failures, 0)
  {
    hide Lockout, TightTime;
  }

  lemma {:induction false} TightRun(key: Key, n: nat)
    ensures var (book, failures) := RunLogins(key, TightLogins(n));
            Tracks(key, book, failures) && AtTightTimes(failures, n)
  {
    hide RunLogins, Tracks, AtTightTimes, TightLogins, TightTime;
    if n == 0 {
      NoLogins(key);
    } else {
      TightRun(key, n - 1);
      TightSequential(n);
      TightStep(key, n - 1);
    }
  }

  lemma {:induction false} TightTimes(n: nat)
    requires n >= 10
    ensures TightTime(n - 1) == 930000 + 900000 * (n - 10)
  {
    if n == 10 {
      FirstLockouts();
      assert TightTime(4) == 0;
      assert TightTime(6) == 30000 + 60000;
      assert TightTime(8) == 90000 + 120000 + 240000;
    } else {
      TightTimes(n - 1);
      LockoutsGrow(n - 1);
    }
  }

  /** The bound is met for every `n`: logins that come back the moment a lockout ends reach it exactly. */
  lemma BoundIsTight(key: Key, n: nat)
    requires n >= 10
    ensures Sequential(TightLogins(n)) && |RunLogins(key, TightLogins(n)).1| == n
    ensures var failures := RunLogins(key, TightLogins(n)).1;
            failures[n - 1] == failures[4] + 930000 + 900000 * (n - 10)
  {
    TightSequential(n);
    TightRun(key, n);
    TightTimes(n);
  }

  // ----- the limiter -----

  class Limiter {
    var loginAttempts: Book

    ghost predicate Valid()
      reads this
    {
      Sound(loginAttempts)
    }

    constructor ()
      ensures Valid() && loginAttempts == After([])
    {
      loginAttempts := map[];
    }

    method CleanupLoginAttempts(now: int)
      requires Valid()
      modifies this
      ensures loginAttempts == Apply(old(loginAttempts), Cleaned(now)) && Valid()
    {
      var keys := loginAttempts.Keys;
      while keys != {}
        invariant keys <= old(loginAttempts).Keys
        invariant loginAttempts == map key | key in old(loginAttempts) && (key in keys || !Stale(old(loginAttempts)[key], now))
                                       :: old(loginAttempts)[key]
        decreases |keys|
      {
        var key :| key in keys;
        var entry := loginAttempts[key];
        if entry.lockedUntil > 0 && now > entry.lockedUntil + WINDOW {
          loginAttempts := loginAttempts - {key};
        } else if entry.lockedUntil == 0 && entry.count < MAX_ATTEMPTS {
          loginAttempts := loginAttempts - {key};
        }
        keys := keys - {key};
      }
    }

    /** The answer is that of the book before the call, whether or not the call cleans it up. */
    method CheckLoginRateLimit(key: Key, now: int) returns (verdict: Verdict)
      requires Valid() && now >= 0
      modifies this
      ensures verdict == Check(old(loginAttempts), key, now)
      ensures loginAttempts == (if |old(loginAttempts)| > 50000 then Cleanup(old(loginAttempts), now) else old(loginAttempts))
      ensures Valid()
    {
      if |loginAttempts| > MAX_TRACKED {
        CleanupKeepsAnswers(loginAttempts, now, key, now);
        CleanupLoginAttempts(now);
      }
      if key !in loginAttempts {
        return Free;
      }
      var entry := loginAttempts[key];
      verdict := if now < entry.lockedUntil then Blocked(entry.lockedUntil - now) else Free;
    }

    method RecordLoginFailure(key: Key, now: int) returns (verdict: Verdict)
      requires Valid() && now >= 0
      modifies this
      ensures loginAttempts == Apply(old(loginAttempts), Failed(key, now)) && Valid()
      ensures verdict == FailureVerdict(old(loginAttempts), key)
      ensures verdict.Blocked? ==> Check(loginAttempts, key, now) == verdict
    {
      FailureSound(loginAttempts, key, now);
      if key !in loginAttempts {
        loginAttempts := loginAttempts[key := Attempts(1, 0)];
        return Free;
      }
      var entry := loginAttempts[key];
      entry := entry.(count := entry.count + 1);
      verdict := Free;
      if entry.count >= MAX_ATTEMPTS {
        var lockout := Min(LOCKOUT_BASE * Pow2(entry.count - MAX_ATTEMPTS), LOCKOUT_MAX);
        entry := entry.(lockedUntil := now + lockout);
        LockoutBounds(entry.count);
        verdict := Blocked(lockout);
      }
      loginAttempts := loginAttempts[key := entry];
    }

    method ClearLoginAttempts(key: Key)
      requires Valid()
      modifies this
      ensures loginAttempts == Apply(old(loginAttempts), Succeeded(key)) && Valid()
    {
      loginAttempts := loginAttempts - {key};
    }
  }
}
