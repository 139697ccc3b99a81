/**
 The sliding-window login limiter of admin_app/auth.py and its use by the login route of
 admin_app/main.py.

 Only the front of a queue is ever trimmed. With a clock that never goes back this still
 answers by the whole history of failures, and bounds how many passwords can be tried.
 */
module LoginLimiter {
  /** The queue without the entries at its front that have left the window. */
  function Trimmed(queue: seq<real>, horizon: real): seq<real> {
    if queue != [] && queue[0] <= horizon then Trimmed(queue[1..], horizon) else queue
  }

  function QueueOf(failures: map<string, seq<real>>, key: string): seq<real> {
    if key in failures then failures[key] else []
  }

  class Limiter {
    const attempts: nat
    const window: real
    var failures: map<string, seq<real>>

    constructor (attempts: nat, window: real)
      ensures this.attempts == attempts && this.window == window && failures == map[]
    {
      this.attempts := attempts;
      this.window := window;
      this.failures := map[];
    }

    method Allowed(key: string, now: real) returns (ok: bool)
      modifies this
      ensures failures == AfterAllowed(old(failures), key, now, window)
      ensures ok <==> |Trimmed(QueueOf(old(failures), key), now - window)| < attempts
    {
      var queue := QueueOf(failures, key);
      while queue != [] && queue[0] <= now - window
        invariant Trimmed(queue, now - window) == Trimmed(QueueOf(failures, key), now - window)
        invariant failures == old(failures)
        decreases |queue|
      {
        queue := queue[1..];
      }
      failures := failures[key := queue];
      return |queue| < attempts;
    }

    method Failure(key: string, now: real)
      modifies this
      ensures failures == AfterFailure(old(failures), key, now, window)
    {
      var ok := Allowed(key, now);
      failures := failures[key := failures[key] + [now]];
    }

    method Success(key: string)
      modifies this
      ensures failures == old(failures) - {key}
    {
      failures := failures - {key};
    }

    /**
     One login request: asks at `asked`, checks the password only when allowed, and records
     a failure at `recorded`. The result is whether the login succeeded.
     */
    method LogIn(login: Login) returns (ok: bool)
      modifies this
      ensures failures == AfterLogin(old(failures), login, attempts, window)
      ensures ok <==> login.valid && Admits(old(failures), login, attempts, window)
    {
      ok := Allowed(login.key, login.asked);
      ok := ok && login.valid;
      if !ok {
        Failure(login.key, login.recorded);
        return;
      }
      Success(login.key);
    }
  }

  function AfterAllowed(failures: map<string, seq<real>>, key: string, now: real, window: real): map<string, seq<real>> {
    failures[key := Trimmed(QueueOf(failures, key), now - window)]
  }

  function AfterFailure(failures: map<string, seq<real>>, key: string, now: real, window: real): map<string, seq<real>> {
    failures[key := Trimmed(QueueOf(failures, key), now - window) + [now]]
  }

  /* ---------- Runs of the limiter ---------- */

  datatype Event = Allowed(key: string, now: real) | Failure(key: string, now: real) | Success(key: string, now: real)

  function After(failures: map<string, seq<real>>, e: Event, window: real): map<string, seq<real>> {
    match e
    case Allowed(key, now) => AfterAllowed(failures, key, now, window)
    case Failure(key, now) => AfterFailure(failures, key, now, window)
    case Success(key, now) => failures - {key}
  }

  function Run(events: seq<Event>, window: real): map<string, seq<real>> {
    if events == [] then map[] else After(Run(events[..|events| - 1], window), events[|events| - 1], window)
  }

  predicate ClockRuns(events: seq<Event>, now: real) {
    (forall i, j :: 0 <= i < j < |events| ==> events[i].now <= events[j].now)
    && (forall i :: 0 <= i < |events| ==> events[i].now <= now)
  }

  /** Every failure recorded for the key since its last success. */
  function History(events: seq<Event>, key: string): seq<real> {
    if events == [] then []
    else
      var before, e := History(events[..|events| - 1], key), events[|events| - 1];
      if e.key != key || e.Allowed? then before
      else if e.Failure? then before + [e.now]
      else []
  }

  /** The entries after `from` and no later than `to`. */
  function Within(times: seq<real>, from: real, to: real): seq<real> {
    if times == [] then []
    else
      var n := |times| - 1;
      Within(times[..n], from, to) + (if from < times[n] <= to then [times[n]] else [])
  }

  predicate Ascending(times: seq<real>, now: real) {
    (forall i, j :: 0 <= i < j < |times| ==> times[i] <= times[j])
    && (forall i :: 0 <= i < |times| ==> times[i] <= now)
  }

  /** The queue is the history without a front that has left the window. */
  predicate Tracks(queue: seq<real>, history: seq<real>, now: real, window: real) {
    Ascending(history, now)
    && exists d: nat :: d <= |history| && IsRest(queue, history, d) && FrontIsOld(history, d, now - window)
  }

  predicate IsRest(queue: seq<real>, history: seq<real>, d: nat) {
    d <= |history| && queue == history[d..]
  }

  predicate FrontIsOld(history: seq<real>, d: nat, horizon: real) {
    d <= |history| && forall i :: 0 <= i < d ==> history[i] <= horizon
  }

  lemma {:induction false} WithinAppends(a: seq<real>, b: seq<real>, from: real, to: real)
    ensures Within(a + b, from, to) == Within(a, from, to) + Within(b, from, to)
  {
    if b == [] {
      assert a + b == a;
    } else {
      var n := |b| - 1;
      assert (a + b)[..|a + b| - 1] == a + b[..n];
      WithinAppends(a, b[..n], from, to);
    }
  }

  lemma {:induction false} WithinOfOld(times: seq<real>, from: real, to: real)
    requires forall i :: 0 <= i < |times| ==> times[i] <= from
    ensures Within(times, from, to) == []
  {
    if times != [] {
      WithinOfOld(times[..|times| - 1], from, to);
    }
  }

  lemma {:induction false} WithinOfNew(times: seq<real>, from: real, to: real)
    requires forall i :: 0 <= i < |times| ==> from < times[i] <= to
    ensures Within(times, from, to) == times
  {
    if times != [] {
      WithinOfNew(times[..|times| - 1], from, to);
    }
  }

  /** Trimming an ascending queue drops a front of old entries and leaves only newer ones. */
  lemma {:induction false} TrimmedIsRest(queue: seq<real>, horizon: real) returns (d: nat)
    ensures IsRest(Trimmed(queue, horizon), queue, d) && FrontIsOld(queue, d, horizon)
  {
    if queue != [] && queue[0] <= horizon {
      var k := TrimmedIsRest(queue[1..], horizon);
      d := k + 1;
      assert queue[1..][k..] == queue[d..];
    } else {
      d := 0;
    }
  }

  lemma {:induction false} TrimmedIsWithin(queue: seq<real>, horizon: real, now: real)
    requires Ascending(queue, now)
    ensures Trimmed(queue, horizon) == Within(queue, horizon, now)
  {
    hide Within;
    if queue != [] && queue[0] <= horizon {
      TrimmedIsWithin(queue[1..], horizon, now);
      WithinAppends(queue[..1], queue[1..], horizon, now);
      WithinOfOld(queue[..1], horizon, now);
      assert queue == queue[..1] + queue[1..];
    } else {
      WithinOfNew(queue, horizon, now);
    }
  }

  /** Asking trims the queue to exactly what the whole history has in the window. */
  lemma TrimTracks(queue: seq<real>, history: seq<real>, before: real, now: real, window: real)
    requires Tracks(queue, history, before, window) && before <= now
    ensures Trimmed(queue, now - window) == Within(history, now - window, now)
    ensures Tracks(Trimmed(queue, now - window), history, now, window)
  {
    hide Trimmed, Within, IsRest, FrontIsOld, Tracks;
    var d := TrackedFrom(queue, history, before, window);
    FrontStaysOld(history, d, before - window, now - window);
    var k := TrimmedIsRest(queue, now - window);
    RestOfRest(queue, history, d, Trimmed(queue, now - window), k, now - window);
    Tracking(Trimmed(queue, now - window), history, d + k, now, window);
    RestAscends(queue, history, d, now);
    TrimmedIsWithin(queue, now - window, now);
    WithinOfRest(queue, history, d, now - window, now);
  }

  lemma TrackedFrom(queue: seq<real>, history: seq<real>, now: real, window: real) returns (d: nat)
    requires Tracks(queue, history, now, window)
    ensures Ascending(history, now) && IsRest(queue, history, d) && FrontIsOld(history, d, now - window)
  {
    d :| d <= |history| && IsRest(queue, history, d) && FrontIsOld(history, d, now - window);
  }

  lemma Tracking(queue: seq<real>, history: seq<real>, d: nat, now: real, window: real)
    requires Ascending(history, now) && IsRest(queue, history, d) && FrontIsOld(history, d, now - window)
    ensures Tracks(queue, history, now, window)
  {
  }

  lemma FrontStaysOld(history: seq<real>, d: nat, before: real, now: real)
    requires FrontIsOld(history, d, before) && before <= now
    ensures FrontIsOld(history, d, now)
  {
  }

  lemma RestAscends(queue: seq<real>, history: seq<real>, d: nat, now: real)
    requires IsRest(queue, history, d) && Ascending(history, now)
    ensures Ascending(queue, now)
  {
  }

  lemma RestOfRest(queue: seq<real>, history: seq<real>, d: nat, rest: seq<real>, k: nat, horizon: real)
    requires IsRest(queue, history, d) && FrontIsOld(history, d, horizon)
    requires IsRest(rest, queue, k) && FrontIsOld(queue, k, horizon)
    ensures IsRest(rest, history, d + k) && FrontIsOld(history, d + k, horizon)
  {
    assert forall i :: d <= i < d + k ==> history[i] == queue[i - d];
    assert queue[k..] == history[d + k..];
  }

  lemma WithinOfRest(queue: seq<real>, history: seq<real>, d: nat, from: real, to: real)
    requires IsRest(queue, history, d) && FrontIsOld(history, d, from)
    ensures Within(history, from, to) == Within(queue, from, to)
  {
    hide Within;
    WithinAppends(history[..d], queue, from, to);
    WithinOfOld(history[..d], from, to);
    assert history == history[..d] + queue;
  }

  lemma FailureTracks(queue: seq<real>, history: seq<real>, now: real, window: real)
    requires Tracks(queue, history, now, window)
    ensures Tracks(queue + [now], history + [now], now, window)
  {
    var d: nat :| d <= |history| && IsRest(queue, history, d) && FrontIsOld(history, d, now - window);
    assert IsRest(queue + [now], history + [now], d) && FrontIsOld(history + [now], d, now - window);
  }

  lemma TracksLater(queue: seq<real>, history: seq<real>, before: real, now: real, window: real)
    requires Tracks(queue, history, before, window) && before <= now
    ensures Tracks(queue, history, now, window)
  {
    hide Tracks, IsRest, FrontIsOld;
    var d := TrackedFrom(queue, history, before, window);
    FrontStaysOld(history, d, before - window, now - window);
    Tracking(queue, history, d, now, window);
  }

  lemma NothingTracks(now: real, window: real)
    ensures Tracks([], [], now, window)
  {
    assert IsRest([], [], 0) && FrontIsOld([], 0, now - window);
  }

  lemma {:induction false} QueueTracksHistory(events: seq<Event>, key: string, now: real, window: real)
    requires ClockRuns(events, now)
    ensures Tracks(QueueOf(Run(events, window), key), History(events, key), now, window)
  {
    hide Tracks, Trimmed;
    if events == [] {
      NothingTracks(now, window);
    } else {
      var n := |events| - 1;
      var e := events[n];
      QueueTracksHistory(events[..n], key, e.now, window);
      var queue, history := QueueOf(Run(events[..n], window), key), History(events[..n], key);
      TrimTracks(queue, history, e.now, e.now, window);
      FailureTracks(Trimmed(queue, e.now - window), history, e.now, window);
      NothingTracks(e.now, window);
      TracksLater(QueueOf(Run(events, window), key), History(events, key), e.now, now, window);
    }
  }

  /**
   The limiter allows a login exactly when fewer than `attempts` of all failures since the
   last success lie in the window, although it only ever looks at the front of its queue.
   */
  lemma AllowedIsHistory(events: seq<Event>, key: string, now: real, attempts: nat, window: real)
    requires ClockRuns(events, now)
    ensures |Trimmed(QueueOf(Run(events, window), key), now - window)| < attempts <==>
              |Within(History(events, key), now - window, now)| < attempts
  {
    hide Tracks, Trimmed, Within, Run, History, ClockRuns;
    QueueTracksHistory(events, key, now, window);
    TrimTracks(QueueOf(Run(events, window), key), History(events, key), now, now, window);
  }

  /* ---------- Runs of logins ---------- */

  /** `valid` is whether the name and password are right, should they be checked. */
  datatype Login = Login(key: string, asked: real, valid: bool, recorded: real)

  predicate Admits(failures: map<string, seq<real>>, login: Login, attempts: nat, window: real) {
    |Trimmed(QueueOf(failures, login.key), login.asked - window)| < attempts
  }

  function AfterLogin(failures: map<string, seq<real>>, login: Login, attempts: nat, window: real): map<string, seq<real>> {
    var asked := AfterAllowed(failures, login.key, login.asked, window);
    if Admits(failures, login, attempts, window) && login.valid then asked - {login.key}
    else AfterFailure(asked, login.key, login.recorded, window)
  }

  function RunLogins(logins: seq<Login>, attempts: nat, window: real): map<string, seq<real>> {
    if logins == [] then map[]
    else AfterLogin(RunLogins(logins[..|logins| - 1], attempts, window), logins[|logins| - 1], attempts, window)
  }

  predicate LoginClockRuns(logins: seq<Login>) {
    (forall i :: 0 <= i < |logins| ==> logins[i].asked <= logins[i].recorded)
    && (forall i, j :: 0 <= i < j < |logins| ==> logins[i].recorded <= logins[j].asked)
  }

  /** The recording times of the failures since the last success of the key. */
  function Failures(logins: seq<Login>, key: string, attempts: nat, window: real): seq<real> {
    if logins == [] then []
    else
      var front, login := logins[..|logins| - 1], logins[|logins| - 1];
      var before := Failures(front, key, attempts, window);
      if login.key != key then before
      else if login.valid && Admits(RunLogins(front, attempts, window), login, attempts, window) then []
      else before + [login.recorded]
  }

  /** Those of them whose password was actually checked. */
  function CheckedFailures(logins: seq<Login>, key: string, attempts: nat, window: real): seq<real> {
    if logins == [] then []
    else
      var front, login := logins[..|logins| - 1], logins[|logins| - 1];
      var before := CheckedFailures(front, key, attempts, window);
      if login.key != key || !Admits(RunLogins(front, attempts, window), login, attempts, window) then before
      else if login.valid then []
      else before + [login.recorded]
  }

  lemma {:induction false} LoginsTrack(logins: seq<Login>, key: string, attempts: nat, window: real, now: real)
    requires LoginClockRuns(logins) && forall i :: 0 <= i < |logins| ==> logins[i].recorded <= now
    ensures Tracks(QueueOf(RunLogins(logins, attempts, window), key), Failures(logins, key, attempts, window), now, window)
  {
    hide Tracks, Trimmed, Admits;
    if logins == [] {
      NothingTracks(now, window);
    } else {
      var n := |logins| - 1;
      var login := logins[n];
      LoginsTrack(logins[..n], key, attempts, window, login.asked);
      var queue := QueueOf(RunLogins(logins[..n], attempts, window), key);
      var history := Failures(logins[..n], key, attempts, window);
      LoginTracks(queue, history, login, window, now);
    }
  }

  lemma LoginTracks(queue: seq<real>, history: seq<real>, login: Login, window: real, now: real)
    requires login.asked <= login.recorded <= now && Tracks(queue, history, login.asked, window)
    ensures Tracks(queue, history, now, window) && Tracks([], [], now, window)
    ensures var asked := Trimmed(queue, login.asked - window);
            Tracks(Trimmed(asked, login.recorded - window) + [login.recorded], history + [login.recorded], now, window)
  {
    hide *;
    TracksLater(queue, history, login.asked, now, window);
    TrimTracks(queue, history, login.asked, login.asked, window);
    var asked := Trimmed(queue, login.asked - window);
    TrimTracks(asked, history, login.asked, login.recorded, window);
    var trimmed := Trimmed(asked, login.recorded - window);
    FailureTracks(trimmed, history, login.recorded, window);
    TracksLater(trimmed + [login.recorded], history + [login.recorded], login.recorded, now, window);
    NothingTracks(now, window);
  }

  lemma {:induction false} WithinIsMonotone(times: seq<real>, from: real, to: real, earlier: real, later: real)
    requires earlier <= from && (to <= later || forall i :: 0 <= i < |times| ==> times[i] <= later)
    ensures |Within(times, from, to)| <= |Within(times, earlier, later)|
  {
    if times != [] {
      WithinIsMonotone(times[..|times| - 1], from, to, earlier, later);
    }
  }

  /** Checked failures are failures. */
  lemma {:induction false} CheckedAreFailures(logins: seq<Login>, key: string, attempts: nat, window: real, from: real, to: real)
    ensures |Within(CheckedFailures(logins, key, attempts, window), from, to)|
            <= |Within(Failures(logins, key, attempts, window), from, to)|
  {
    hide Admits;
    if logins != [] {
      CheckedAreFailures(logins[..|logins| - 1], key, attempts, window, from, to);
    }
  }

  /**
   Between two successes of a key, no window of the configured length holds more than
   `attempts` failed logins whose password was checked.
   */
  lemma {:induction false} PasswordsTriedAreBounded(
    logins: seq<Login>, key: string, attempts: nat, window: real, t: real)
    requires LoginClockRuns(logins)
    ensures |Within(CheckedFailures(logins, key, attempts, window), t - window, t)| <= attempts
  {
    hide Tracks, Trimmed, Admits, Failures, RunLogins;
    if logins != [] {
      var front, login := logins[..|logins| - 1], logins[|logins| - 1];
      PasswordsTriedAreBounded(front, key, attempts, window, t);
      if login.key == key && Admits(RunLogins(front, attempts, window), login, attempts, window) && !login.valid {
        var before := CheckedFailures(front, key, attempts, window);
        assert (before + [login.recorded])[..|before|] == before;
        if t - window < login.recorded <= t {
          BeforeTheLast(front, login, attempts, window, t);
        }
      }
    }
  }

  /** When a login is admitted, fewer than `attempts` checked failures precede it in any window it ends in. */
  lemma BeforeTheLast(front: seq<Login>, login: Login, attempts: nat, window: real, t: real)
    requires LoginClockRuns(front + [login]) && Admits(RunLogins(front, attempts, window), login, attempts, window)
    requires login.recorded <= t
    ensures |Within(CheckedFailures(front, login.key, attempts, window), t - window, t)| < attempts
  {
    hide Tracks, Trimmed, Failures, CheckedFailures, RunLogins, Within;
    var logins := front + [login];
    assert forall i :: 0 <= i < |front| ==> logins[i] == front[i];
    assert logins[|front|] == login;
    LoginsTrack(front, login.key, attempts, window, login.asked);
    var queue := QueueOf(RunLogins(front, attempts, window), login.key);
    var history := Failures(front, login.key, attempts, window);
    TrimTracks(queue, history, login.asked, login.asked, window);
    CheckedAreFailures(front, login.key, attempts, window, t - window, t);
    TracksAscends(queue, history, login.asked, window);
    WithinIsMonotone(history, t - window, t, login.asked - window, login.asked);
  }

  lemma TracksAscends(queue: seq<real>, history: seq<real>, now: real, window: real)
    requires Tracks(queue, history, now, window)
    ensures forall i :: 0 <= i < |history| ==> history[i] <= now
  {
  }

  /**
   A login is admitted exactly when fewer than `attempts` failures of its key since the last
   success lie in the window before it, checked or refused.
   */
  lemma AdmittedIsHistory(front: seq<Login>, login: Login, attempts: nat, window: real)
    requires LoginClockRuns(front + [login])
    ensures Admits(RunLogins(front, attempts, window), login, attempts, window) <==>
              |Within(Failures(front, login.key, attempts, window), login.asked - window, login.asked)| < attempts
  {
    hide Tracks, Trimmed, Failures, RunLogins, Within;
    var logins := front + [login];
    assert forall i :: 0 <= i < |front| ==> logins[i] == front[i];
    assert logins[|front|] == login;
    LoginsTrack(front, login.key, attempts, window, login.asked);
    TrimTracks(QueueOf(RunLogins(front, attempts, window), login.key), Failures(front, login.key, attempts, window),
               login.asked, login.asked, window);
  }

  /** A success forgets its key, a failure is the newest entry of its key, and no login touches other keys. */
  lemma LoginMoves(front: seq<Login>, login: Login, attempts: nat, window: real)
    requires LoginClockRuns(front + [login])
    ensures var before, after := RunLogins(front, attempts, window), RunLogins(front + [login], attempts, window);
            && (forall key :: key != login.key ==> QueueOf(after, key) == QueueOf(before, key))
            && (if login.valid
                   && |Within(Failures(front, login.key, attempts, window), login.asked - window, login.asked)| < attempts
                then login.key !in after
                else login.key in after && after[login.key] != [] && after[login.key][|after[login.key]| - 1] == login.recorded)
  {
    hide Trimmed, Failures, Within;
    AdmittedIsHistory(front, login, attempts, window);
    assert (front + [login])[..|front|] == front;
  }
}
