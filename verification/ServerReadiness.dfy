/**
 The polling loop that waits for the embedded server, under an ideal clock: time passes only in
 attempts and sleeps, each of which takes exactly as long as it says.
 */
module ServerReadiness {

  /** How one attempt ended: how long it took, and whether the server answered ok in time. */
  datatype Attempt = Attempt(tookMs: int, ok: bool)

  /** What an attempt does, by its start time and its time limit. */
  type Server = (int, int) -> Attempt

  function AtLeastOne(ms: int): int {
    if ms < 1 then 1 else ms
  }

  function AtLeastZero(ms: int): int {
    if ms < 0 then 0 else ms
  }

  datatype Config = Config(startedAt: int, timeoutMs: int, requestTimeoutMs: int, pollIntervalMs: int) {
    function Deadline(): int {
      startedAt + timeoutMs
    }

    /** The time limit of an attempt started at `t`: the request's, cut at the deadline, at least 1. */
    function Limit(t: int): int {
      AtLeastOne(if requestTimeoutMs < Deadline() - t then requestTimeoutMs else Deadline() - t)
    }

    /** When an attempt started at `t` is over. */
    function End(server: Server, t: int): int {
      t + server(t, Limit(t)).tookMs
    }

    /** When the loop looks at the clock again: after a sleep cut at the deadline. */
    function Wake(server: Server, t: int): int {
      var left := Deadline() - End(server, t);
      if left <= 0 then End(server, t)
      else End(server, t) + AtLeastZero(if pollIntervalMs < left then pollIntervalMs else left)
    }

    /** When the `n`-th turn of the loop begins, if it comes to that. */
    function Start(server: Server, n: nat): int {
      if n == 0 then startedAt else Wake(server, Start(server, n - 1))
    }

    /** The loop makes an `n`-th attempt: no earlier one was answered and the deadline is not reached. */
    predicate Attempts(server: Server, n: nat) {
      && (forall k: nat | k < n :: !Ok(server, Start(server, k)))
      && (forall k: nat | k <= n :: Start(server, k) < Deadline())
    }

    /** An attempt in vain that takes no time, with no sleep after it. */
    predicate StandsStill(server: Server, t: int) {
      !Ok(server, t) && server(t, Limit(t)).tookMs == 0 && pollIntervalMs <= 0
    }

    predicate Ok(server: Server, t: int) {
      server(t, Limit(t)).ok
    }
  }

  /** The abort timer ends every attempt at its limit. */
  ghost predicate Timed(server: Server) {
    forall t, limit | limit >= 1 :: 0 <= server(t, limit).tookMs <= limit
  }

  /** Attempts made so far, all in vain, each started when the loop woke up; it wakes up next at `now`. */
  ghost predicate Polled(c: Config, server: Server, starts: seq<int>, now: int) {
    && c.startedAt + |starts| <= now <= c.Deadline()
    && now == c.Start(server, |starts|)
    && forall k: nat | k < |starts| ::
         starts[k] == c.Start(server, k) && starts[k] < c.Deadline() && !c.Ok(server, starts[k])
  }

  ghost predicate NeverStandsStill(c: Config, server: Server) {
    forall n: nat | c.Attempts(server, n) :: !c.StandsStill(server, c.Start(server, n))
  }

  /**
   An attempt has its own time limit, at least 1, unless the deadline comes first; after it in vain the
   loop sleeps for the interval, unless the deadline comes first.
   */
  lemma LimitsAndSleeps(c: Config, server: Server, t: int)
    requires Timed(server) && t < c.startedAt + c.timeoutMs
    ensures var left := c.startedAt + c.timeoutMs - t;
            c.Limit(t) == if left <= c.requestTimeoutMs then left
                          else if c.requestTimeoutMs >= 1 then c.requestTimeoutMs else 1
    ensures var end, deadline := t + server(t, c.Limit(t)).tookMs, c.startedAt + c.timeoutMs;
            && end <= deadline
            && c.Wake(server, t) == if c.pollIntervalMs <= 0 then end
                                    else if end + c.pollIntervalMs <= deadline then end + c.pollIntervalMs else deadline
  {
    assert 0 <= server(t, c.Limit(t)).tookMs <= c.Limit(t);
  }

  lemma WakesLater(c: Config, server: Server, t: int)
    requires Timed(server) && t < c.Deadline() && !c.Ok(server, t)
    ensures t <= c.Wake(server, t) <= c.Deadline()
    ensures c.Wake(server, t) == t <==> c.StandsStill(server, t)
  {
    assert 0 <= server(t, c.Limit(t)).tookMs <= c.Limit(t);
  }

  lemma PollAgain(c: Config, server: Server, starts: seq<int>, now: int)
    requires Polled(c, server, starts, now) && now < c.Deadline() && !c.Ok(server, now)
    requires Timed(server) && NeverStandsStill(c, server)
    ensures now < c.Wake(server, now)
    ensures Polled(c, server, starts + [now], c.Wake(server, now))
  {
    var starts' := starts + [now];
    PolledAttempts(c, server, starts, now);
    assert !c.StandsStill(server, now);
    WakesLater(c, server, now);
    assert c.Start(server, |starts'|) == c.Wake(server, c.Start(server, |starts|));
    forall k: nat | k < |starts'|
      ensures starts'[k] == c.Start(server, k) && starts'[k] < c.Deadline() && !c.Ok(server, starts'[k])
    {
      assert k < |starts| ==> starts'[k] == starts[k];
    }
  }

  lemma PolledAttempts(c: Config, server: Server, starts: seq<int>, now: int)
    requires Polled(c, server, starts, now) && now < c.Deadline()
    ensures c.Attempts(server, |starts|) && now == c.Start(server, |starts|)
  {
    forall k: nat | k < |starts|
      ensures c.Start(server, k) < c.Deadline() && !c.Ok(server, c.Start(server, k))
    {
      assert starts[k] == c.Start(server, k);
    }
  }

  // ----- When the loop ends -----

  lemma {:induction false} StartsAdvance(c: Config, server: Server, n: nat)
    requires Timed(server) && c.Attempts(server, n)
    requires forall k: nat | k < n :: !c.StandsStill(server, c.Start(server, k))
    ensures c.Start(server, n) >= c.startedAt + n
  {
    if n > 0 {
      StartsAdvance(c, server, n - 1);
      WakesLater(c, server, c.Start(server, n - 1));
    }
  }

  lemma {:induction false} StandsStillForGood(c: Config, server: Server, n: nat, m: nat)
    requires Timed(server) && c.Attempts(server, n) && c.StandsStill(server, c.Start(server, n)) && n <= m
    ensures c.Attempts(server, m) && c.Start(server, m) == c.Start(server, n)
    decreases m
  {
    if n < m {
      StandsStillForGood(c, server, n, m - 1);
      WakesLater(c, server, c.Start(server, n));
    }
  }

  /** The loop runs forever if and only if it comes to stand still at some attempt. */
  lemma PollsForeverIff(c: Config, server: Server)
    requires Timed(server)
    ensures (forall n: nat :: c.Attempts(server, n))
            <==> !NeverStandsStill(c, server)
  {
    if n: nat :| c.Attempts(server, n) && c.StandsStill(server, c.Start(server, n)) {
      forall m: nat ensures c.Attempts(server, m) {
        if n <= m {
          StandsStillForGood(c, server, n, m);
        }
      }
    } else {
      var last: nat := AtLeastZero(c.timeoutMs);
      if c.Attempts(server, last) {
        forall k: nat | k < last ensures !c.StandsStill(server, c.Start(server, k)) {
          assert c.Attempts(server, k);
        }
        StartsAdvance(c, server, last);
      }
    }
  }

  /** It does so when nothing listens, refusals come at once and the interval is zero. */
  lemma RefusalsPollForever(c: Config, server: Server, n: nat)
    requires c.timeoutMs > 0 && c.pollIntervalMs <= 0
    requires forall t, limit :: server(t, limit) == Attempt(0, false)
    ensures c.Attempts(server, n)
  {
    assert c.Attempts(server, 0) && c.StandsStill(server, c.Start(server, 0));
    StandsStillForGood(c, server, 0, n);
  }

  /**
   What is promised of a run: its attempts, its answer and its end. A run that is not ready ends at
   the deadline; a ready run ends with its first successful attempt.
   */
  ghost predicate IsRun(c: Config, server: Server, starts: seq<int>, ready: bool, finish: int) {
    if c.timeoutMs <= 0 then starts == [] && !ready && finish == c.startedAt
    else if !ready then Polled(c, server, starts, c.Deadline()) && finish == c.Deadline()
    else
      && starts != []
      && var last := starts[|starts| - 1];
         && Polled(c, server, starts[..|starts| - 1], last)
         && last < c.Deadline() && c.Ok(server, last) && finish == c.End(server, last)
  }

  /** Unless it comes to stand still, the loop ends on a shrinking remaining time and never passes the deadline. */
  method WaitForServer(c: Config, server: Server) returns (ready: bool, finish: int, starts: seq<int>)
    requires Timed(server) && NeverStandsStill(c, server)
    ensures IsRun(c, server, starts, ready, finish)
    ensures c.timeoutMs > 0 ==> finish <= c.Deadline()
  {
    var now := c.startedAt;
    starts := [];
    while now - c.startedAt < c.timeoutMs
      invariant if c.timeoutMs > 0 then Polled(c, server, starts, now) else starts == [] && now == c.startedAt
      decreases c.startedAt + c.timeoutMs - now
    {
      var remainingMs := c.timeoutMs - (now - c.startedAt);
      var attemptTimeoutMs := AtLeastOne(if c.requestTimeoutMs < remainingMs then c.requestTimeoutMs else remainingMs);
      assert attemptTimeoutMs == c.Limit(now);
      var attempt := server(now, attemptTimeoutMs);
      if attempt.ok {
        return true, now + attempt.tookMs, starts + [now];
      }
      PollAgain(c, server, starts, now);
      starts := starts + [now];
      var after := now + attempt.tookMs;
      assert after == c.End(server, now);
      var pollRemainingMs := c.timeoutMs - (after - c.startedAt);
      if pollRemainingMs <= 0 {
        assert after == c.Wake(server, now);
        return false, after, starts;
      }
      now := after + AtLeastZero(if c.pollIntervalMs < pollRemainingMs then c.pollIntervalMs else pollRemainingMs);
    }
    return false, now, starts;
  }

  /** The answer is yes exactly when some attempt started before the deadline was answered ok. */
  lemma ReadyIffSomeAttemptAnswered(c: Config, server: Server, starts: seq<int>, ready: bool, finish: int)
    requires IsRun(c, server, starts, ready, finish)
    ensures ready <==> exists n: nat :: c.Attempts(server, n) && c.Ok(server, c.Start(server, n))
    ensures ready <==> exists k | 0 <= k < |starts| :: c.Ok(server, starts[k])
  {
    if c.timeoutMs <= 0 {
      assert c.Start(server, 0) >= c.Deadline();
    } else if ready {
      var init, last := starts[..|starts| - 1], starts[|starts| - 1];
      PolledAttempts(c, server, init, last);
    } else {
      forall n: nat | c.Attempts(server, n) ensures !c.Ok(server, c.Start(server, n)) {
        assert c.Start(server, |starts|) == c.Deadline();
        assert n < |starts|;
        assert starts[n] == c.Start(server, n);
      }
    }
  }

  /** Before giving up the loop makes an attempt within one attempt and one sleep of the deadline. */
  lemma LastAttemptIsLate(c: Config, server: Server, starts: seq<int>)
    requires Polled(c, server, starts, c.Deadline()) && c.timeoutMs > 0 && Timed(server)
    ensures starts != []
    ensures var last := starts[|starts| - 1];
            && !c.Ok(server, last)
            && last + AtLeastOne(c.requestTimeoutMs) + AtLeastZero(c.pollIntervalMs) >= c.Deadline()
  {
    var k := |starts| - 1;
    assert c.Start(server, |starts|) == c.Wake(server, starts[k]);
    assert 0 <= server(starts[k], c.Limit(starts[k])).tookMs <= c.Limit(starts[k]);
  }

  /**
   A server that answers ok from some moment on is found, if that moment is no closer to the
   deadline than one attempt and one sleep take.
   */
  lemma UpServerIsFound(c: Config, server: Server, starts: seq<int>, ready: bool, finish: int, up: int)
    requires IsRun(c, server, starts, ready, finish) && Timed(server)
    requires c.startedAt <= up && forall t | up <= t < c.Deadline() :: c.Ok(server, t)
    requires up + AtLeastOne(c.requestTimeoutMs) + AtLeastZero(c.pollIntervalMs) <= c.Deadline()
    ensures ready
  {
    if !ready {
      LastAttemptIsLate(c, server, starts);
    }
  }
}
