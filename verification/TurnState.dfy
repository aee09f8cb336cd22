/**
 The provenance table behind the `x-codex-turn-state` echo guard. The table overwrites,
 expires lazily and is swept every 256 writes. It is compared with the unbounded log of
 the notes that were made.
 */
module TurnState {
  import opened Options
  import opened Text

  const TTL_MS := 2 * 60 * 60 * 1000
  const SWEEP_EVERY_WRITES := 256

  datatype Origin = Origin(accountKey: string, expiresAt: int)

  datatype Table = Table(origins: map<string, Origin>, writes: nat)

  /** One accepted provenance note, as the log keeps it. */
  datatype Note = Note(session: string, account: string, at: int)

  /** A call on the module; `None` stands for a value that is not a string. */
  datatype Call =
    | NoteCall(session: Option<string>, account: Option<string>, now: int)
    | GuardCall(session: Option<string>, account: Option<string>, now: int)

  /** The trimmed value, empty when there is none. */
  function Normalized(value: Option<string>): string {
    if value.Some? then Trim(value.value) else ""
  }

  /** White space around a session or an account is no part of it; what is not a string is nothing. */
  lemma NormalizedIs(l: string, core: string, r: string)
    requires AllSpace(l) && AllSpace(r) && Trimmed(core)
    ensures Normalized(Some(l + core + r)) == core && Normalized(None) == ""
  {
    TrimBetween(l, core, r);
  }

  // ----- The table as a step function -----

  function Swept(origins: map<string, Origin>, now: int): map<string, Origin> {
    map k | k in origins && origins[k].expiresAt > now :: origins[k]
  }

  /** The table after an accepted note. */
  function Noted(t: Table, n: Note): Table {
    var origins := t.origins[n.session := Origin(n.account, n.at + TTL_MS)];
    var writes := t.writes + 1;
    Table(if writes % SWEEP_EVERY_WRITES == 0 then Swept(origins, n.at) else origins, writes)
  }

  function NoteStep(t: Table, session: Option<string>, account: Option<string>, now: int): Table {
    var s, a := Normalized(session), Normalized(account);
    if s == "" || a == "" then t else Noted(t, Note(s, a, now))
  }

  function GuardStep(t: Table, session: Option<string>, account: Option<string>, now: int): (Table, bool) {
    var s, a := Normalized(session), Normalized(account);
    if s == "" || a == "" || s !in t.origins then (t, false)
    else if t.origins[s].expiresAt <= now then (t.(origins := t.origins - {s}), false)
    else (t, t.origins[s].accountKey != a)
  }

  function Step(t: Table, call: Call): Table {
    match call
    case NoteCall(s, a, now) => NoteStep(t, s, a, now)
    case GuardCall(s, a, now) => GuardStep(t, s, a, now).0
  }

  function Run(calls: seq<Call>): Table {
    if calls == [] then Table(map[], 0) else Step(Run(calls[..|calls| - 1]), calls[|calls| - 1])
  }

  // ----- The log -----

  function LogOf(calls: seq<Call>): seq<Note> {
    if calls == [] then []
    else
      var log := LogOf(calls[..|calls| - 1]);
      var call := calls[|calls| - 1];
      if call.NoteCall? && Normalized(call.session) != "" && Normalized(call.account) != ""
      then log + [Note(Normalized(call.session), Normalized(call.account), call.now)]
      else log
  }

  /** The position of the last note for `session`, or `-1`. */
  function Latest(log: seq<Note>, session: string): (i: int)
    ensures -1 <= i < |log|
    ensures i >= 0 ==> log[i].session == session
    ensures forall k | i < k < |log| :: log[k].session != session
  {
    if log == [] then -1
    else if log[|log| - 1].session == session then |log| - 1
    else Latest(log[..|log| - 1], session)
  }

  /** What a guard with the whole log would answer: the last note is live and foreign. */
  predicate KnownForeign(log: seq<Note>, session: Option<string>, account: Option<string>, now: int) {
    var s, a := Normalized(session), Normalized(account);
    var i := Latest(log, s);
    s != "" && a != "" && i >= 0 && now - log[i].at < 2 * 60 * 60 * 1000 && log[i].account != a
  }

  /** An upper bound of every clock reading so far. */
  predicate NoLaterThan(calls: seq<Call>, clock: int) {
    forall k | 0 <= k < |calls| :: calls[k].now <= clock
  }

  predicate NonDecreasing(calls: seq<Call>) {
    forall j, k | 0 <= j < k < |calls| :: calls[j].now <= calls[k].now
  }

  // ----- What the table forgets -----

  /** A call with a session and an account; any other call does nothing. */
  predicate Effective(call: Call) {
    Normalized(call.session) != "" && Normalized(call.account) != ""
  }

  predicate Notes(call: Call, s: string) {
    call.NoteCall? && Effective(call) && Normalized(call.session) == s
  }

  predicate Expired(log: seq<Note>, s: string, now: int) {
    var i := Latest(log, s);
    i >= 0 && log[i].at + TTL_MS <= now
  }

  /** After `log`, the call finds the session expired: by asking for it, or by a sweep for another one. */
  predicate Drops(log: seq<Note>, call: Call, s: string) {
    && Expired(log, s, call.now) && Effective(call)
    && if call.GuardCall? then Normalized(call.session) == s
       else Normalized(call.session) != s && (|log| + 1) % SWEEP_EVERY_WRITES == 0
  }

  /** Call `k` drops the session, and no later one notes it again. */
  predicate DroppedAt(calls: seq<Call>, s: string, k: nat)
    requires k < |calls|
  {
    Drops(LogOf(calls[..k]), calls[k], s) && forall j | k < j < |calls| :: !Notes(calls[j], s)
  }

  /** Some call since the last note for the session found it expired. */
  predicate Forgotten(calls: seq<Call>, s: string) {
    exists k | 0 <= k < |calls| :: DroppedAt(calls, s, k)
  }

  lemma DroppedAtStep(init: seq<Call>, call: Call, s: string, k: nat)
    requires k <= |init|
    ensures DroppedAt(init + [call], s, k) <==>
            if k == |init| then Drops(LogOf(init), call, s) else DroppedAt(init, s, k) && !Notes(call, s)
  {
    var calls := init + [call];
    assert calls[..k] == init[..k] && init[..|init|] == init;
    if k < |init| && DroppedAt(calls, s, k) {
      assert !Notes(calls[|init|], s);
      forall j | k < j < |init| ensures !Notes(init[j], s) {
        assert calls[j] == init[j];
      }
    }
  }

  lemma ForgottenStep(init: seq<Call>, call: Call, s: string)
    ensures Forgotten(init + [call], s) <==> Drops(LogOf(init), call, s) || (Forgotten(init, s) && !Notes(call, s))
  {
    var calls := init + [call];
    DroppedAtStep(init, call, s, |init|);
    if Forgotten(init, s) && !Notes(call, s) {
      var k :| 0 <= k < |init| && DroppedAt(init, s, k);
      DroppedAtStep(init, call, s, k);
    }
    if Forgotten(calls, s) {
      var k :| 0 <= k < |calls| && DroppedAt(calls, s, k);
      DroppedAtStep(init, call, s, k);
    }
  }

  lemma LatestAppend(log: seq<Note>, n: Note, session: string)
    ensures Latest(log + [n], session) == if n.session == session then |log| else Latest(log, session)
  {
    assert (log + [n])[..|log|] == log;
  }

  /** A session that is live at every reading so far is not forgotten. */
  lemma {:induction false} LiveIsNotForgotten(calls: seq<Call>, s: string, clock: int)
    requires NoLaterThan(calls, clock) && !Expired(LogOf(calls), s, clock)
    ensures !Forgotten(calls, s)
  {
    if calls != [] {
      var init, call := calls[..|calls| - 1], calls[|calls| - 1];
      assert calls == init + [call];
      ForgottenStep(init, call, s);
      if !Notes(call, s) {
        LatestAppend(LogOf(init), Note(Normalized(call.session), Normalized(call.account), call.now), s);
        LiveIsNotForgotten(init, s, clock);
      }
    }
  }

  // ----- Simulation -----

  /** The entry for `s` is the last note of that session. */
  ghost predicate IsLatest(t: Table, log: seq<Note>, s: string)
    requires s in t.origins
  {
    var i := Latest(log, s);
    i >= 0 && t.origins[s] == Origin(log[i].account, log[i].at + TTL_MS)
  }

  /** Every entry is the last note of its session, whatever the clock did. */
  ghost predicate Agrees(t: Table, log: seq<Note>) {
    && t.writes == |log|
    && forall s | s in t.origins :: IsLatest(t, log, s)
  }

  lemma NotedAgrees(t: Table, log: seq<Note>, n: Note)
    requires Agrees(t, log)
    ensures Agrees(Noted(t, n), log + [n])
  {
    var t' := Noted(t, n);
    forall s | s in t'.origins ensures IsLatest(t', log + [n], s) {
      LatestAppend(log, n, s);
      assert s != n.session ==> IsLatest(t, log, s);
    }
  }

  lemma GuardAgrees(t: Table, log: seq<Note>, call: Call)
    requires Agrees(t, log)
    ensures Agrees(GuardStep(t, call.session, call.account, call.now).0, log)
  {
    var t' := GuardStep(t, call.session, call.account, call.now).0;
    forall s | s in t'.origins ensures IsLatest(t', log, s) {
      assert IsLatest(t, log, s);
    }
  }

  /** A step keeps the session's entry unless it drops it, and makes one when it notes it. */
  lemma StepKeeps(t: Table, log: seq<Note>, call: Call, s: string)
    requires Agrees(t, log)
    ensures s in Step(t, call).origins <==> Notes(call, s) || (s in t.origins && !Drops(log, call, s))
  {
    assert s in t.origins ==> IsLatest(t, log, s);
  }

  /** In every reachable state the entries are the last notes of exactly the noted sessions not forgotten since. */
  lemma {:induction false} Simulation(calls: seq<Call>)
    ensures Agrees(Run(calls), LogOf(calls))
    ensures forall s :: s in Run(calls).origins <==> Latest(LogOf(calls), s) >= 0 && !Forgotten(calls, s)
  {
    if calls != [] {
      var init, call := calls[..|calls| - 1], calls[|calls| - 1];
      var t, log, n := Run(init), LogOf(init), Note(Normalized(call.session), Normalized(call.account), call.now);
      assert calls == init + [call];
      Simulation(init);
      if call.NoteCall? && Effective(call) {
        NotedAgrees(t, log, n);
      } else {
        GuardAgrees(t, log, call);
      }
      forall s ensures s in Run(calls).origins <==> Latest(LogOf(calls), s) >= 0 && !Forgotten(calls, s) {
        StepKeeps(t, log, call, s);
        ForgottenStep(init, call, s);
        LatestAppend(log, n, s);
      }
    }
  }

  /**
   With any clock, the table answers like the full log except for the sessions it has forgotten:
   those that some call since their last note found expired.
   */
  lemma GuardAnyClock(calls: seq<Call>, s: Option<string>, a: Option<string>, now: int)
    ensures GuardStep(Run(calls), s, a, now).1
            <==> KnownForeign(LogOf(calls), s, a, now) && !Forgotten(calls, Normalized(s))
  {
    Simulation(calls);
    var key, t := Normalized(s), Run(calls);
    assert key in t.origins ==> IsLatest(t, LogOf(calls), key);
  }

  /** With a clock that never goes back, the table answers exactly like the full log. */
  lemma GuardMatchesLog(calls: seq<Call>, s: Option<string>, a: Option<string>, now: int)
    requires NonDecreasing(calls + [GuardCall(s, a, now)])
    ensures GuardStep(Run(calls), s, a, now).1 <==> KnownForeign(LogOf(calls), s, a, now)
  {
    var trace := calls + [GuardCall(s, a, now)];
    forall k | 0 <= k < |calls| ensures calls[k].now <= now {
      assert trace[k].now <= trace[|calls|].now;
    }
    GuardAnyClock(calls, s, a, now);
    if KnownForeign(LogOf(calls), s, a, now) {
      LiveIsNotForgotten(calls, Normalized(s), now);
    }
  }

  /** The clock condition is needed: a guard that ran ahead has already dropped the record. */
  lemma ClockGoingBackForgets()
    ensures var calls := [NoteCall(Some("s"), Some("a"), 0), GuardCall(Some("s"), Some("b"), TTL_MS)];
            && !GuardStep(Run(calls), Some("s"), Some("b"), 1).1
            && KnownForeign(LogOf(calls), Some("s"), Some("b"), 1)
  {
    var one := [NoteCall(Some("s"), Some("a"), 0)];
    var two := [NoteCall(Some("s"), Some("a"), 0), GuardCall(Some("s"), Some("b"), TTL_MS)];
    TrimFixpoint("s");
    TrimFixpoint("a");
    TrimFixpoint("b");
    assert one[..0] == [] && two[..1] == one;
    var noted := Run(one);
    assert noted == Noted(Table(map[], 0), Note("s", "a", 0));
    assert "s" !in Run(two).origins;
    var log := LogOf(one);
    assert log == [Note("s", "a", 0)] && LogOf(two) == log;
  }

  // ----- Size of the table -----

  /** The number of notes in the log when the table was last swept. */
  function SweptAt(log: seq<Note>): (k: nat)
    ensures k <= |log| && |log| - k < SWEEP_EVERY_WRITES
  {
    |log| - |log| % SWEEP_EVERY_WRITES
  }

  /** Written after the last sweep, or within the TTL before it. */
  predicate Recent(log: seq<Note>, i: int)
    requires 0 <= i < |log|
  {
    var k := SweptAt(log);
    i >= k || log[i].at + TTL_MS > log[k - 1].at
  }

  ghost predicate AllRecent(t: Table, log: seq<Note>) {
    forall s | s in t.origins :: Latest(log, s) >= 0 && Recent(log, Latest(log, s))
  }

  lemma {:induction false} EntriesAreRecent(calls: seq<Call>)
    ensures Agrees(Run(calls), LogOf(calls))
    ensures AllRecent(Run(calls), LogOf(calls))
  {
    if calls != [] {
      var init, call := calls[..|calls| - 1], calls[|calls| - 1];
      EntriesAreRecent(init);
      var s, a := Normalized(call.session), Normalized(call.account);
      if call.NoteCall? && s != "" && a != "" {
        NotedAgrees(Run(init), LogOf(init), Note(s, a, call.now));
        NotedRecent(Run(init), LogOf(init), Note(s, a, call.now));
      } else {
        GuardRecent(Run(init), LogOf(init), call);
      }
    }
  }

  lemma GuardRecent(t: Table, log: seq<Note>, call: Call)
    requires Agrees(t, log) && AllRecent(t, log)
    ensures var t' := GuardStep(t, call.session, call.account, call.now).0;
            Agrees(t', log) && AllRecent(t', log)
  {
    GuardAgrees(t, log, call);
  }

  lemma NotedRecent(t: Table, log: seq<Note>, n: Note)
    requires Agrees(t, log) && AllRecent(t, log)
    ensures AllRecent(Noted(t, n), log + [n])
  {
    var t', log' := Noted(t, n), log + [n];
    forall s | s in t'.origins ensures Latest(log', s) >= 0 && Recent(log', Latest(log', s)) {
      LatestAppend(log, n, s);
      if s != n.session {
        assert IsLatest(t, log, s) && Recent(log, Latest(log, s));
        assert (|log| + 1) % SWEEP_EVERY_WRITES == 0 ==> log[Latest(log, s)].at + TTL_MS > n.at;
        RecentStays(log, n, Latest(log, s));
      } else {
        LastIsRecent(log, n);
      }
    }
  }

  lemma LastIsRecent(log: seq<Note>, n: Note)
    ensures Recent(log + [n], |log|)
  {
  }

  lemma RecentStays(log: seq<Note>, n: Note, i: nat)
    requires i < |log| && Recent(log, i)
    requires (|log| + 1) % SWEEP_EVERY_WRITES == 0 ==> log[i].at + TTL_MS > n.at
    ensures Recent(log + [n], i)
  {
  }

  /** The notes made up to the last sweep and still live then. */
  function LiveAtSweep(log: seq<Note>): set<nat> {
    var k := SweptAt(log);
    set i: nat | i < k && log[i].at + TTL_MS > log[k - 1].at
  }

  /** An injection into a set bounds the size. */
  lemma {:induction false} InjectionBound(keys: set<string>, log: seq<Note>, target: set<nat>)
    requires forall s | s in keys :: Latest(log, s) >= 0 && Latest(log, s) in target
    ensures |keys| <= |target|
  {
    if keys != {} {
      var s :| s in keys;
      InjectionBound(keys - {s}, log, target - {Latest(log, s)});
    }
  }

  function Positions(lo: nat, hi: nat): (r: set<nat>)
    requires lo <= hi
    ensures forall i: nat :: i in r <==> lo <= i < hi
    ensures |r| == hi - lo
    decreases hi - lo
  {
    if lo == hi then {} else Positions(lo, hi - 1) + {hi - 1}
  }

  /**
   In every reachable state the table holds at most the notes live at the last sweep
   plus the writes since, of which there are fewer than 256.
   */
  lemma TableIsBounded(calls: seq<Call>)
    ensures |Run(calls).origins| <= |LiveAtSweep(LogOf(calls))| + |LogOf(calls)| % SWEEP_EVERY_WRITES
    ensures |Run(calls).origins| <= |LiveAtSweep(LogOf(calls))| + 255
  {
    var t, log := Run(calls), LogOf(calls);
    EntriesAreRecent(calls);
    var since := Positions(SweptAt(log), |log|);
    forall s | s in t.origins.Keys ensures Latest(log, s) >= 0 && Latest(log, s) in LiveAtSweep(log) + since {
      assert Recent(log, Latest(log, s));
    }
    InjectionBound(t.origins.Keys, log, LiveAtSweep(log) + since);
  }

  // ----- The echo of one request -----

  /** A plain header record; `None` stands for a value that is not a string. */
  type HeaderRecord = seq<(string, Option<string>)>

  const TURN_STATE_HEADER := "x-codex-turn-state"

  /** The first non-blank value under a name that folds to `wanted`, trimmed; empty when absent. */
  function ReadNamed(lower: string -> string, headers: HeaderRecord, wanted: string): string
  {
    if headers == [] then ""
    else if lower(headers[0].0) == wanted && Normalized(headers[0].1) != "" then Normalized(headers[0].1)
    else ReadNamed(lower, headers[1..], wanted)
  }

  predicate SafeSessionId(s: string) {
    && 1 <= |s| <= 200
    && forall c | c in s ::
         'A' <= c <= 'Z' || 'a' <= c <= 'z' || '0' <= c <= '9' || c == '.' || c == '_' || c == ':' || c == '-'
  }

  /** Up to two hundred characters, at least one, by their codes: letters, digits, dash, dot, colon, underscore. */
  lemma SafeSessionIdIff(s: string)
    ensures SafeSessionId(s) <==>
            && s != "" && |s| < 201
            && forall i | 0 <= i < |s| :: var n := s[i] as int;
                 65 <= n <= 90 || 97 <= n <= 122 || 48 <= n <= 57 || n == 45 || n == 46 || n == 58 || n == 95
  {
    assert forall i | 0 <= i < |s| :: s[i] in s;
  }

  function ClientSessionId(lower: string -> string, headers: HeaderRecord): Option<string> {
    var dashed := ReadNamed(lower, headers, lower("session-id"));
    var underscored := ReadNamed(lower, headers, lower("session_id"));
    if SafeSessionId(dashed) then Some(dashed)
    else if SafeSessionId(underscored) then Some(underscored)
    else None
  }

  /** The guard's verdict and effect on the echo of one request. */
  function EchoStep(t: Table, lower: string -> string, headers: HeaderRecord, account: Option<string>, now: int)
    : (Table, Option<string>)
  {
    var value := ReadNamed(lower, headers, TURN_STATE_HEADER);
    var session := ClientSessionId(lower, headers);
    if value == "" then (t, None)
    else if session.None? then (t, Some(value))
    else
      var (t', foreign) := GuardStep(t, session, account, now);
      (t', if foreign then None else Some(value))
  }

  /** Field `i` has the wanted name, in any case, and a value that is not blank. */
  predicate NamedAt(lower: string -> string, headers: HeaderRecord, wanted: string, i: int) {
    && 0 <= i < |headers| && lower(headers[i].0) == wanted
    && headers[i].1.Some? && exists c | c in headers[i].1.value :: !IsSpace(c)
  }

  /** `v` is the first value that is not blank under the wanted name, trimmed; empty when there is none. */
  ghost predicate Reads(lower: string -> string, headers: HeaderRecord, wanted: string, v: string) {
    || (v == "" && forall i | 0 <= i < |headers| :: !NamedAt(lower, headers, wanted, i))
    || exists i | 0 <= i < |headers| ::
         && NamedAt(lower, headers, wanted, i) && v == Trim(headers[i].1.value)
         && forall j | 0 <= j < i :: !NamedAt(lower, headers, wanted, j)
  }

  lemma NamedIsNotBlank(lower: string -> string, headers: HeaderRecord, wanted: string, i: nat)
    requires i < |headers|
    ensures NamedAt(lower, headers, wanted, i) <==>
            lower(headers[i].0) == wanted && Normalized(headers[i].1) != ""
  {
    if headers[i].1.Some? {
      var value := headers[i].1.value;
      if Trim(value) == "" {
        BlankIsSpaces(value);
      } else {
        TrimResult(value);
        assert Trim(value)[0] in value && !IsSpace(Trim(value)[0]);
      }
    }
  }

  lemma {:induction false} ReadNamedReads(lower: string -> string, headers: HeaderRecord, wanted: string)
    ensures Reads(lower, headers, wanted, ReadNamed(lower, headers, wanted))
  {
    if headers != [] {
      NamedIsNotBlank(lower, headers, wanted, 0);
      if NamedAt(lower, headers, wanted, 0) {
        assert ReadNamed(lower, headers, wanted) == Trim(headers[0].1.value);
      } else {
        ReadNamedReads(lower, headers[1..], wanted);
        ReadsShift(lower, headers, wanted, ReadNamed(lower, headers[1..], wanted));
      }
    }
  }

  lemma ReadsShift(lower: string -> string, headers: HeaderRecord, wanted: string, v: string)
    requires headers != [] && !NamedAt(lower, headers, wanted, 0) && Reads(lower, headers[1..], wanted, v)
    ensures Reads(lower, headers, wanted, v)
  {
    var tail := headers[1..];
    forall j | 0 < j < |headers| ensures NamedAt(lower, headers, wanted, j) <==> NamedAt(lower, tail, wanted, j - 1) {
      assert headers[j] == tail[j - 1];
    }
    if i :| 0 <= i < |tail| && NamedAt(lower, tail, wanted, i) && v == Trim(tail[i].1.value)
            && forall j | 0 <= j < i :: !NamedAt(lower, tail, wanted, j) {
      assert headers[i + 1] == tail[i];
      assert NamedAt(lower, headers, wanted, i + 1);
      assert forall j | 0 <= j < i + 1 :: !NamedAt(lower, headers, wanted, j);
    }
  }

  lemma ReadsOnce(lower: string -> string, headers: HeaderRecord, wanted: string, v: string)
    requires Reads(lower, headers, wanted, v)
    ensures v == ReadNamed(lower, headers, wanted)
  {
    ReadNamedReads(lower, headers, wanted);
  }

  /** The log knows a live foreign note of session `s` that is not forgotten. */
  ghost predicate IsForeign(calls: seq<Call>, s: string, account: Option<string>, now: int) {
    KnownForeign(LogOf(calls), Some(s), account, now) && !Forgotten(calls, s)
  }

  /**
   What the echo of a request is, read off its headers: nothing without a value; otherwise the value,
   unless the session is foreign. The session is the one under `session-id` when that is safe, else the
   one under `session_id` when that is safe; without a safe one the value is passed on.
   */
  ghost predicate IsEcho(
    calls: seq<Call>, account: Option<string>, now: int, value: string, dashed: string, underscored: string,
    echo: Option<string>)
  {
    if value == "" then echo == None
    else if SafeSessionId(dashed) then echo == if IsForeign(calls, dashed, account, now) then None else Some(value)
    else if SafeSessionId(underscored) then
      echo == if IsForeign(calls, underscored, account, now) then None else Some(value)
    else echo == Some(value)
  }

  lemma SafeIsTrimmed(s: string)
    requires SafeSessionId(s)
    ensures Trim(s) == s
  {
    assert s[0] in s && s[|s| - 1] in s;
    TrimFixpoint(s);
  }

  /** The echo is decided by three header values, whichever way they are read. */
  lemma EchoFollowsHeaders(
    calls: seq<Call>, lower: string -> string, headers: HeaderRecord, account: Option<string>, now: int,
    value: string, dashed: string, underscored: string)
    requires Reads(lower, headers, "x-codex-turn-state", value)
    requires Reads(lower, headers, lower("session-id"), dashed)
    requires Reads(lower, headers, lower("session_id"), underscored)
    ensures IsEcho(calls, account, now, value, dashed, underscored,
                   EchoStep(Run(calls), lower, headers, account, now).1)
  {
    ReadsOnce(lower, headers, "x-codex-turn-state", value);
    ReadsOnce(lower, headers, lower("session-id"), dashed);
    ReadsOnce(lower, headers, lower("session_id"), underscored);
    EchoDroppedOnlyWhenForeign(calls, lower, headers, account, now);
    if SafeSessionId(dashed) {
      SafeIsTrimmed(dashed);
    }
    if SafeSessionId(underscored) {
      SafeIsTrimmed(underscored);
    }
  }

  /** The session is there, known to be foreign, and not forgotten. */
  ghost predicate IsStripped(calls: seq<Call>, session: Option<string>, account: Option<string>, now: int) {
    session.Some? && KnownForeign(LogOf(calls), session, account, now) && !Forgotten(calls, Normalized(session))
  }

  /** The echo is passed on as it was read, or dropped because its provenance is known to be foreign. */
  lemma EchoDroppedOnlyWhenForeign(
    calls: seq<Call>, lower: string -> string, headers: HeaderRecord, account: Option<string>, now: int)
    ensures var value := ReadNamed(lower, headers, TURN_STATE_HEADER);
            var session := ClientSessionId(lower, headers);
            var echo := EchoStep(Run(calls), lower, headers, account, now).1;
            && (echo.Some? ==> echo.value == value)
            && (echo.None? <==> value == "" || IsStripped(calls, session, account, now))
    ensures var value := ReadNamed(lower, headers, TURN_STATE_HEADER);
            var session := ClientSessionId(lower, headers);
            var echo := EchoStep(Run(calls), lower, headers, account, now).1;
            NonDecreasing(calls + [GuardCall(session, account, now)]) ==>
              (echo.None? <==> value == "" || (session.Some? && KnownForeign(LogOf(calls), session, account, now)))
  {
    var session := ClientSessionId(lower, headers);
    GuardAnyClock(calls, session, account, now);
    if NonDecreasing(calls + [GuardCall(session, account, now)]) {
      GuardMatchesLog(calls, session, account, now);
    }
  }

  // ----- The module state, updated in place -----

  /** The origins map and the write counter, with the calls made on them so far. */
  class TurnStateTable {
    var origins: map<string, Origin>
    var writes: nat
    ghost var calls: seq<Call>

    ghost predicate Valid()
      reads this
    {
      Table(origins, writes) == Run(calls)
    }

    constructor ()
      ensures Valid() && calls == []
    {
      origins, writes, calls := map[], 0, [];
    }

    method SweepExpired(now: int)
      modifies this`origins
      ensures origins == Swept(old(origins), now)
    {
      var todo := origins.Keys;
      while todo != {}
        invariant todo <= old(origins.Keys)
        invariant origins ==
                  map k | k in old(origins) && (k in todo || old(origins)[k].expiresAt > now) :: old(origins)[k]
        decreases todo
      {
        var key :| key in todo;
        if origins[key].expiresAt <= now {
          origins := origins - {key};
        }
        todo := todo - {key};
      }
    }

    /** Overwrite and count; sweep on every 256th write. Notes without a session or an account are ignored. */
    method NoteProvenance(session: Option<string>, account: Option<string>, now: int)
      requires Valid()
      modifies this
      ensures Valid() && calls == old(calls) + [NoteCall(session, account, now)]
      ensures Table(origins, writes) == NoteStep(Table(old(origins), old(writes)), session, account, now)
    {
      calls := calls + [NoteCall(session, account, now)];
      var s, a := Normalized(session), Normalized(account);
      if s == "" || a == "" {
        return;
      }
      Write(Note(s, a, now));
    }

    method Write(n: Note)
      modifies this`origins, this`writes
      ensures Table(origins, writes) == Noted(Table(old(origins), old(writes)), n)
    {
      origins := origins[n.session := Origin(n.account, n.at + TTL_MS)];
      writes := writes + 1;
      if writes % SWEEP_EVERY_WRITES == 0 {
        SweepExpired(n.at);
      }
    }

    /** True exactly for a known foreign origin not forgotten; for every known one when the clock never went back. */
    method IsCrossAccount(session: Option<string>, account: Option<string>, now: int) returns (foreign: bool)
      requires Valid()
      modifies this
      ensures Valid() && calls == old(calls) + [GuardCall(session, account, now)]
      ensures (Table(origins, writes), foreign) == GuardStep(Table(old(origins), old(writes)), session, account, now)
      ensures foreign <==> KnownForeign(LogOf(old(calls)), session, account, now)
                           && !Forgotten(old(calls), Normalized(session))
      ensures NonDecreasing(calls) ==> (foreign <==> KnownForeign(LogOf(old(calls)), session, account, now))
    {
      ghost var before := calls;
      GuardAnyClock(before, session, account, now);
      if NonDecreasing(before + [GuardCall(session, account, now)]) {
        GuardMatchesLog(before, session, account, now);
      }
      calls := calls + [GuardCall(session, account, now)];
      var s, a := Normalized(session), Normalized(account);
      if s == "" || a == "" || s !in origins {
        return false;
      }
      if origins[s].expiresAt <= now {
        origins := origins - {s};
        return false;
      }
      return origins[s].accountKey != a;
    }

    method ResolveEcho(lower: string -> string, headers: HeaderRecord, account: Option<string>, now: int)
      returns (echo: Option<string>)
      requires Valid()
      modifies this
      ensures Valid()
      ensures calls == old(calls) || calls == old(calls) + [GuardCall(ClientSessionId(lower, headers), account, now)]
      ensures (Table(origins, writes), echo) == EchoStep(Table(old(origins), old(writes)), lower, headers, account, now)
      ensures var value, session := ReadNamed(lower, headers, TURN_STATE_HEADER), ClientSessionId(lower, headers);
              echo == if value == "" || IsStripped(old(calls), session, account, now) then None else Some(value)
      ensures exists value, dashed, underscored ::
                && Reads(lower, headers, "x-codex-turn-state", value)
                && Reads(lower, headers, lower("session-id"), dashed)
                && Reads(lower, headers, lower("session_id"), underscored)
                && IsEcho(old(calls), account, now, value, dashed, underscored, echo)
    {
      EchoDroppedOnlyWhenForeign(calls, lower, headers, account, now);
      ReadNamedReads(lower, headers, "x-codex-turn-state");
      ReadNamedReads(lower, headers, lower("session-id"));
      ReadNamedReads(lower, headers, lower("session_id"));
      EchoFollowsHeaders(
        calls, lower, headers, account, now, ReadNamed(lower, headers, "x-codex-turn-state"),
        ReadNamed(lower, headers, lower("session-id")), ReadNamed(lower, headers, lower("session_id")));
      var value := ReadNamed(lower, headers, TURN_STATE_HEADER);
      if value == "" {
        return None;
      }
      var session := ClientSessionId(lower, headers);
      if session.Some? {
        var foreign := IsCrossAccount(session, account, now);
        if foreign {
          return None;
        }
      }
      return Some(value);
    }
  }
}
