/** The update checker: any number of processes share one cache file and one nonblocking
    lease. A process samples the clock, takes the lease, rereads the cache, writes the
    backoff, sends one request, and writes the outcome. It may crash anywhere, any write may
    fail, and clocks may read anything. Times are nanoseconds since the Unix epoch. */
module UpdateCheck {
  import opened Strings

  const SECOND: int := 1_000_000_000
  const MINUTE: int := 60 * SECOND
  const HOUR: int := 60 * MINUTE
  const INTERVAL: int := 24 * HOUR
  const RETRY_INTERVAL: int := HOUR

  /** The cached schedule and the last good result. */
  datatype Cache = Cache(latest: string, etag: string, lastSuccess: int, lastAttempt: int, nextCheck: int)

  predicate Due(state: Cache, now: int) {
    DueAt(state.nextCheck, state.lastAttempt, now)
  }

  predicate DueAt(nextCheck: int, lastAttempt: int, now: int) {
    || nextCheck <= now
    || nextCheck > now + INTERVAL + MINUTE
    || lastAttempt > now + 5 * MINUTE
  }

  /** Whatever is stored, a check is due now or at any time from a day and a minute on. */
  lemma DueAgainWithinADay(state: Cache, now: int, later: int)
    requires later >= now + INTERVAL + MINUTE
    ensures Due(state, now) || Due(state, later)
  {
  }

  // ---- Retry hints ----

  datatype Header = Header(seconds: Option<int>, date: Option<int>, reset: Option<int>)

  function RetryTime(h: Header, now: int): int {
    var day := INTERVAL / SECOND;
    var hinted :=
      if h.seconds.Some? && h.seconds.value > 0 then
        now + (if h.seconds.value < day then h.seconds.value else day) * SECOND
      else if h.date.Some? then h.date.value
      else now + RETRY_INTERVAL;
    var at := if h.reset.Some? && h.reset.value * SECOND > hinted then h.reset.value * SECOND else hinted;
    if at > now + INTERVAL then now + INTERVAL else at
  }

  /** A time that the headers ask to wait for. A date counts only without a positive number
      of seconds, the default only without either. */
  predicate Asks(h: Header, now: int, t: int) {
    var seconds := h.seconds.Some? && h.seconds.value > 0;
    || (seconds && t == now + h.seconds.value * SECOND)
    || (!seconds && h.date == Some(t))
    || (!seconds && h.date.None? && t == now + RETRY_INTERVAL)
    || (h.reset.Some? && t == h.reset.value * SECOND)
  }

  /** The latest of the times asked for, or a day from now when that is earlier. */
  ghost predicate LatestCapped(h: Header, now: int, at: int) {
    var cap := now + INTERVAL;
    && at <= cap && (forall t :: Asks(h, now, t) ==> t <= at || at == cap)
    && exists t :: Asks(h, now, t) && (at == t || (at == cap && t > cap))
  }

  lemma RetryHonoursHints(h: Header, now: int)
    ensures LatestCapped(h, now, RetryTime(h, now))
  {
    var hinted :=
      if h.seconds.Some? && h.seconds.value > 0 then now + h.seconds.value * SECOND
      else if h.date.Some? then h.date.value
      else now + RETRY_INTERVAL;
    assert Asks(h, now, hinted);
    if h.reset.Some? { assert Asks(h, now, h.reset.value * SECOND); }
  }

  method RetryAt(h: Header, now: int) returns (at: int)
    ensures LatestCapped(h, now, at) && at == RetryTime(h, now)
  {
    RetryHonoursHints(h, now);
    at := now + RETRY_INTERVAL;
    if h.seconds.Some? && h.seconds.value > 0 {
      var seconds := h.seconds.value;
      if seconds > INTERVAL / SECOND { seconds := INTERVAL / SECOND; }
      at := now + seconds * SECOND;
    } else if h.date.Some? {
      at := h.date.value;
    }
    if h.reset.Some? && h.reset.value * SECOND > at {
      at := h.reset.value * SECOND;
    }
    if at > now + INTERVAL { return now + INTERVAL; }
  }

  // ---- The protocol ----

  type Pid = nat

  datatype Phase =
    | Idle
    | Sampled(now: int)
    | Leased(now: int)
    | Reserved(now: int, state: Cache)
    | Requested(now: int, state: Cache)
  {
    predicate HoldsLease() {
      Leased? || Reserved? || Requested?
    }
  }

  /** A backoff that was written. `next` is the next check as stored for it, `reach` the latest
      clock reading that has shaped that time, `result` the version whose final write landed. */
  datatype Attempt = Attempt(now: int, reach: int, next: int, sent: bool, result: Option<string>)

  function Backoff(t: int): Attempt {
    Attempt(t, t, t + RETRY_INTERVAL, false, None)
  }

  datatype World = World(cache: Cache, lease: Option<Pid>, procs: map<Pid, Phase>, log: seq<Attempt>)
  {
    function Phase(p: Pid): Phase {
      if p in procs then procs[p] else Idle
    }
  }

  datatype Outcome = Success(version: string, etag: string) | Retry(header: Header) | Failure

  datatype Step =
    | Sample(p: Pid, reading: int)
    | Acquire(p: Pid)
    | Abandon(p: Pid)
    | Recheck(p: Pid, written: bool)
    | Send(p: Pid)
    | Reply(p: Pid, outcome: Outcome, clock: int, written: bool)
    | Crash(p: Pid)

  function Release(w: World, p: Pid): World {
    w.(lease := None, procs := w.procs[p := Idle])
  }

  function UpdateLast(log: seq<Attempt>, a: Attempt): seq<Attempt>
    requires log != []
  {
    log[|log| - 1 := a]
  }

  /** One atomic step, or nothing when the step is not possible. */
  function Take(w: World, step: Step): Option<World> {
    var p := step.p;
    match step
    case Sample(_, reading) =>
      if !w.Phase(p).Idle? then None
      else if !Due(w.cache, reading) then Some(w)
      else Some(w.(procs := w.procs[p := Sampled(reading)]))
    case Acquire(_) =>
      if w.Phase(p).Sampled? && w.lease.None?
      then Some(w.(lease := Some(p), procs := w.procs[p := Leased(w.Phase(p).now)])) else None
    case Abandon(_) =>
      if w.Phase(p).Sampled? then Some(w.(procs := w.procs[p := Idle])) else None
    case Recheck(_, written) =>
      if !w.Phase(p).Leased? then None
      else
        var now := w.Phase(p).now;
        if !Due(w.cache, now) || !written then Some(Release(w, p))
        else
          var state := w.cache.(lastAttempt := now, nextCheck := now + RETRY_INTERVAL);
          Some(w.(cache := state, procs := w.procs[p := Reserved(now, state)],
                  log := w.log + [Backoff(now)]))
    case Send(_) =>
      if w.Phase(p).Reserved? && w.log != [] then
        Some(w.(procs := w.procs[p := Requested(w.Phase(p).now, w.Phase(p).state)],
                log := UpdateLast(w.log, w.log[|w.log| - 1].(sent := true))))
      else None
    case Reply(_, outcome, clock, written) =>
      if w.Phase(p).Requested? && w.log != [] then Some(Finish(w, p, outcome, clock, written)) else None
    case Crash(_) =>
      Some(w.(lease := if w.Phase(p).HoldsLease() then None else w.lease, procs := w.procs[p := Idle]))
  }

  function Finish(w: World, p: Pid, outcome: Outcome, clock: int, written: bool): World
    requires w.Phase(p).Requested? && w.log != []
  {
    var now, state, last := w.Phase(p).now, w.Phase(p).state, w.log[|w.log| - 1];
    var done := Release(w, p);
    match outcome
    case Success(version, etag) =>
      if !written then done
      else done.(cache := state.(latest := version, etag := etag, lastSuccess := now, nextCheck := now + INTERVAL),
                 log := UpdateLast(w.log, last.(result := Some(version), next := now + INTERVAL)))
    case Retry(header) =>
      var at := RetryTime(header, clock);
      if at <= state.nextCheck || !written then done
      else done.(cache := state.(nextCheck := at),
                 log := UpdateLast(w.log, last.(reach := if clock > now then clock else now, next := at)))
    case Failure => done
  }

  function Run(w: World, steps: seq<Step>): Option<World>
    decreases |steps|
  {
    if steps == [] then Some(w)
    else match Take(w, steps[0])
      case None => None
      case Some(next) => Run(next, steps[1..])
  }

  lemma {:induction false} RunInTwoParts(w: World, first: seq<Step>, second: seq<Step>)
    requires Run(w, first).Some?
    ensures Run(w, first + second) == Run(Run(w, first).value, second)
    decreases |first|
  {
    if first == [] {
      assert first + second == second;
    } else {
      assert (first + second)[1..] == first[1..] + second;
      RunInTwoParts(Take(w, first[0]).value, first[1..], second);
    }
  }

  /** Any cache contents, nobody running, nothing attempted yet. */
  predicate Initial(w: World) {
    w.lease.None? && w.log == [] && forall p :: p in w.procs ==> w.procs[p].Idle?
  }

  /** A reading behind the stored schedule by more than its slack: a minute before the day that
      leads up to the stored next check, or five minutes before the attempt itself. */
  predicate Lags(previous: Attempt, now: int) {
    now + INTERVAL + MINUTE < previous.next || now + 5 * MINUTE < previous.now
  }

  /** How far apart the schedule keeps an attempt from the one before it. */
  function Gap(previous: Attempt): int {
    if previous.result.Some? then INTERVAL else RETRY_INTERVAL
  }

  /** The last version whose final write landed, with its time, or what was there before. */
  function LastGood(log: seq<Attempt>, before: (string, int)): (string, int) {
    if log == [] then before
    else
      var last := log[|log| - 1];
      if last.result.Some? then (last.result.value, last.now) else LastGood(log[..|log| - 1], before)
  }

  /** Each attempt was due by the schedule of the one before it. */
  ghost predicate Spaced(log: seq<Attempt>) {
    forall i :: 0 < i < |log| ==> DueAt(log[i - 1].next, log[i - 1].now, log[i].now)
  }

  /** What the holder of the lease relies on: the cache and the log are as it left them. */
  predicate Holds(w: World, phase: Phase) {
    phase.Reserved? || phase.Requested? ==>
      && w.log != [] && phase.state == w.cache
      && w.log[|w.log| - 1] == Backoff(phase.now).(sent := phase.Requested?)
      && w.cache.nextCheck == phase.now + RETRY_INTERVAL
  }

  ghost predicate Inv(w: World, before: (string, int)) {
    && (forall p: Pid :: w.Phase(p).HoldsLease() <==> w.lease == Some(p))
    && (w.lease.Some? ==> Holds(w, w.Phase(w.lease.value)))
    && (w.log != [] ==> Scheduled(w.cache, w.log[|w.log| - 1]))
    && (forall a :: a in w.log ==> Planned(a))
    && Spaced(w.log)
    && (w.cache.latest, w.cache.lastSuccess) == LastGood(w.log, before)
  }

  /** The cache holds the schedule of the latest attempt. */
  predicate Scheduled(cache: Cache, last: Attempt) {
    cache.lastAttempt == last.now && cache.nextCheck == last.next
  }

  predicate Planned(a: Attempt) {
    a.now + Gap(a) <= a.next <= a.reach + INTERVAL && a.now <= a.reach
  }

  lemma MoveKeepsInv(w: World, step: Step, before: (string, int))
    requires Inv(w, before) && Take(w, step).Some?
    requires step.Sample? || step.Acquire? || step.Abandon? || step.Crash?
    ensures Inv(Take(w, step).value, before)
  {
    var next := Take(w, step).value;
    assert forall q: Pid :: q != step.p ==> next.Phase(q) == w.Phase(q);
  }

  lemma RecheckKeepsInv(w: World, step: Step, before: (string, int))
    requires Inv(w, before) && Take(w, step).Some? && step.Recheck?
    ensures Inv(Take(w, step).value, before)
  {
    if Due(w.cache, w.Phase(step.p).now) && step.written {
      WrittenKeepsInv(w, step, before);
    } else {
      ReleaseKeepsInv(w, step.p, before);
    }
  }

  lemma ReleaseKeepsInv(w: World, p: Pid, before: (string, int))
    requires Inv(w, before) && w.Phase(p).HoldsLease()
    ensures Inv(Release(w, p), before)
  {
    assert forall q: Pid :: q != p ==> Release(w, p).Phase(q) == w.Phase(q);
  }

  lemma WrittenKeepsInv(w: World, step: Step, before: (string, int))
    requires Inv(w, before) && step.Recheck? && w.Phase(step.p).Leased?
    requires Due(w.cache, w.Phase(step.p).now) && step.written
    ensures Inv(Take(w, step).value, before)
  {
    var next, now := Take(w, step).value, w.Phase(step.p).now;
    BackoffLogged(w.log, now, before);
    assert forall q: Pid :: q != step.p ==> next.Phase(q) == w.Phase(q);
    assert next.log == w.log + [Backoff(now)] && next.log[|w.log|] == Backoff(now);
    assert next.Phase(step.p) == Reserved(now, next.cache);
  }

  lemma BackoffLogged(log: seq<Attempt>, now: int, before: (string, int))
    requires Spaced(log) && forall a :: a in log ==> Planned(a)
    requires log != [] ==> DueAt(log[|log| - 1].next, log[|log| - 1].now, now)
    ensures var longer := log + [Backoff(now)];
      Spaced(longer) && (forall a :: a in longer ==> Planned(a)) && LastGood(longer, before) == LastGood(log, before)
  {
    var longer := log + [Backoff(now)];
    assert longer[..|longer| - 1] == log;
  }

  lemma SendKeepsInv(w: World, step: Step, before: (string, int))
    requires Inv(w, before) && Take(w, step).Some? && step.Send?
    ensures Inv(Take(w, step).value, before)
  {
    var next := Take(w, step).value;
    assert forall q: Pid :: q != step.p ==> next.Phase(q) == w.Phase(q);
    assert next.log[..|next.log| - 1] == w.log[..|w.log| - 1];
  }

  lemma ReplyKeepsInv(w: World, step: Step, before: (string, int))
    requires Inv(w, before) && Take(w, step).Some? && step.Reply?
    ensures Inv(Take(w, step).value, before)
  {
    var next := Take(w, step).value;
    assert forall q: Pid :: q != step.p ==> next.Phase(q) == w.Phase(q);
    assert next.log[..|next.log| - 1] == w.log[..|w.log| - 1];
  }

  lemma StepKeepsInv(w: World, step: Step, before: (string, int))
    requires Inv(w, before) && Take(w, step).Some?
    ensures Inv(Take(w, step).value, before)
  {
    match step
    case Recheck(_, _) => RecheckKeepsInv(w, step, before);
    case Send(_) => SendKeepsInv(w, step, before);
    case Reply(_, _, _, _) => ReplyKeepsInv(w, step, before);
    case _ => MoveKeepsInv(w, step, before);
  }

  lemma {:induction false} RunKeepsInv(w: World, steps: seq<Step>, before: (string, int))
    requires Inv(w, before) && Run(w, steps).Some?
    ensures Inv(Run(w, steps).value, before)
    decreases |steps|
  {
    if steps != [] {
      StepKeepsInv(w, steps[0], before);
      RunKeepsInv(Take(w, steps[0]).value, steps[1..], before);
    }
  }

  /** For an attempt that is due by the schedule of the one before it, being closer than the
      gap and lagging are the same, as long as the reply to the earlier one was read within an
      hour and a minute of its reading; the fetch timeout is below a second. */
  lemma CloserExactlyWhenLagging(previous: Attempt, now: int)
    requires Planned(previous) && previous.reach <= previous.now + HOUR + MINUTE
    requires DueAt(previous.next, previous.now, now)
    ensures now < previous.now + Gap(previous) <==> Lags(previous, now)
  {
  }

  /** Over every run, consecutive attempts are closer than an hour, or than a day after a
      stored success, exactly when the later reading lags behind the stored schedule. */
  lemma ConsecutiveAttempts(w: World, steps: seq<Step>, i: nat)
    requires Initial(w) && Run(w, steps).Some?
    requires var log := Run(w, steps).value.log;
      0 < i < |log| && log[i - 1].reach <= log[i - 1].now + HOUR + MINUTE
    ensures var log := Run(w, steps).value.log;
      log[i].now < log[i - 1].now + Gap(log[i - 1]) <==> Lags(log[i - 1], log[i].now)
  {
    RunKeepsInv(w, steps, (w.cache.latest, w.cache.lastSuccess));
    var log := Run(w, steps).value.log;
    assert log[i - 1] in log;
    CloserExactlyWhenLagging(log[i - 1], log[i].now);
  }

  /** Over every run: attempts i < j with no lagging reading in between are at least an hour
      per attempt apart, and a day apart when the earlier result was stored. Requests are
      among the attempts. */
  lemma {:induction false} AttemptsAreSpaced(w: World, steps: seq<Step>, i: nat, j: nat)
    requires Initial(w) && Run(w, steps).Some?
    requires var log := Run(w, steps).value.log;
      i < j < |log| && forall k :: i < k <= j ==> !Lags(log[k - 1], log[k].now)
    ensures var log := Run(w, steps).value.log;
      log[j].now >= log[i].now + (j - i) * HOUR && (log[i].result.Some? ==> log[j].now >= log[i].now + INTERVAL)
    decreases j
  {
    LaterByGap(w, steps, j);
    if j > i + 1 { AttemptsAreSpaced(w, steps, i, j - 1); }
  }

  lemma LaterByGap(w: World, steps: seq<Step>, j: nat)
    requires Initial(w) && Run(w, steps).Some?
    requires var log := Run(w, steps).value.log; 0 < j < |log| && !Lags(log[j - 1], log[j].now)
    ensures var log := Run(w, steps).value.log; log[j].now >= log[j - 1].now + Gap(log[j - 1])
  {
    RunKeepsInv(w, steps, (w.cache.latest, w.cache.lastSuccess));
    assert Run(w, steps).value.log[j - 1] in Run(w, steps).value.log;
  }

  /** In terms of clock readings alone: the same holds when each process reads its clock no more
      than a minute behind the readings that shaped the schedule before it. */
  lemma SteadyClocksSpaceAttempts(w: World, steps: seq<Step>, i: nat, j: nat)
    requires Initial(w) && Run(w, steps).Some?
    requires var log := Run(w, steps).value.log;
      i < j < |log| && forall k :: i < k <= j ==> log[k].now + MINUTE >= log[k - 1].reach
    ensures var log := Run(w, steps).value.log;
      log[j].now >= log[i].now + (j - i) * HOUR && (log[i].result.Some? ==> log[j].now >= log[i].now + INTERVAL)
  {
    RunKeepsInv(w, steps, (w.cache.latest, w.cache.lastSuccess));
    var log := Run(w, steps).value.log;
    forall k | i < k <= j ensures !Lags(log[k - 1], log[k].now) {
      assert log[k - 1] in log && Planned(log[k - 1]);
    }
    AttemptsAreSpaced(w, steps, i, j);
  }

  /** Over every run: a failed, refused or interrupted check leaves the last good result in
      the cache, and at most one process at a time is between its backoff and its outcome. */
  lemma LastGoodResultSurvives(w: World, steps: seq<Step>, p: Pid, q: Pid)
    requires Initial(w) && Run(w, steps).Some?
    ensures var after := Run(w, steps).value;
      && (after.cache.latest, after.cache.lastSuccess) == LastGood(after.log, (w.cache.latest, w.cache.lastSuccess))
      && (after.Phase(p).HoldsLease() && after.Phase(q).HoldsLease() ==> p == q)
  {
    RunKeepsInv(w, steps, (w.cache.latest, w.cache.lastSuccess));
  }

  /** When the next attempt is possible after each kind of outcome, exactly: from the
      scheduled time on, or with a reading that lags beyond the slack. */
  lemma NextAttemptWindow(state: Cache, attempt: int, at: int, now: int)
    ensures state.lastAttempt == attempt && state.nextCheck == attempt + INTERVAL ==>
      (Due(state, now) <==> now >= attempt + INTERVAL || now < attempt - MINUTE)
    ensures state.lastAttempt == attempt && state.nextCheck == attempt + RETRY_INTERVAL ==>
      (Due(state, now) <==> now >= attempt + RETRY_INTERVAL || now < attempt - 5 * MINUTE)
    ensures state.lastAttempt == attempt && state.nextCheck == at > attempt + RETRY_INTERVAL ==>
      (Due(state, now) <==> now >= at || now < at - INTERVAL - MINUTE || now < attempt - 5 * MINUTE)
  {
  }

  function Reserve(p: Pid, t: int): seq<Step> {
    [Sample(p, t), Acquire(p), Recheck(p, true)]
  }

  /** A process that meets nobody reserves exactly when its reading is due; it then holds the
      lease with its backoff written. */
  lemma ReserveRun(w: World, p: Pid, t: int)
    requires Quiet(w)
    ensures Run(w, Reserve(p, t)).Some? <==> Due(w.cache, t)
    ensures Due(w.cache, t) ==>
      var r := Run(w, Reserve(p, t)).value; var state := w.cache.(lastAttempt := t, nextCheck := t + RETRY_INTERVAL);
      && r.cache == state && r.lease == Some(p) && r.log == w.log + [Backoff(t)]
      && forall q: Pid :: r.Phase(q) == if q == p then Reserved(t, state) else Idle
  {
    var steps := Reserve(p, t);
    var sampled := Take(w, steps[0]).value;
    assert w.Phase(p).Idle? && steps[1..][1..] == steps[2..] && steps[2..][1..] == [];
    assert Run(w, steps) == Run(sampled, steps[1..]);
    if Due(w.cache, t) {
      var leased := Take(sampled, steps[1]).value;
      var reserved := Take(leased, steps[2]).value;
      assert Run(reserved, []) == Some(reserved);
      assert Run(leased, steps[2..]) == Some(reserved);
      assert Run(sampled, steps[1..]) == Some(reserved);
      forall q: Pid ensures reserved.Phase(q) == if q == p then Reserved(t, reserved.cache) else Idle {
        assert w.Phase(q).Idle?;
      }
    } else {
      assert Run(sampled, steps[1..]) == None;
    }
  }

  lemma RunOne(w: World, step: Step)
    ensures Run(w, [step]) == Take(w, step)
  {
    assert [step][1..] == [];
  }

  /** A backoff that cannot be written ends the check before any request, and leaves no trace. */
  lemma UnwrittenBackoff(w: World, p: Pid, t: int)
    requires Quiet(w) && Due(w.cache, t)
    ensures var r := Run(w, [Sample(p, t), Acquire(p)] + [Recheck(p, false)]);
      r.Some? && Quiet(r.value) && r.value.cache == w.cache && r.value.log == w.log
  {
    var sampled := Take(w, Sample(p, t)).value;
    var leased := Take(sampled, Acquire(p)).value;
    assert [Sample(p, t), Acquire(p)][1..] == [Acquire(p)];
    RunOne(sampled, Acquire(p));
    assert Run(w, [Sample(p, t), Acquire(p)]) == Some(leased);
    RunInTwoParts(w, [Sample(p, t), Acquire(p)], [Recheck(p, false)]);
    RunOne(leased, Recheck(p, false));
    var done := Take(leased, Recheck(p, false)).value;
    forall q: Pid ensures done.Phase(q).Idle? {
      assert q != p ==> w.Phase(q).Idle? && done.Phase(q) == w.Phase(q);
    }
  }

  /** A process that finds the lease taken cannot go on and gives up without a trace. */
  lemma LeaseTaken(w: World, p: Pid, t: int)
    requires w.lease.Some? && w.Phase(p).Idle? && Due(w.cache, t)
    ensures Run(w, [Sample(p, t), Acquire(p)]).None?
    ensures var r := Run(w, [Sample(p, t), Abandon(p)]);
      r.Some? && r.value.(procs := w.procs) == w && forall q: Pid :: r.value.Phase(q) == w.Phase(q)
  {
    var sampled := Take(w, Sample(p, t)).value;
    assert [Sample(p, t), Acquire(p)][1..] == [Acquire(p)] && [Sample(p, t), Abandon(p)][1..] == [Abandon(p)];
    RunOne(sampled, Acquire(p));
    RunOne(sampled, Abandon(p));
  }

  ghost predicate Quiet(w: World) {
    w.lease.None? && forall p: Pid :: w.Phase(p).Idle?
  }

  /** The whole check of one process that meets nobody: the reply is read at `clock`, and the
      last write lands or not. */
  function RoundWith(p: Pid, t: int, outcome: Outcome, clock: int, written: bool): seq<Step> {
    Reserve(p, t) + ([Send(p)] + [Reply(p, outcome, clock, written)])
  }

  function Round(p: Pid, t: int, outcome: Outcome): seq<Step> {
    RoundWith(p, t, outcome, t, true)
  }

  /** What a round leaves in the cache: a success that was stored replaces everything, a hint
      beyond the hour moves the next check, and anything else leaves the backoff. */
  lemma WholeRound(w: World, p: Pid, t: int, outcome: Outcome, clock: int, written: bool)
    requires Quiet(w) && Due(w.cache, t)
    ensures var r := Run(w, RoundWith(p, t, outcome, clock, written));
      && r.Some? && Quiet(r.value)
      && |r.value.log| == |w.log| + 1 && r.value.log[..|w.log|] == w.log
      && (outcome.Success? && written ==>
        r.value.cache == Cache(outcome.version, outcome.etag, t, t, t + 24 * HOUR))
      && (!(outcome.Success? && written) ==>
        && r.value.cache.(lastAttempt := 0, nextCheck := 0) == w.cache.(lastAttempt := 0, nextCheck := 0)
        && r.value.cache.lastAttempt == t
        && (!(outcome.Retry? && written) ==> r.value.cache.nextCheck == t + HOUR)
        && (outcome.Retry? && written ==> forall at :: LatestCapped(outcome.header, clock, at) ==>
          r.value.cache.nextCheck == if at > t + HOUR then at else t + HOUR))
      && (outcome.Failure? ==> r.value.log == w.log + [Backoff(t).(sent := true)])
  {
    var last := Reply(p, outcome, clock, written);
    ReserveRun(w, p, t);
    RunInTwoParts(w, Reserve(p, t), [Send(p)] + [last]);
    var reserved := Run(w, Reserve(p, t)).value;
    RunOne(reserved, Send(p));
    var requested := Take(reserved, Send(p)).value;
    RunInTwoParts(reserved, [Send(p)], [last]);
    RunOne(requested, last);
    var done := Take(requested, last).value;
    forall q: Pid ensures done.Phase(q).Idle? {
      assert q != p ==> reserved.Phase(q).Idle? && done.Phase(q) == reserved.Phase(q);
    }
    if outcome.Retry? {
      RetryHonoursHints(outcome.header, clock);
      forall at | LatestCapped(outcome.header, clock, at) ensures at == RetryTime(outcome.header, clock) {
        LatestIsUnique(outcome.header, clock, at, RetryTime(outcome.header, clock));
      }
    }
  }

  lemma LatestIsUnique(h: Header, now: int, a: int, b: int)
    requires LatestCapped(h, now, a) && LatestCapped(h, now, b)
    ensures a == b
  {
  }

  /** After a failed check at `t`, exactly which readings allow the next attempt. */
  lemma AfterFailure(w: World, p: Pid, t: int, q: Pid, reading: int)
    requires Quiet(w) && Due(w.cache, t)
    ensures Run(w, Round(p, t, Failure)).Some?
    ensures Run(Run(w, Round(p, t, Failure)).value, Reserve(q, reading)).Some? <==>
      reading >= t + HOUR || reading < t - 5 * MINUTE
  {
    WholeRound(w, p, t, Failure, t, true);
    ReserveRun(Run(w, Round(p, t, Failure)).value, q, reading);
  }

  /** After a check at `t` whose reply was read at `clock` and asked to wait until `at`, exactly
      which readings allow the next attempt: from `at` on, or so far behind that the schedule is
      not believed; when the hint is within the hour or could not be stored, as after a failure. */
  lemma AfterRetry(w: World, p: Pid, t: int, h: Header, clock: int, written: bool, at: int, q: Pid, reading: int)
    requires Quiet(w) && Due(w.cache, t) && LatestCapped(h, clock, at)
    ensures var r := Run(w, RoundWith(p, t, Retry(h), clock, written));
      && r.Some?
      && (Run(r.value, Reserve(q, reading)).Some? <==>
        if written && at > t + HOUR
        then reading >= at || reading < at - 24 * HOUR - MINUTE || reading < t - 5 * MINUTE
        else reading >= t + HOUR || reading < t - 5 * MINUTE)
  {
    WholeRound(w, p, t, Retry(h), clock, written);
    ReserveRun(Run(w, RoundWith(p, t, Retry(h), clock, written)).value, q, reading);
  }

  /** After a stored success at `t`, exactly which readings allow the next attempt. */
  lemma AfterSuccess(w: World, p: Pid, t: int, version: string, etag: string, q: Pid, reading: int)
    requires Quiet(w) && Due(w.cache, t)
    ensures Run(w, Round(p, t, Success(version, etag))).Some?
    ensures Run(Run(w, Round(p, t, Success(version, etag))).value, Reserve(q, reading)).Some? <==>
      reading >= t + INTERVAL || reading < t - MINUTE
  {
    WholeRound(w, p, t, Success(version, etag), t, true);
    ReserveRun(Run(w, Round(p, t, Success(version, etag))).value, q, reading);
  }

  /** A process that dies between its backoff and its request. */
  lemma CrashingRound(w: World, p: Pid, t: int)
    requires Quiet(w) && Due(w.cache, t)
    ensures var r := Run(w, Reserve(p, t) + [Crash(p)]);
      r.Some? && Quiet(r.value) && r.value.log == w.log + [Backoff(t)]
      && r.value.cache == w.cache.(lastAttempt := t, nextCheck := t + RETRY_INTERVAL)
  {
    ReserveRun(w, p, t);
    RunInTwoParts(w, Reserve(p, t), [Crash(p)]);
    var reserved := Run(w, Reserve(p, t)).value;
    RunOne(reserved, Crash(p));
    var done := Take(reserved, Crash(p)).value;
    forall q: Pid ensures done.Phase(q).Idle? {
      assert q != p ==> reserved.Phase(q).Idle? && done.Phase(q) == reserved.Phase(q);
    }
  }

  /** A request at `t`, then a process that reads `early`, reserves, and crashes unsent. */
  function RequestThenCrash(t: int, early: int): seq<Step> {
    Round(1, t, Failure) + (Reserve(2, early) + [Crash(2)])
  }

  lemma RequestThenCrashRun(w: World, t: int, early: int)
    requires Initial(w) && Due(w.cache, t)
    ensures var steps := RequestThenCrash(t, early);
      && (Run(w, steps).Some? <==> early >= t + HOUR || early < t - 5 * MINUTE)
      && (Run(w, steps).Some? ==>
        && Quiet(Run(w, steps).value)
        && Run(w, steps).value.log == w.log + [Backoff(t).(sent := true)] + [Backoff(early)]
        && Run(w, steps).value.cache.nextCheck == early + HOUR && Run(w, steps).value.cache.lastAttempt == early)
  {
    assert Quiet(w);
    WholeRound(w, 1, t, Failure, t, true);
    RunInTwoParts(w, Round(1, t, Failure), Reserve(2, early) + [Crash(2)]);
    var after := Run(w, Round(1, t, Failure)).value;
    ReserveRun(after, 2, early);
    if Due(after.cache, early) {
      CrashingRound(after, 2, early);
    } else {
      RunStops(after, Reserve(2, early), [Crash(2)]);
    }
  }

  lemma {:induction false} RunStops(w: World, first: seq<Step>, second: seq<Step>)
    requires Run(w, first) == None
    ensures Run(w, first + second) == None
    decreases |first|
  {
    assert (first + second)[0] == first[0] && (first + second)[1..] == first[1..] + second;
    if Take(w, first[0]).Some? { RunStops(Take(w, first[0]).value, first[1..], second); }
  }

  /** Spacing is about attempts, not requests. After a request at `t`, a crash that reads
      `early` in between is possible exactly from the hour on or more than five minutes behind;
      and then a second request goes out at `late` exactly from an hour after `early`, or more
      than five minutes behind it. With `early` far enough behind, `late` may follow `t` as
      closely as one likes, though neither of the two readings lags behind the other. */
  lemma CrashResetsSchedule(w: World, t: int, early: int, late: int)
    requires Initial(w) && Due(w.cache, t)
    ensures var steps := RequestThenCrash(t, early) + Round(3, late, Failure);
      && (Run(w, steps).Some? <==>
        (early >= t + HOUR || early < t - 5 * MINUTE) && (late >= early + HOUR || late < early - 5 * MINUTE))
      && (Run(w, steps).Some? ==>
        Run(w, steps).value.log == [Backoff(t).(sent := true), Backoff(early), Backoff(late).(sent := true)])
  {
    var first, last := RequestThenCrash(t, early), Round(3, late, Failure);
    RequestThenCrashRun(w, t, early);
    if Run(w, first).None? {
      RunStops(w, first, last);
    } else {
      RunInTwoParts(w, first, last);
      var after := Run(w, first).value;
      ReserveRun(after, 3, late);
      if Due(after.cache, late) {
        WholeRound(after, 3, late, Failure, late, true);
      } else {
        RunStops(after, Reserve(3, late), [Send(3)] + [Reply(3, Failure, late, true)]);
      }
    }
  }

  /** In particular, two requests whose readings are any distance apart. */
  lemma RequestsCanBeClose(w: World, t: int, distance: int) returns (steps: seq<Step>)
    requires Initial(w) && Due(w.cache, t) && distance >= 0
    ensures Run(w, steps).Some?
    ensures var log := Run(w, steps).value.log;
      |log| == 3 && log[0].sent && !log[1].sent && log[2].sent && log[0].now == t && log[2].now == t + distance
  {
    var early := t - 2 * HOUR;
    CrashResetsSchedule(w, t, early, t + distance);
    steps := RequestThenCrash(t, early) + Round(3, t + distance, Failure);
  }
}
