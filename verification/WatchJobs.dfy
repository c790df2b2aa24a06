/** The debounce timers of the watcher and the job counter that Close waits on. Timers fire
    without the watcher's mutex, so a callback can start between any two statements of the
    code that schedules or disarms; every step below is one such statement. */
module WatchJobs {

  /** Armed: not fired yet. Started: the callback runs but has not taken the mutex yet.
      Detached: it has let go of its pending entry and does its work. */
  datatype Phase = Armed | Started | Detached | Finished | Stopped
  datatype Timer = Timer(key: string, phase: Phase)

  /** What the holder of the mutex is doing. */
  datatype Holder =
    | Free
    | Starting(key: string)
    | Publishing(key: string, id: nat)
    | Disarming(todo: set<string>)

  /** Timers are named by their position; `jobs` is the wait group's counter. */
  datatype State = State(timers: seq<Timer>, pending: map<string, nat>, jobs: int, holder: Holder)

  datatype Step =
    | BeginSchedule(key: string)
    | StartTimer
    | Publish
    | Fire(id: nat)
    | Detach(id: nat)
    | Finish(id: nat)
    | BeginDisarm
    | StopOne(key: string)
    | EndDisarm

  const INITIAL := State([], map[], 0, Free)

  predicate IsIn(s: State, id: nat, phase: Phase) {
    id < |s.timers| && s.timers[id].phase == phase
  }

  /** The pending timer of a key, if it can still be stopped. */
  predicate Stoppable(s: State, key: string) {
    key in s.pending && IsIn(s, s.pending[key], Armed)
  }

  function Move(s: State, id: nat, phase: Phase): State
    requires id < |s.timers|
  {
    s.(timers := s.timers[id := s.timers[id].(phase := phase)])
  }

  predicate Enabled(s: State, step: Step) {
    match step
    case BeginSchedule(_) => s.holder.Free?
    case StartTimer => s.holder.Starting?
    case Publish => s.holder.Publishing?
    case Fire(id) => IsIn(s, id, Armed)
    case Detach(id) => IsIn(s, id, Started) && s.holder.Free?
    case Finish(id) => IsIn(s, id, Detached)
    case BeginDisarm => s.holder.Free?
    case StopOne(key) => s.holder.Disarming? && key in s.holder.todo
    case EndDisarm => s.holder == Disarming({})
  }

  function Take(s: State, step: Step): State
    requires Enabled(s, step)
  {
    match step
    case BeginSchedule(key) =>
      if Stoppable(s, key) then Move(s, s.pending[key], Stopped).(holder := Starting(key))
      else s.(jobs := s.jobs + 1, holder := Starting(key))
    case StartTimer =>
      s.(timers := s.timers + [Timer(s.holder.key, Armed)], holder := Publishing(s.holder.key, |s.timers|))
    case Publish => s.(pending := s.pending[s.holder.key := s.holder.id], holder := Free)
    case Fire(id) => Move(s, id, Started)
    case Detach(id) =>
      var key := s.timers[id].key;
      var own := key in s.pending && s.pending[key] == id;
      Move(s, id, Detached).(pending := if own then s.pending - {key} else s.pending)
    case Finish(id) => Move(s, id, Finished).(jobs := s.jobs - 1)
    case BeginDisarm => s.(holder := Disarming(s.pending.Keys))
    case StopOne(key) =>
      var stopped := if Stoppable(s, key) then Move(s, s.pending[key], Stopped).(jobs := s.jobs - 1) else s;
      stopped.(holder := Disarming(s.holder.todo - {key}))
    case EndDisarm => s.(pending := map[], holder := Free)
  }

  predicate CanRun(s: State, steps: seq<Step>)
    decreases |steps|
  {
    steps == [] || (Enabled(s, steps[0]) && CanRun(Take(s, steps[0]), steps[1..]))
  }

  function Run(s: State, steps: seq<Step>): State
    requires CanRun(s, steps)
    decreases |steps|
  {
    if steps == [] then s else Run(Take(s, steps[0]), steps[1..])
  }

  lemma {:induction false} RunInTwoParts(s: State, a: seq<Step>, b: seq<Step>)
    requires CanRun(s, a + b)
    ensures CanRun(s, a) && CanRun(Run(s, a), b) && Run(s, a + b) == Run(Run(s, a), b)
    decreases |a|
  {
    if a == [] {
      assert a + b == b;
    } else {
      assert (a + b)[1..] == a[1..] + b;
      RunInTwoParts(Take(s, a[0]), a[1..], b);
    }
  }

  lemma {:induction false} RunJoined(s: State, a: seq<Step>, b: seq<Step>)
    requires CanRun(s, a) && CanRun(Run(s, a), b)
    ensures CanRun(s, a + b) && Run(s, a + b) == Run(Run(s, a), b)
    decreases |a|
  {
    if a == [] {
      assert a + b == b;
    } else {
      assert (a + b)[1..] == a[1..] + b;
      RunJoined(Take(s, a[0]), a[1..], b);
    }
  }

  // ---- What every interleaving keeps ----

  function Weight(t: Timer): nat {
    if t.phase.Armed? || t.phase.Started? || t.phase.Detached? then 1 else 0
  }

  /** Timers that are armed or whose callback has started and not finished. */
  function Live(timers: seq<Timer>): nat {
    if timers == [] then 0 else Weight(timers[0]) + Live(timers[1..])
  }

  function Reserved(h: Holder): nat {
    if h.Starting? then 1 else 0
  }

  /** Where an armed timer can be found: under its key, or in the hands of the scheduler
      that has started it and not stored it yet. A disarm has not come to it yet. */
  ghost predicate Reachable(s: State, id: nat)
    requires id < |s.timers|
  {
    var key := s.timers[id].key;
    || s.holder == Publishing(key, id)
    || (&& key in s.pending && s.pending[key] == id
        && (s.holder.Disarming? ==> key in s.holder.todo)
        && ((s.holder.Starting? || s.holder.Publishing?) ==> s.holder.key != key))
  }

  ghost predicate Inv(s: State) {
    && s.jobs == Live(s.timers) + Reserved(s.holder)
    && (forall key :: key in s.pending ==> s.pending[key] < |s.timers| && s.timers[s.pending[key]].key == key)
    && (forall id: nat :: IsIn(s, id, Armed) ==> Reachable(s, id))
    && (s.holder.Publishing? ==> s.holder.id < |s.timers| && s.timers[s.holder.id].key == s.holder.key)
  }

  lemma {:induction false} LiveMoved(timers: seq<Timer>, id: nat, t: Timer)
    requires id < |timers|
    ensures Live(timers[id := t]) == Live(timers) - Weight(timers[id]) + Weight(t)
  {
    if id > 0 {
      LiveMoved(timers[1..], id - 1, t);
      assert timers[id := t][1..] == timers[1..][id - 1 := t];
    } else {
      assert timers[id := t][1..] == timers[1..];
    }
  }

  lemma {:induction false} LiveSnoc(timers: seq<Timer>, t: Timer)
    ensures Live(timers + [t]) == Live(timers) + Weight(t)
  {
    if timers == [] {
      assert [t][1..] == [];
    } else {
      LiveSnoc(timers[1..], t);
      assert (timers + [t])[1..] == timers[1..] + [t];
    }
  }

  /** Changing the phase of one timer, not to armed, changes only the count. */
  lemma MoveKeeps(s: State, id: nat, phase: Phase)
    requires Inv(s) && id < |s.timers| && phase != Armed
    ensures var after := Move(s, id, phase);
      && Live(after.timers) == Live(s.timers) - Weight(s.timers[id]) + Weight(Timer("", phase))
      && (forall i: nat :: IsIn(after, i, Armed) <==> i != id && IsIn(s, i, Armed))
      && (forall i: nat :: i < |s.timers| ==> after.timers[i].key == s.timers[i].key)
  {
    LiveMoved(s.timers, id, s.timers[id].(phase := phase));
  }

  lemma StepKeepsInv(s: State, step: Step)
    requires Inv(s) && Enabled(s, step)
    ensures Inv(Take(s, step))
  {
    match step
    case BeginSchedule(key) => BeginScheduleKeepsInv(s, key);
    case StartTimer => StartKeepsInv(s);
    case Publish => PublishKeepsInv(s);
    case Fire(id) => OnwardKeepsInv(s, step);
    case Detach(id) => DetachKeepsInv(s, id);
    case Finish(id) => OnwardKeepsInv(s, step);
    case BeginDisarm => BeginDisarmKeepsInv(s);
    case StopOne(key) => StopOneKeepsInv(s, key);
    case EndDisarm => EndDisarmKeepsInv(s);
  }

  lemma BeginDisarmKeepsInv(s: State)
    requires Inv(s) && s.holder.Free?
    ensures Inv(Take(s, BeginDisarm))
  {
    var after := Take(s, BeginDisarm);
    forall id: nat | IsIn(after, id, Armed) ensures Reachable(after, id) {
      assert IsIn(s, id, Armed) && Reachable(s, id);
    }
  }

  lemma EndDisarmKeepsInv(s: State)
    requires Inv(s) && Enabled(s, EndDisarm)
    ensures Inv(Take(s, EndDisarm))
  {
    forall id: nat ensures !IsIn(Take(s, EndDisarm), id, Armed) {
      if IsIn(s, id, Armed) { assert Reachable(s, id); }
    }
  }

  lemma BeginScheduleKeepsInv(s: State, key: string)
    requires Inv(s) && s.holder.Free?
    ensures Inv(Take(s, BeginSchedule(key)))
  {
    if Stoppable(s, key) { MoveKeeps(s, s.pending[key], Stopped); }
    var after := Take(s, BeginSchedule(key));
    forall id: nat | IsIn(after, id, Armed) ensures Reachable(after, id) {
      assert IsIn(s, id, Armed) && Reachable(s, id);
    }
  }

  lemma OnwardKeepsInv(s: State, step: Step)
    requires Inv(s) && Enabled(s, step) && (step.Fire? || step.Finish?)
    ensures Inv(Take(s, step))
  {
    MoveKeeps(s, step.id, if step.Fire? then Started else Finished);
    var after := Take(s, step);
    forall id: nat | IsIn(after, id, Armed) ensures Reachable(after, id) {
      assert IsIn(s, id, Armed) && Reachable(s, id);
    }
  }

  lemma DetachKeepsInv(s: State, id: nat)
    requires Inv(s) && Enabled(s, Detach(id))
    ensures Inv(Take(s, Detach(id)))
  {
    MoveKeeps(s, id, Detached);
    var after := Take(s, Detach(id));
    forall i: nat | IsIn(after, i, Armed) ensures Reachable(after, i) {
      assert i != id && IsIn(s, i, Armed) && Reachable(s, i);
    }
  }

  lemma StopOneKeepsInv(s: State, key: string)
    requires Inv(s) && Enabled(s, StopOne(key))
    ensures Inv(Take(s, StopOne(key)))
  {
    if Stoppable(s, key) { MoveKeeps(s, s.pending[key], Stopped); }
    var after := Take(s, StopOne(key));
    forall id: nat | IsIn(after, id, Armed) ensures Reachable(after, id) {
      assert IsIn(s, id, Armed) && Reachable(s, id);
    }
  }

  lemma StartKeepsInv(s: State)
    requires Inv(s) && s.holder.Starting?
    ensures Inv(Take(s, StartTimer))
  {
    LiveSnoc(s.timers, Timer(s.holder.key, Armed));
    var after := Take(s, StartTimer);
    forall id: nat | IsIn(after, id, Armed) ensures Reachable(after, id) {
      if id < |s.timers| { assert Reachable(s, id) && after.timers[id] == s.timers[id]; }
    }
  }

  lemma PublishKeepsInv(s: State)
    requires Inv(s) && s.holder.Publishing?
    ensures Inv(Take(s, Publish))
  {
    var after := Take(s, Publish);
    forall id: nat | IsIn(after, id, Armed) ensures Reachable(after, id) {
      assert IsIn(s, id, Armed) && Reachable(s, id);
    }
  }

  /** The counter balances in every interleaving, and never goes negative. */
  lemma {:induction false} RunKeepsInv(s: State, steps: seq<Step>)
    requires Inv(s) && CanRun(s, steps)
    ensures Inv(Run(s, steps)) && Run(s, steps).jobs >= 0
    decreases |steps|
  {
    if steps != [] {
      StepKeepsInv(s, steps[0]);
      RunKeepsInv(Take(s, steps[0]), steps[1..]);
    }
  }

  /** Every timer has been stopped or its callback has finished. */
  ghost predicate AllOver(timers: seq<Timer>) {
    forall id :: 0 <= id < |timers| ==> timers[id].phase.Finished? || timers[id].phase.Stopped?
  }

  lemma {:induction false} NothingLive(timers: seq<Timer>)
    ensures Live(timers) == 0 <==> AllOver(timers)
  {
    if timers != [] {
      NothingLive(timers[1..]);
      forall id | 0 < id < |timers| ensures timers[id] == timers[1..][id - 1] {}
      if Live(timers) == 0 {
        forall id | 0 <= id < |timers| ensures timers[id].phase.Finished? || timers[id].phase.Stopped? {
          if id > 0 { assert timers[id] == timers[1..][id - 1]; }
        }
      }
    }
  }

  /** In every run, an armed timer is the pending entry of its key whenever the mutex is
      free; the moment a disarm lets go of the mutex, no timer is armed; and the wait group
      is at zero exactly when no timer is armed and no callback is in flight. */
  lemma EveryRun(steps: seq<Step>)
    requires CanRun(INITIAL, steps)
    ensures var s := Run(INITIAL, steps);
      s.holder.Free? ==>
        && (forall id: nat :: IsIn(s, id, Armed) ==> s.timers[id].key in s.pending && s.pending[s.timers[id].key] == id)
        && (s.jobs == 0 <==> AllOver(s.timers))
        && (steps != [] && steps[|steps| - 1] == EndDisarm ==> forall id: nat :: !IsIn(s, id, Armed))
  {
    RunKeepsInv(INITIAL, steps);
    NothingLive(Run(INITIAL, steps).timers);
    if steps != [] && steps[|steps| - 1] == EndDisarm {
      var before := steps[..|steps| - 1];
      assert steps == before + [EndDisarm];
      RunInTwoParts(INITIAL, before, [EndDisarm]);
      RunKeepsInv(INITIAL, before);
      var s := Run(INITIAL, before);
      assert Run(s, [EndDisarm]) == Take(s, EndDisarm) by { assert [EndDisarm][1..] == []; }
    }
  }

  // ---- A scheduled key gets its callback ----

  /** The steps that can stop a timer of this key. */
  predicate MayStop(step: Step, key: string) {
    step == BeginSchedule(key) || step == StopOne(key)
  }

  lemma StillArmed(s: State, step: Step, id: nat)
    requires Inv(s) && Enabled(s, step) && IsIn(s, id, Armed)
    requires step != Fire(id) && !MayStop(step, s.timers[id].key)
    ensures IsIn(Take(s, step), id, Armed) && Take(s, step).timers[id].key == s.timers[id].key
  {
  }

  lemma {:induction false} ArmedUntilFired(s: State, steps: seq<Step>, id: nat)
    requires Inv(s) && CanRun(s, steps) && IsIn(s, id, Armed)
    requires forall step :: step in steps ==> !MayStop(step, s.timers[id].key)
    ensures !IsIn(Run(s, steps), id, Armed) <==> Fire(id) in steps
    decreases |steps|
  {
    if steps != [] {
      var next := Take(s, steps[0]);
      StepKeepsInv(s, steps[0]);
      assert steps == [steps[0]] + steps[1..];
      if steps[0] == Fire(id) {
        NeverArmedAgain(next, steps[1..], id);
      } else {
        StillArmed(s, steps[0], id);
        ArmedUntilFired(next, steps[1..], id);
      }
    }
  }

  lemma {:induction false} NeverArmedAgain(s: State, steps: seq<Step>, id: nat)
    requires CanRun(s, steps) && id < |s.timers| && !IsIn(s, id, Armed)
    ensures id < |Run(s, steps).timers| && !IsIn(Run(s, steps), id, Armed)
    decreases |steps|
  {
    if steps != [] { NeverArmedAgain(Take(s, steps[0]), steps[1..], id); }
  }

  /** After the last schedule of a key, and unless a disarm stops it, the timer it started
      stays armed until its callback begins: once it is no longer armed, it has fired. */
  lemma LastScheduleFires(before: seq<Step>, after: seq<Step>, key: string)
    requires CanRun(INITIAL, before) && Run(INITIAL, before).holder == Starting(key)
    requires CanRun(INITIAL, before + [StartTimer] + after)
    requires forall step :: step in after ==> !MayStop(step, key)
    ensures var id := |Run(INITIAL, before).timers|;
      !IsIn(Run(INITIAL, before + [StartTimer] + after), id, Armed) <==> Fire(id) in after
  {
    RunInTwoParts(INITIAL, before + [StartTimer], after);
    RunInTwoParts(INITIAL, before, [StartTimer]);
    RunKeepsInv(INITIAL, before + [StartTimer]);
    var s := Run(INITIAL, before);
    assert Run(s, [StartTimer]) == Take(s, StartTimer) by { assert [StartTimer][1..] == []; }
    ArmedUntilFired(Take(s, StartTimer), after, |s.timers|);
  }

  // ---- Close ----

  function Left(t: Timer): nat {
    match t.phase
    case Armed => 3
    case Started => 2
    case Detached => 1
    case _ => 0
  }

  /** Steps that the callbacks have left to take. */
  function Remaining(timers: seq<Timer>): nat {
    if timers == [] then 0 else Left(timers[0]) + Remaining(timers[1..])
  }

  lemma {:induction false} RemainingMoved(timers: seq<Timer>, id: nat, t: Timer)
    requires id < |timers|
    ensures Remaining(timers[id := t]) == Remaining(timers) - Left(timers[id]) + Left(t)
  {
    if id > 0 {
      RemainingMoved(timers[1..], id - 1, t);
      assert timers[id := t][1..] == timers[1..][id - 1 := t];
    } else {
      assert timers[id := t][1..] == timers[1..];
    }
  }

  function NextStep(phase: Phase, id: nat): Step {
    if phase.Armed? then Fire(id) else if phase.Started? then Detach(id) else Finish(id)
  }

  predicate IsCallbackStep(step: Step) {
    step.Fire? || step.Detach? || step.Finish?
  }

  /** Waiting for the counter ends: with the mutex free, the counter is positive exactly when
      a timer can still take a step, and each such step uses one of finitely many up. */
  lemma WaitingEnds(s: State)
    requires Inv(s) && s.holder.Free?
    ensures s.jobs > 0 <==> exists step :: IsCallbackStep(step) && Enabled(s, step)
    ensures forall step :: IsCallbackStep(step) && Enabled(s, step) ==>
      Take(s, step).holder.Free? && Remaining(Take(s, step).timers) == Remaining(s.timers) - 1
  {
    NothingLive(s.timers);
    if id :| 0 <= id < |s.timers| && !(s.timers[id].phase.Finished? || s.timers[id].phase.Stopped?) {
      var step := NextStep(s.timers[id].phase, id);
      assert IsCallbackStep(step) && Enabled(s, step);
    }
    forall step | IsCallbackStep(step) && Enabled(s, step)
      ensures s.jobs > 0 && Remaining(Take(s, step).timers) == Remaining(s.timers) - 1
    {
      CallbackUsesUp(s, step);
    }
  }

  lemma CallbackUsesUp(s: State, step: Step)
    requires Inv(s) && s.holder.Free? && IsCallbackStep(step) && Enabled(s, step)
    ensures s.jobs > 0 && Remaining(Take(s, step).timers) == Remaining(s.timers) - 1
  {
    NothingLive(s.timers);
    RemainingMoved(s.timers, step.id, Take(s, step).timers[step.id]);
  }

  // ---- The code that runs under the mutex ----

  class Watcher {
    var timers: seq<Timer>
    var pending: map<string, nat>
    var jobs: int

    function Now(): State reads this {
      State(timers, pending, jobs, Free)
    }

    constructor ()
      ensures Now() == INITIAL
    {
      timers, pending, jobs := [], map[], 0;
    }

    /** Reports whether the timer was still armed. */
    method StopTimer(id: nat) returns (stopped: bool)
      requires id < |timers|
      modifies this`timers
      ensures stopped == old(timers)[id].phase.Armed?
      ensures timers == if stopped then old(timers)[id := old(timers)[id].(phase := Stopped)] else old(timers)
    {
      stopped := timers[id].phase.Armed?;
      if stopped { timers := timers[id := timers[id].(phase := Stopped)]; }
    }

    method StartJob(key: string) returns (id: nat)
      modifies this`timers
      ensures id == |old(timers)| && timers == old(timers) + [Timer(key, Armed)]
    {
      id := |timers|;
      timers := timers + [Timer(key, Armed)];
    }

    /** Undisturbed by callbacks, this is the three scheduling steps in a row. */
    method ScheduleKey(key: string)
      requires Inv(Now())
      modifies this
      ensures CanRun(old(Now()), [BeginSchedule(key), StartTimer, Publish])
      ensures Now() == Run(old(Now()), [BeginSchedule(key), StartTimer, Publish])
      ensures Inv(Now()) && key in pending && IsIn(Now(), pending[key], Armed)
    {
      ThreeSteps(Now(), BeginSchedule(key), StartTimer, Publish);
      RunKeepsInv(Now(), [BeginSchedule(key), StartTimer, Publish]);
      if key in pending {
        var stopped := StopTimer(pending[key]);
        if stopped {
          var id := StartJob(key);
          pending := pending[key := id];
          return;
        }
      }
      jobs := jobs + 1;
      var id := StartJob(key);
      pending := pending[key := id];
    }

    ghost function InDisarm(todo: set<string>): State reads this {
      Now().(holder := Disarming(todo))
    }

    method StopPending(key: string, ghost todo: set<string>)
      requires key in todo && key in pending && pending[key] < |timers|
      modifies this`timers, this`jobs
      ensures InDisarm(todo - {key}) == Take(old(InDisarm(todo)), StopOne(key))
    {
      var stopped := StopTimer(pending[key]);
      if stopped { jobs := jobs - 1; }
    }

    /** Undisturbed, this is a disarm that stops the pending timers in some order. */
    method DisarmLocked() returns (ghost order: seq<Step>)
      requires Inv(Now())
      modifies this
      ensures CanRun(old(Now()), [BeginDisarm] + order + [EndDisarm])
      ensures Now() == Run(old(Now()), [BeginDisarm] + order + [EndDisarm])
      ensures Inv(Now()) && pending == map[] && forall id: nat :: !IsIn(Now(), id, Armed)
    {
      order := [];
      ghost var begun := Take(Now(), BeginDisarm);
      StepKeepsInv(Now(), BeginDisarm);
      var todo := pending.Keys;
      while todo != {}
        invariant todo <= pending.Keys && pending == old(pending)
        invariant CanRun(begun, order) && Run(begun, order) == InDisarm(todo) && Inv(InDisarm(todo))
        decreases todo
      {
        var key :| key in todo;
        StepKeepsInv(InDisarm(todo), StopOne(key));
        OneStep(begun, order, StopOne(key));
        order := order + [StopOne(key)];
        StopPending(key, todo);
        todo := todo - {key};
      }
      StepKeepsInv(InDisarm({}), EndDisarm);
      pending := map[];
      OneStep(begun, order, EndDisarm);
      StepFirst(old(Now()), BeginDisarm, order + [EndDisarm]);
      assert [BeginDisarm] + order + [EndDisarm] == [BeginDisarm] + (order + [EndDisarm]);
    }

    /** The part of a callback that takes the mutex. */
    method DetachCallback(id: nat)
      requires IsIn(Now(), id, Started)
      modifies this
      ensures Now() == Take(old(Now()), Detach(id))
    {
      var key := timers[id].key;
      if key in pending && pending[key] == id { pending := pending - {key}; }
      timers := timers[id := timers[id].(phase := Detached)];
    }
  }

  lemma ThreeSteps(s: State, a: Step, b: Step, c: Step)
    requires Enabled(s, a) && Enabled(Take(s, a), b) && Enabled(Take(Take(s, a), b), c)
    ensures CanRun(s, [a, b, c]) && Run(s, [a, b, c]) == Take(Take(Take(s, a), b), c)
  {
    StepFirst(Take(Take(s, a), b), c, []);
    StepFirst(Take(s, a), b, [c]);
    StepFirst(s, a, [b, c]);
    assert [c] + [] == [c] && [b] + [c] == [b, c] && [a] + [b, c] == [a, b, c];
  }

  lemma OneStep(s: State, before: seq<Step>, step: Step)
    requires CanRun(s, before) && Enabled(Run(s, before), step)
    ensures CanRun(s, before + [step]) && Run(s, before + [step]) == Take(Run(s, before), step)
  {
    assert [step][1..] == [];
    RunJoined(s, before, [step]);
  }

  lemma StepFirst(s: State, step: Step, rest: seq<Step>)
    requires Enabled(s, step) && CanRun(Take(s, step), rest)
    ensures CanRun(s, [step] + rest) && Run(s, [step] + rest) == Run(Take(s, step), rest)
  {
    assert ([step] + rest)[1..] == rest;
  }
}
