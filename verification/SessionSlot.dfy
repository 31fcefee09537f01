/**
 * The session-supersession protocol of the desktop front end: `reset_session`,
 * `install_active_session` and the reconnect driver of `connect_to_server`.
 *
 * Any number of tasks interleave at the granularity of single atomic operations. One
 * `connect_to_server` call owns one generation number and one cancellation token, so tokens
 * are named by generations.
 */
module SessionSlot {
  import opened Base

  type TaskId = nat

  datatype Pc =
    /** `reset_session` has bumped the counter and has not taken the slot yet. */
    | Bumped(gen: nat, connecting: bool)
    /** The reset returned; awaiting the first `Session::connect`. */
    | Connecting(gen: nat)
    /** `install_active_session`: first load agreed. */
    | Checked(gen: nat, first: bool)
    /** Lock held, second load not done. */
    | Acquired(gen: nat, first: bool)
    /** Lock held, second load agreed. */
    | Validated(gen: nat, first: bool)
    /** Lock held, slot written. */
    | Written(gen: nat)
    /** Driving `session.run`. */
    | Running(gen: nat)
    /** In the reconnect loop. */
    | Reconnecting(gen: nat)
    /** Left the outer loop. */
    | Exiting(gen: nat)
    /** Exit load agreed; about to clear the slot. */
    | Clearing(gen: nat)
    | Done

  datatype State = State(
    generation: nat,
    slot: Option<nat>,
    holder: Option<TaskId>,
    cancelled: set<nat>,
    tasks: map<TaskId, Pc>)

  const Init := State(0, None, None, {}, map[])

  datatype Step =
    | Bump(t: TaskId, connecting: bool)
    | Take(t: TaskId)
    | ConnectFails(t: TaskId)
    | FirstCheck(t: TaskId)
    | Acquire(t: TaskId)
    | Recheck(t: TaskId)
    | Write(t: TaskId)
    | Release(t: TaskId)
    | RunEnds(t: TaskId)
    | GiveUp(t: TaskId)
    | ExitLoad(t: TaskId)
    | Clear(t: TaskId)

  // ----- atomic steps -----

  predicate Enabled(s: State, step: Step) {
    if step.Bump? then step.t !in s.tasks
    else
      && step.t in s.tasks
      && var pc := s.tasks[step.t];
         match step
         case Take(_) => pc.Bumped? && s.holder.None?
         case ConnectFails(_) => pc.Connecting?
         case FirstCheck(_) => pc.Connecting? || pc.Reconnecting?
         case Acquire(_) => pc.Checked? && s.holder.None?
         case Recheck(_) => pc.Acquired?
         case Write(_) => pc.Validated?
         case Release(_) => pc.Written?
         case RunEnds(_) => pc.Running?
         case GiveUp(_) => pc.Reconnecting?
         case ExitLoad(_) => pc.Exiting?
         case Clear(_) => pc.Clearing? && s.holder.None?
  }

  /** A superseded first install cancels its own token and stops; a reconnect leaves the loop. */
  function Superseded(s: State, t: TaskId, gen: nat, first: bool): State {
    if first then s.(cancelled := s.cancelled + {gen}, tasks := s.tasks[t := Done])
    else s.(tasks := s.tasks[t := Exiting(gen)])
  }

  function Apply(s: State, step: Step): State
    requires Enabled(s, step)
  {
    var t := step.t;
    match step
    case Bump(_, connecting) =>
      s.(generation := s.generation + 1, tasks := s.tasks[t := Bumped(s.generation + 1, connecting)])
    case Take(_) =>
      var pc := s.tasks[t];
      s.(slot := None,
         cancelled := s.cancelled + (if s.slot.Some? then {s.slot.value} else {}),
         tasks := s.tasks[t := if pc.connecting then Connecting(pc.gen) else Done])
    case ConnectFails(_) => s.(tasks := s.tasks[t := Done])
    case FirstCheck(_) =>
      var pc := s.tasks[t];
      if s.generation == pc.gen then s.(tasks := s.tasks[t := Checked(pc.gen, pc.Connecting?)])
      else Superseded(s, t, pc.gen, pc.Connecting?)
    case Acquire(_) =>
      var pc := s.tasks[t];
      s.(holder := Some(t), tasks := s.tasks[t := Acquired(pc.gen, pc.first)])
    case Recheck(_) =>
      var pc := s.tasks[t];
      if s.generation == pc.gen then s.(tasks := s.tasks[t := Validated(pc.gen, pc.first)])
      else Superseded(s.(holder := None), t, pc.gen, pc.first)
    case Write(_) =>
      var pc := s.tasks[t];
      s.(slot := Some(pc.gen), tasks := s.tasks[t := Written(pc.gen)])
    case Release(_) => s.(holder := None, tasks := s.tasks[t := Running(s.tasks[t].gen)])
    case RunEnds(_) =>
      var gen := s.tasks[t].gen;
      s.(tasks := s.tasks[t := if gen in s.cancelled then Exiting(gen) else Reconnecting(gen)])
    case GiveUp(_) => s.(tasks := s.tasks[t := Exiting(s.tasks[t].gen)])
    case ExitLoad(_) =>
      var gen := s.tasks[t].gen;
      s.(tasks := s.tasks[t := if s.generation == gen then Clearing(gen) else Done])
    case Clear(_) => s.(slot := None, tasks := s.tasks[t := Done])
  }

  /** `states` is a run of `steps` from the initial state. */
  predicate IsRun(states: seq<State>, steps: seq<Step>) {
    && |states| == |steps| + 1
    && states[0] == Init
    && forall i :: 0 <= i < |steps| ==>
                     Enabled(states[i], steps[i]) && states[i + 1] == Apply(states[i], steps[i])
  }

  // ----- the invariant -----

  predicate HasGen(pc: Pc, gen: nat) {
    !pc.Done? && pc.gen == gen
  }

  predicate HoldsLock(pc: Pc) {
    pc.Acquired? || pc.Validated? || pc.Written?
  }

  /** Reset number `gen` is between its bump and its take. */
  ghost predicate InFlight(s: State, gen: nat) {
    exists t :: t in s.tasks && s.tasks[t].Bumped? && s.tasks[t].gen == gen
  }

  /** Every reset numbered above `gen` is still between its bump and its take. */
  ghost predicate LaterResetsInFlight(s: State, gen: nat) {
    forall g :: gen < g <= s.generation ==> InFlight(s, g)
  }

  /** No two tasks share a generation, and none is ahead of the counter. */
  ghost predicate GensDistinct(s: State) {
    && (forall t :: t in s.tasks && !s.tasks[t].Done? ==> 1 <= s.tasks[t].gen <= s.generation)
    && (forall t, u :: t in s.tasks && u in s.tasks && t != u && !s.tasks[t].Done? && !s.tasks[u].Done?
                       ==> s.tasks[t].gen != s.tasks[u].gen)
  }

  ghost predicate LockDiscipline(s: State) {
    && (s.holder.Some? ==> s.holder.value in s.tasks)
    && (forall t :: t in s.tasks ==> (HoldsLock(s.tasks[t]) <==> s.holder == Some(t)))
  }

  ghost predicate SlotOk(s: State) {
    s.slot.Some? ==>
      && s.slot.value <= s.generation
      && LaterResetsInFlight(s, s.slot.value)
      && !InFlight(s, s.slot.value)
  }

  ghost predicate InstallersOk(s: State) {
    forall t :: t in s.tasks ==>
      && (s.tasks[t].Validated? ==>
            LaterResetsInFlight(s, s.tasks[t].gen)
            && (s.slot.None? || s.slot == Some(s.tasks[t].gen)))
      && (s.tasks[t].Written? ==> s.slot == Some(s.tasks[t].gen))
  }

  ghost predicate Inv(s: State) {
    GensDistinct(s) && LockDiscipline(s) && SlotOk(s) && InstallersOk(s)
  }

  // ----- every step keeps the invariant -----

  /** A step of `t` that is not a take leaves every other reset in flight. */
  lemma InFlightFrame(s: State, step: Step, gen: nat)
    requires Enabled(s, step) && GensDistinct(s)
    requires InFlight(s, gen)
    requires step.Take? ==> s.tasks[step.t].gen != gen
    ensures InFlight(Apply(s, step), gen)
  {
    var t :| t in s.tasks && s.tasks[t].Bumped? && s.tasks[t].gen == gen;
    assert t in Apply(s, step).tasks && Apply(s, step).tasks[t] == s.tasks[t];
  }

  lemma LaterResetsFrame(s: State, step: Step, gen: nat)
    requires Enabled(s, step) && GensDistinct(s) && !step.Take?
    requires LaterResetsInFlight(s, gen)
    ensures LaterResetsInFlight(Apply(s, step), gen)
  {
    var s' := Apply(s, step);
    forall g | gen < g <= s'.generation
      ensures InFlight(s', g)
    {
      if g <= s.generation {
        InFlightFrame(s, step, g);
      } else {
        assert s'.tasks[step.t].Bumped? && s'.tasks[step.t].gen == g;
      }
    }
  }

  lemma NotInFlightFrame(s: State, step: Step, gen: nat)
    requires Enabled(s, step) && gen <= s.generation && !InFlight(s, gen)
    ensures !InFlight(Apply(s, step), gen)
  {
    var s' := Apply(s, step);
    forall t | t in s'.tasks && s'.tasks[t].Bumped?
      ensures s'.tasks[t].gen != gen
    {
      assert t == step.t || (t in s.tasks && s'.tasks[t] == s.tasks[t]);
    }
  }

  /** A step moves one task, which keeps its generation, finishes, or gets the next number. */
  lemma StepMovesOne(s: State, step: Step)
    requires Enabled(s, step)
    ensures var s' := Apply(s, step);
            && s'.tasks.Keys == s.tasks.Keys + {step.t}
            && (forall u :: u in s.tasks && u != step.t ==> s'.tasks[u] == s.tasks[u])
            && var pc := s'.tasks[step.t];
               if step.Bump? then s'.generation == s.generation + 1 && HasGen(pc, s'.generation)
               else s'.generation == s.generation
                    && (pc.Done? || HasGen(s.tasks[step.t], pc.gen))
  {
    match step
    case Bump(_, _) =>
    case _ =>
  }

  lemma StepKeepsGens(s: State, step: Step)
    requires Enabled(s, step) && GensDistinct(s)
    ensures GensDistinct(Apply(s, step))
  {
    StepMovesOne(s, step);
  }

  lemma StepKeepsLock(s: State, step: Step)
    requires Enabled(s, step) && LockDiscipline(s)
    ensures LockDiscipline(Apply(s, step))
  {
    var s' := Apply(s, step);
    assert forall u :: u in s.tasks && u != step.t ==> s'.tasks[u] == s.tasks[u];
    match step
    case Bump(_, _) =>
    case Take(_) =>
    case Acquire(_) =>
    case Recheck(_) =>
    case Release(_) =>
    case _ =>
  }

  /** If the counter still reads `t`'s generation, the slot is empty or holds `t`'s own session. */
  lemma CurrentOwnsSlot(s: State, t: TaskId)
    requires Inv(s) && t in s.tasks && !s.tasks[t].Done? && !s.tasks[t].Bumped?
    requires s.generation == s.tasks[t].gen
    ensures s.slot.None? || s.slot == Some(s.tasks[t].gen)
  {
    assert !InFlight(s, s.generation);
  }

  lemma StepKeepsSlot(s: State, step: Step)
    requires Enabled(s, step) && Inv(s)
    ensures SlotOk(Apply(s, step))
  {
    var s' := Apply(s, step);
    if s'.slot.Some? {
      var gen := s'.slot.value;
      if step.Write? {
        assert !InFlight(s, gen) by {
          forall u | u in s.tasks && s.tasks[u].Bumped?
            ensures s.tasks[u].gen != gen
          {
            assert u != step.t;
          }
        }
      }
      LaterResetsFrame(s, step, gen);
      NotInFlightFrame(s, step, gen);
    }
  }

  lemma StepKeepsInstallers(s: State, step: Step)
    requires Enabled(s, step) && Inv(s)
    ensures InstallersOk(Apply(s, step))
  {
    var s' := Apply(s, step);
    forall t | t in s'.tasks && (s'.tasks[t].Validated? || s'.tasks[t].Written?)
      ensures s'.tasks[t].Validated? ==>
                LaterResetsInFlight(s', s'.tasks[t].gen)
                && (s'.slot.None? || s'.slot == Some(s'.tasks[t].gen))
      ensures s'.tasks[t].Written? ==> s'.slot == Some(s'.tasks[t].gen)
    {
      if t == step.t {
        if step.Recheck? {
          CurrentOwnsSlot(s, t);
        }
      } else {
        assert t in s.tasks && s'.tasks[t] == s.tasks[t];
        assert s.holder == Some(t);
        if s.tasks[t].Validated? {
          LaterResetsFrame(s, step, s.tasks[t].gen);
        }
      }
    }
  }

  /** Every atomic step of every task keeps the invariant. */
  lemma StepKeepsInv(s: State, step: Step)
    requires Enabled(s, step) && Inv(s)
    ensures Inv(Apply(s, step))
  {
    StepKeepsGens(s, step);
    StepKeepsLock(s, step);
    StepKeepsSlot(s, step);
    StepKeepsInstallers(s, step);
  }

  /** The invariant holds in every state of every interleaving. */
  lemma {:induction false} RunKeepsInv(states: seq<State>, steps: seq<Step>, i: nat)
    requires IsRun(states, steps) && i < |states|
    ensures Inv(states[i])
  {
    if i > 0 {
      RunKeepsInv(states, steps, i - 1);
      StepKeepsInv(states[i - 1], steps[i - 1]);
    }
  }

  // ----- consequences -----

  /**
   * In every reachable state a stored session of generation g implies that every reset
   * numbered above g is between its bump and its take; with no reset in flight the stored
   * session has the current generation.
   */
  lemma StaleSessionsArePending(states: seq<State>, steps: seq<Step>, i: nat)
    requires IsRun(states, steps) && i < |states| && states[i].slot.Some?
    ensures LaterResetsInFlight(states[i], states[i].slot.value)
    ensures (forall g :: !InFlight(states[i], g)) ==> states[i].slot.value == states[i].generation
  {
    RunKeepsInv(states, steps, i);
    var s := states[i];
    if s.slot.value < s.generation {
      assert InFlight(s, s.generation);
    }
  }

  /** An install only ever overwrites an empty slot or its own generation's session. */
  lemma InstallReplacesOnlyOwn(states: seq<State>, steps: seq<Step>, i: nat)
    requires IsRun(states, steps) && i < |steps| && steps[i].Write?
    ensures steps[i].t in states[i].tasks && states[i].tasks[steps[i].t].Validated?
    ensures var gen := states[i].tasks[steps[i].t].gen;
            && (states[i].slot.None? || states[i].slot == Some(gen))
            && states[i + 1].slot == Some(gen)
  {
    RunKeepsInv(states, steps, i);
  }

  /** The lock admits at most one installer between its acquisition and its release. */
  lemma InstallersExclude(states: seq<State>, steps: seq<Step>, i: nat, t: TaskId, u: TaskId)
    requires IsRun(states, steps) && i < |states|
    requires t in states[i].tasks && HoldsLock(states[i].tasks[t])
    requires u in states[i].tasks && HoldsLock(states[i].tasks[u])
    ensures t == u
  {
    RunKeepsInv(states, steps, i);
  }

  // ----- what a take or a clear finds in the slot -----

  /** Step `j` installs the session of generation `gen`. */
  predicate Installs(states: seq<State>, steps: seq<Step>, j: nat, gen: nat)
    requires |states| == |steps| + 1
  {
    && j < |steps| && steps[j].Write?
    && steps[j].t in states[j].tasks && HasGen(states[j].tasks[steps[j].t], gen)
  }

  /** Step `j` installed generation `gen`, and nothing emptied the slot between it and step `i`. */
  predicate InstalledSince(states: seq<State>, steps: seq<Step>, j: nat, i: nat, gen: nat)
    requires |states| == |steps| + 1 && i <= |steps|
  {
    && j < i && Installs(states, steps, j, gen)
    && forall m :: j < m < i ==> !steps[m].Take? && !steps[m].Clear?
  }

  /** No other install overwrites it, so what was installed and not emptied is still there. */
  lemma {:induction false} InstalledStays(states: seq<State>, steps: seq<Step>, j: nat, i: nat, gen: nat)
    requires IsRun(states, steps) && i <= |steps| && InstalledSince(states, steps, j, i, gen)
    ensures states[i].slot == Some(gen)
  {
    if i > j + 1 {
      InstalledStays(states, steps, j, i - 1, gen);
      if steps[i - 1].Write? {
        InstallReplacesOnlyOwn(states, steps, i - 1);
      }
    }
  }

  lemma {:induction false} SlotWasInstalled(states: seq<State>, steps: seq<Step>, i: nat) returns (j: nat)
    requires IsRun(states, steps) && i <= |steps| && states[i].slot.Some?
    ensures InstalledSince(states, steps, j, i, states[i].slot.value)
  {
    if steps[i - 1].Write? {
      j := i - 1;
    } else {
      j := SlotWasInstalled(states, steps, i - 1);
    }
  }

  /** A session of a generation above `gen` was installed before step `i` and nothing emptied the slot since. */
  ghost predicate NewerInstalled(states: seq<State>, steps: seq<Step>, i: nat, gen: nat)
    requires |states| == |steps| + 1 && i <= |steps|
  {
    exists j: nat, newer: nat :: gen < newer && InstalledSince(states, steps, j, i, newer)
  }

  /**
   * A reset's take cancels only an older generation's session, if any, exactly when no newer
   * generation's session was installed before it with the slot not emptied in between.
   */
  lemma TakeCancelsOlderIff(states: seq<State>, steps: seq<Step>, i: nat)
    requires IsRun(states, steps) && i < |steps| && steps[i].Take?
    ensures var gen := states[i].tasks[steps[i].t].gen;
            (states[i].slot.Some? ==> states[i].slot.value < gen) <==> !NewerInstalled(states, steps, i, gen)
  {
    var gen := states[i].tasks[steps[i].t].gen;
    if states[i].slot.Some? {
      RunKeepsInv(states, steps, i);
      assert InFlight(states[i], gen);
      var j := SlotWasInstalled(states, steps, i);
    }
    if NewerInstalled(states, steps, i, gen) {
      var j: nat, newer: nat :| gen < newer && InstalledSince(states, steps, j, i, newer);
      InstalledStays(states, steps, j, i, newer);
    }
  }

  /** In particular, a reset whose number is still the counter's value cancels only an older session. */
  lemma NewestResetCancelsOlder(states: seq<State>, steps: seq<Step>, i: nat)
    requires IsRun(states, steps) && i < |steps| && steps[i].Take?
    requires states[i].generation == states[i].tasks[steps[i].t].gen
    ensures !NewerInstalled(states, steps, i, states[i].generation)
    ensures states[i].slot.Some? ==> states[i].slot.value < states[i].tasks[steps[i].t].gen
  {
    RunKeepsInv(states, steps, i);
    forall j: nat, newer: nat | InstalledSince(states, steps, j, i, newer)
      ensures newer <= states[i].generation
    {
      InstalledStays(states, steps, j, i, newer);
    }
    TakeCancelsOlderIff(states, steps, i);
  }

  // ----- supervision: can the user still stop what is running? -----

  /** The task drives a session or is about to drive it again. */
  predicate Driving(pc: Pc) {
    || pc.Running? || pc.Reconnecting?
    || (pc.Checked? && !pc.first) || (pc.Acquired? && !pc.first) || (pc.Validated? && !pc.first)
  }

  /** Task `t` drives an uncancelled session. */
  predicate LiveDriver(s: State, t: TaskId) {
    t in s.tasks && Driving(s.tasks[t]) && s.tasks[t].gen !in s.cancelled
  }

  /** Every uncancelled driver's session is in the slot, where a reset will find it. */
  ghost predicate Supervised(s: State) {
    forall t :: LiveDriver(s, t) ==> s.slot == Some(s.tasks[t].gen)
  }

  /** Clearing the slot now would drop the session of a live driver. */
  ghost predicate Orphans(s: State) {
    s.slot.Some? && exists t :: LiveDriver(s, t) && s.tasks[t].gen == s.slot.value
  }

  /** One step keeps supervision exactly when it is not a clear that orphans a live driver. */
  lemma StepSupervisedIff(s: State, step: Step)
    requires Enabled(s, step) && Inv(s) && Supervised(s)
    ensures Supervised(Apply(s, step)) <==> !(step.Clear? && Orphans(s))
  {
    var s' := Apply(s, step);
    if step.Clear? {
      if Orphans(s) {
        var t :| LiveDriver(s, t) && s.tasks[t].gen == s.slot.value;
        assert LiveDriver(s', t);
      } else {
        assert forall t :: LiveDriver(s', t) ==> LiveDriver(s, t);
      }
    } else {
      forall t | LiveDriver(s', t)
        ensures s'.slot == Some(s'.tasks[t].gen)
      {
        if t != step.t {
          assert LiveDriver(s, t);
        }
      }
    }
  }

  /** A clear that finds the slot empty or holding its own generation orphans nobody. */
  lemma OwnClearIsSafe(s: State, t: TaskId)
    requires Inv(s) && t in s.tasks && s.tasks[t].Clearing?
    requires s.slot.None? || s.slot == Some(s.tasks[t].gen)
    ensures !Orphans(s)
  {
  }

  /** In particular a clear that still finds the counter at its own generation. */
  lemma CurrentClearIsSafe(s: State, t: TaskId)
    requires Inv(s) && t in s.tasks && s.tasks[t].Clearing?
    requires s.generation == s.tasks[t].gen
    ensures !Orphans(s)
  {
    CurrentOwnsSlot(s, t);
    OwnClearIsSafe(s, t);
  }

  ghost predicate AllStopped(s: State) {
    forall t :: !LiveDriver(s, t)
  }

  /** A take leaves no uncancelled driver behind exactly when every one was reachable before it. */
  lemma TakeStopsAllIff(s: State, t: TaskId)
    requires Inv(s) && Enabled(s, Take(t))
    ensures AllStopped(Apply(s, Take(t))) <==> Supervised(s)
  {
    var s' := Apply(s, Take(t));
    if u :| LiveDriver(s, u) && s.slot != Some(s.tasks[u].gen) {
      assert LiveDriver(s', u);
    }
    forall u | LiveDriver(s', u)
      ensures LiveDriver(s, u) && s.slot != Some(s.tasks[u].gen)
    {
      assert u != t;
    }
  }

  /** The exit path's clear at position `i` orphans a live driver. */
  ghost predicate OrphaningClear(states: seq<State>, steps: seq<Step>, i: nat)
    requires |states| == |steps| + 1
  {
    i < |steps| && steps[i].Clear? && Orphans(states[i])
  }

  lemma {:induction false} SupervisedUpTo(states: seq<State>, steps: seq<Step>, n: nat)
    requires IsRun(states, steps) && n < |states|
    requires forall i :: 0 <= i < n ==> !OrphaningClear(states, steps, i)
    ensures Supervised(states[n])
  {
    if n > 0 {
      SupervisedUpTo(states, steps, n - 1);
      RunKeepsInv(states, steps, n - 1);
      StepSupervisedIff(states[n - 1], steps[n - 1]);
      assert !OrphaningClear(states, steps, n - 1);
    }
  }

  /**
   * Over a whole run, every uncancelled driver stays reachable through the slot if and only if
   * no exit-path clear ran while the slot held a live driver's session.
   */
  lemma RunSupervisedIff(states: seq<State>, steps: seq<Step>)
    requires IsRun(states, steps)
    ensures (forall i :: 0 <= i < |states| ==> Supervised(states[i]))
            <==> (forall i :: 0 <= i < |steps| ==> !OrphaningClear(states, steps, i))
  {
    if forall i :: 0 <= i < |steps| ==> !OrphaningClear(states, steps, i) {
      forall n | 0 <= n < |states|
        ensures Supervised(states[n])
      {
        SupervisedUpTo(states, steps, n);
      }
    } else {
      var i :| 0 <= i < |steps| && OrphaningClear(states, steps, i);
      if Supervised(states[i]) {
        RunKeepsInv(states, steps, i);
        StepSupervisedIff(states[i], steps[i]);
        assert !Supervised(states[i + 1]);
      }
    }
  }

  /** In a run without an orphaning clear, every reset's take stops every driver there is. */
  lemma TakeStopsAll(states: seq<State>, steps: seq<Step>, i: nat)
    requires IsRun(states, steps) && i < |steps| && steps[i].Take?
    requires forall k :: 0 <= k < i ==> !OrphaningClear(states, steps, k)
    ensures AllStopped(states[i + 1])
  {
    SupervisedUpTo(states, steps, i);
    RunKeepsInv(states, steps, i);
    TakeStopsAllIff(states[i], steps[i].t);
  }

  // ----- when exactly an exit clear orphans -----

  lemma {:induction false} TaskKeepsGen(states: seq<State>, steps: seq<Step>, i: nat, k: nat, t: TaskId)
    requires IsRun(states, steps) && i <= k < |states| && t in states[i].tasks
    ensures t in states[k].tasks
    ensures states[k].tasks[t].Done? || HasGen(states[i].tasks[t], states[k].tasks[t].gen)
  {
    if i < k {
      TaskKeepsGen(states, steps, i, k - 1, t);
      StepMovesOne(states[k - 1], steps[k - 1]);
    }
  }

  /** A task reaches its clear only through its own exit load. */
  lemma {:induction false} ClearHasLoad(states: seq<State>, steps: seq<Step>, i: nat, t: TaskId) returns (e: nat)
    requires IsRun(states, steps) && i < |states|
    requires t in states[i].tasks && states[i].tasks[t].Clearing?
    ensures e < i && steps[e] == ExitLoad(t)
  {
    StepMovesOne(states[i - 1], steps[i - 1]);
    if steps[i - 1] == ExitLoad(t) {
      e := i - 1;
    } else {
      e := ClearHasLoad(states, steps, i - 1, t);
    }
  }

  /** At the exit load of a task that goes on to clear, the slot is empty or the task's own. */
  lemma LoadOwnsSlot(states: seq<State>, steps: seq<Step>, e: nat, i: nat, t: TaskId)
    requires IsRun(states, steps) && e < i < |steps| && steps[e] == ExitLoad(t) && steps[i] == Clear(t)
    ensures t in states[e].tasks && HasGen(states[e].tasks[t], states[i].tasks[t].gen)
    ensures states[e].slot.None? || states[e].slot == Some(states[i].tasks[t].gen)
  {
    TaskKeepsGen(states, steps, e, i, t);
    TaskKeepsGen(states, steps, e + 1, i, t);
    RunKeepsInv(states, steps, e);
    CurrentOwnsSlot(states[e], t);
  }

  /** Generation `gen`'s session was installed between the exit load `e` and the clear `i` and is still there. */
  ghost predicate InstalledBetween(states: seq<State>, steps: seq<Step>, e: nat, i: nat, gen: nat)
    requires |states| == |steps| + 1 && i <= |steps|
  {
    exists j: nat :: e < j && InstalledSince(states, steps, j, i, gen)
  }

  /** An uncancelled driver of generation `gen` is still in its loop. */
  ghost predicate StillDriven(s: State, gen: nat) {
    exists u :: LiveDriver(s, u) && s.tasks[u].gen == gen
  }

  /** An exit clear drops another generation's session exactly when it was installed since the exit load. */
  lemma ClearDropsForeignIff(states: seq<State>, steps: seq<Step>, e: nat, i: nat, t: TaskId, gen: nat)
    requires IsRun(states, steps) && e < i < |steps| && steps[e] == ExitLoad(t) && steps[i] == Clear(t)
    requires gen != states[i].tasks[t].gen
    ensures states[i].slot == Some(gen) <==> InstalledBetween(states, steps, e, i, gen)
  {
    if states[i].slot == Some(gen) {
      var j := SlotWasInstalled(states, steps, i);
      if j < e {
        InstalledStays(states, steps, j, e, gen);
        LoadOwnsSlot(states, steps, e, i, t);
      }
    }
    if InstalledBetween(states, steps, e, i, gen) {
      var j: nat :| e < j && InstalledSince(states, steps, j, i, gen);
      InstalledStays(states, steps, j, i, gen);
    }
  }

  /**
   * Between the exit load `e` and the clear `i` of one task, another generation's session was
   * installed; it is still in the slot and its driver is still in its loop.
   */
  ghost predicate Overtaken(states: seq<State>, steps: seq<Step>, e: nat, i: nat)
    requires |states| == |steps| + 1
  {
    && e < i < |steps| && steps[i].Clear? && steps[e] == ExitLoad(steps[i].t)
    && steps[i].t in states[i].tasks && states[i].tasks[steps[i].t].Clearing?
    && exists gen: nat :: gen != states[i].tasks[steps[i].t].gen
                          && InstalledBetween(states, steps, e, i, gen) && StillDriven(states[i], gen)
  }

  /** An exit clear orphans a driver exactly when it was overtaken since its exit load. */
  lemma OrphaningClearIff(states: seq<State>, steps: seq<Step>, e: nat, i: nat, t: TaskId)
    requires IsRun(states, steps) && e < i < |steps| && steps[e] == ExitLoad(t) && steps[i] == Clear(t)
    ensures OrphaningClear(states, steps, i) <==> Overtaken(states, steps, e, i)
  {
    var own := states[i].tasks[t].gen;
    RunKeepsInv(states, steps, i);
    if OrphaningClear(states, steps, i) {
      var gen := states[i].slot.value;
      assert StillDriven(states[i], gen);
      if gen == own {
        OwnClearIsSafe(states[i], t);
      }
      ClearDropsForeignIff(states, steps, e, i, t, gen);
    }
    if gen: nat :| gen != own && InstalledBetween(states, steps, e, i, gen) && StillDriven(states[i], gen) {
      ClearDropsForeignIff(states, steps, e, i, t, gen);
    }
  }

  /** A whole run keeps every uncancelled driver reachable if and only if no exit clear was overtaken. */
  lemma RunSupervisedIffNotOvertaken(states: seq<State>, steps: seq<Step>)
    requires IsRun(states, steps)
    ensures (forall i :: 0 <= i < |states| ==> Supervised(states[i]))
            <==> forall e: nat, i: nat :: !Overtaken(states, steps, e, i)
  {
    RunSupervisedIff(states, steps);
    if i: nat :| i < |steps| && OrphaningClear(states, steps, i) {
      var e := ClearHasLoad(states, steps, i, steps[i].t);
      OrphaningClearIff(states, steps, e, i, steps[i].t);
    }
    if e: nat, i: nat :| Overtaken(states, steps, e, i) {
      OrphaningClearIff(states, steps, e, i, steps[i].t);
    }
  }

  // ----- who stops, and who goes on -----

  /** The task has left its loop for good, or never gets there. */
  predicate Stopped(pc: Pc) {
    pc.Exiting? || pc.Clearing? || pc.Done?
  }

  predicate ChecksGeneration(step: Step, t: TaskId) {
    step == FirstCheck(t) || step == Recheck(t)
  }

  /** The check belongs to the first install of a connect, whose session was never stored. */
  predicate FirstInstall(pc: Pc) {
    pc.Connecting? || (pc.Acquired? && pc.first)
  }

  lemma {:induction false} StoppedStays(states: seq<State>, steps: seq<Step>, i: nat, k: nat, t: TaskId)
    requires IsRun(states, steps) && i <= k < |states|
    requires t in states[i].tasks && Stopped(states[i].tasks[t])
    ensures t in states[k].tasks && Stopped(states[k].tasks[t])
    ensures states[i].tasks[t].Done? ==> states[k].tasks[t].Done?
    ensures states[i].cancelled <= states[k].cancelled
  {
    if i < k {
      StoppedStays(states, steps, i, k - 1, t);
      StepMovesOne(states[k - 1], steps[k - 1]);
    }
  }

  /**
   * A task whose check, before or under the lock, reads another generation never drives or
   * reconnects from then on, and a first install has its own session cancelled, in every later
   * state; a task whose check reads its own generation goes on and nothing is cancelled.
   */
  lemma SupersededStopsIff(states: seq<State>, steps: seq<Step>, i: nat, k: nat, t: TaskId)
    requires IsRun(states, steps) && i < k < |states| && ChecksGeneration(steps[i], t)
    ensures t in states[i].tasks && t in states[i + 1].tasks && t in states[k].tasks
    ensures var pc := states[i].tasks[t];
            if states[i].generation == pc.gen then
              && states[i + 1].tasks[t]
                 == (if steps[i].FirstCheck? then Checked(pc.gen, FirstInstall(pc))
                     else Validated(pc.gen, FirstInstall(pc)))
              && states[i + 1].cancelled == states[i].cancelled
            else
              && Stopped(states[k].tasks[t]) && !Driving(states[k].tasks[t])
              && (FirstInstall(pc) ==> states[k].tasks[t].Done? && pc.gen in states[k].cancelled)
              && (!FirstInstall(pc) ==> states[i + 1].tasks[t] == Exiting(pc.gen))
  {
    var pc := states[i].tasks[t];
    if states[i].generation != pc.gen {
      StoppedStays(states, steps, i + 1, k, t);
    } else {
      TaskKeepsGen(states, steps, i, k, t);
    }
  }

  /** A driver whose session ends leaves its loop for good when it is cancelled, and otherwise reconnects. */
  lemma DriverLeavesIff(states: seq<State>, steps: seq<Step>, i: nat, k: nat, t: TaskId)
    requires IsRun(states, steps) && i < k < |states| && steps[i] == RunEnds(t)
    ensures t in states[i].tasks && t in states[i + 1].tasks && t in states[k].tasks
    ensures var gen := states[i].tasks[t].gen;
            if gen in states[i].cancelled then Stopped(states[k].tasks[t])
            else states[i + 1].tasks[t] == Reconnecting(gen)
  {
    TaskKeepsGen(states, steps, i, k, t);
    if states[i].tasks[t].gen in states[i].cancelled {
      StoppedStays(states, steps, i + 1, k, t);
    }
  }

  /** A connect that fails is done at once: it has no session to drive and clears nothing. */
  lemma FailedConnectIsDone(states: seq<State>, steps: seq<Step>, i: nat, k: nat, t: TaskId)
    requires IsRun(states, steps) && i < k < |states| && steps[i] == ConnectFails(t)
    ensures t in states[k].tasks && states[k].tasks[t].Done?
  {
    StoppedStays(states, steps, i + 1, k, t);
  }

  /** An exit load that reads another generation leaves the slot to its owner. */
  lemma SupersededExitClearsNothing(states: seq<State>, steps: seq<Step>, i: nat, k: nat, t: TaskId)
    requires IsRun(states, steps) && i < k < |steps| && steps[i] == ExitLoad(t)
    requires t in states[i].tasks && states[i].generation != states[i].tasks[t].gen
    ensures steps[k] != Clear(t)
  {
    StoppedStays(states, steps, i + 1, k, t);
  }

  /** A disconnect takes the slot and is done; it never connects or installs anything. */
  lemma {:induction false} DisconnectOnlyResets(states: seq<State>, steps: seq<Step>, i: nat, k: nat, t: TaskId)
    requires IsRun(states, steps) && i < k < |states| && steps[i] == Bump(t, false)
    ensures t in states[k].tasks
    ensures states[k].tasks[t] == Bumped(states[i].generation + 1, false) || states[k].tasks[t].Done?
  {
    if i + 1 < k {
      DisconnectOnlyResets(states, steps, i, k - 1, t);
      StepMovesOne(states[k - 1], steps[k - 1]);
    }
  }

  /** Task `t` read its own generation at step `i`, which is its check `check`. */
  predicate ReadsOwn(states: seq<State>, steps: seq<Step>, i: nat, check: Step)
    requires |states| == |steps| + 1
  {
    && i < |steps| && steps[i] == check && check.t in states[i].tasks
    && var pc := states[i].tasks[check.t];
       (pc.Connecting? || pc.Reconnecting? || pc.Acquired?) && states[i].generation == pc.gen
  }

  /** A session is installed only after both checks of its task, in order, read its own generation. */
  lemma InstallWasCheckedTwice(states: seq<State>, steps: seq<Step>, k: nat, t: TaskId) returns (i: nat, j: nat)
    requires IsRun(states, steps) && k < |steps| && steps[k] == Write(t)
    ensures i < j < k && ReadsOwn(states, steps, i, FirstCheck(t)) && ReadsOwn(states, steps, j, Recheck(t))
  {
    j := ValidatedWasChecked(states, steps, k, t);
    i := LockedWasChecked(states, steps, j, t);
  }

  lemma {:induction false} ValidatedWasChecked(states: seq<State>, steps: seq<Step>, k: nat, t: TaskId) returns (j: nat)
    requires IsRun(states, steps) && k < |states| && t in states[k].tasks && states[k].tasks[t].Validated?
    ensures j < k && ReadsOwn(states, steps, j, Recheck(t))
  {
    if steps[k - 1] == Recheck(t) {
      j := k - 1;
    } else {
      StepMovesOne(states[k - 1], steps[k - 1]);
      j := ValidatedWasChecked(states, steps, k - 1, t);
    }
  }

  lemma {:induction false} LockedWasChecked(states: seq<State>, steps: seq<Step>, k: nat, t: TaskId) returns (i: nat)
    requires IsRun(states, steps) && k < |states| && t in states[k].tasks
    requires states[k].tasks[t].Checked? || states[k].tasks[t].Acquired?
    ensures i < k && ReadsOwn(states, steps, i, FirstCheck(t))
  {
    if steps[k - 1] == FirstCheck(t) {
      i := k - 1;
    } else {
      StepMovesOne(states[k - 1], steps[k - 1]);
      i := LockedWasChecked(states, steps, k - 1, t);
    }
  }

  // ----- concrete runs -----

  lemma Extend(states: seq<State>, steps: seq<Step>, step: Step)
    returns (states': seq<State>, steps': seq<Step>)
    requires IsRun(states, steps) && Enabled(states[|steps|], step)
    ensures IsRun(states', steps') && |steps'| == |steps| + 1
    ensures states'[|steps'|] == Apply(states[|steps|], step)
  {
    states', steps' := states + [Apply(states[|steps|], step)], steps + [step];
  }

  /** Task `t` resets, connects, installs its session undisturbed and starts driving it. */
  lemma ConnectUndisturbed(states: seq<State>, steps: seq<Step>, t: TaskId)
    returns (states': seq<State>, steps': seq<Step>)
    requires IsRun(states, steps)
    requires var s := states[|steps|]; t !in s.tasks && s.holder.None?
    ensures IsRun(states', steps')
    ensures var s, s' := states[|steps|], states'[|steps'|];
            && s'.generation == s.generation + 1 && s'.slot == Some(s'.generation)
            && s'.holder.None?
            && s'.tasks == s.tasks[t := Running(s'.generation)]
            && s'.cancelled == s.cancelled + (if s.slot.Some? then {s.slot.value} else {})
  {
    states', steps' := Extend(states, steps, Bump(t, true));
    states', steps' := Extend(states', steps', Take(t));
    states', steps' := Extend(states', steps', FirstCheck(t));
    states', steps' := Extend(states', steps', Acquire(t));
    states', steps' := Extend(states', steps', Recheck(t));
    states', steps' := Extend(states', steps', Write(t));
    states', steps' := Extend(states', steps', Release(t));
  }

  /** A driver whose session ends reconnects and is installed again, under the number and the token it had. */
  lemma ReconnectUndisturbed(states: seq<State>, steps: seq<Step>, t: TaskId)
    returns (states': seq<State>, steps': seq<Step>)
    requires IsRun(states, steps)
    requires var s := states[|steps|];
             && t in s.tasks && s.tasks[t] == Running(s.generation)
             && s.generation !in s.cancelled && s.holder.None?
    ensures IsRun(states', steps') && |steps'| > |steps|
    ensures var s, s' := states[|steps|], states'[|steps'|];
            && s'.tasks == s.tasks && s'.slot == Some(s.generation) && s'.holder.None?
            && s'.generation == s.generation && s'.cancelled == s.cancelled
  {
    states', steps' := Extend(states, steps, RunEnds(t));
    states', steps' := Extend(states', steps', FirstCheck(t));
    states', steps' := Extend(states', steps', Acquire(t));
    states', steps' := Extend(states', steps', Recheck(t));
    states', steps' := Extend(states', steps', Write(t));
    states', steps' := Extend(states', steps', Release(t));
    var s, s' := states[|steps|], states'[|steps'|];
    assert s'.tasks.Keys == s.tasks.Keys;
  }

  /**
   * The exit path checks the counter and clears the slot as two steps. A connect that
   * completes between them loses its slot: it runs uncancelled and no reset can reach it.
   */
  lemma ExitClearCanOrphan()
    returns (states: seq<State>, steps: seq<Step>)
    ensures IsRun(states, steps)
    ensures var s := states[|steps|];
            && s.slot.None? && s.generation == 2 && s.tasks == map[0 := Done, 1 := Running(2)]
            && 2 !in s.cancelled
            && !Supervised(s)
  {
    states, steps := [Init], [];
    states, steps := ConnectUndisturbed(states, steps, 0);
    states, steps := Extend(states, steps, RunEnds(0));
    states, steps := Extend(states, steps, GiveUp(0));
    states, steps := Extend(states, steps, ExitLoad(0));
    states, steps := ConnectUndisturbed(states, steps, 1);
    states, steps := Extend(states, steps, Clear(0));
    assert LiveDriver(states[|steps|], 1);
  }

  /** A slow reset can take, and cancel, the session of a newer generation. */
  lemma OlderResetCanCancelNewer()
    returns (states: seq<State>, steps: seq<Step>)
    ensures IsRun(states, steps)
    ensures var s := states[|steps|];
            && s.tasks == map[0 := Done, 1 := Running(2)]
            && s.generation == 2 && s.slot.None? && 2 in s.cancelled
  {
    states, steps := [Init], [];
    states, steps := Extend(states, steps, Bump(0, false));
    states, steps := ConnectUndisturbed(states, steps, 1);
    states, steps := Extend(states, steps, Take(0));
  }

  // ----- the shared object -----

  /**
   * `AppState`: the counter, the mutex-guarded slot and the tokens. Each method is one atomic
   * operation of one task; `tasks` is the ghost record of where every task stands.
   */
  class AppState {
    var generation: nat
    var session: Option<nat>
    var holder: Option<TaskId>
    var cancelled: set<nat>
    ghost var tasks: map<TaskId, Pc>

    ghost function View(): State
      reads this
    {
      State(generation, session, holder, cancelled, tasks)
    }

    ghost predicate Valid()
      reads this
    {
      Inv(View())
    }

    constructor ()
      ensures Valid() && View() == Init
    {
      generation, session, holder, cancelled := 0, None, None, {};
      tasks := map[];
    }

    /** `generation.fetch_add(1) + 1`. */
    method FetchAdd(ghost t: TaskId, ghost connecting: bool) returns (myGen: nat)
      requires Valid() && Enabled(View(), Bump(t, connecting))
      modifies this
      ensures Valid() && View() == Apply(old(View()), Bump(t, connecting))
      ensures t in tasks && tasks[t] == Bumped(myGen, connecting)
      ensures myGen == generation == old(generation) + 1 && unchanged(`session, `cancelled, `holder)
    {
      ghost var next := Apply(View(), Bump(t, connecting));
      StepKeepsInv(View(), Bump(t, connecting));
      myGen := generation + 1;
      generation := myGen;
      tasks := tasks[t := Bumped(myGen, connecting)];
      assert View() == next;
    }

    /** `session.lock().take()` and cancelling what was there, under the one guard. */
    method TakeAndCancel(ghost t: TaskId)
      requires Valid() && Enabled(View(), Take(t))
      modifies this
      ensures Valid() && View() == Apply(old(View()), Take(t))
      ensures session.None? && (old(session).Some? ==> old(session).value in cancelled)
      ensures old(Supervised(View())) <==> AllStopped(View())
      ensures old(session).None? ==> cancelled == old(cancelled)
      ensures t in tasks && tasks[t] == var pc := old(tasks)[t]; if pc.connecting then Connecting(pc.gen) else Done
    {
      ghost var next := Apply(View(), Take(t));
      StepKeepsInv(View(), Take(t));
      TakeStopsAllIff(View(), t);
      if session.Some? {
        cancelled := cancelled + {session.value};
      }
      session := None;
      tasks := tasks[t := if tasks[t].connecting then Connecting(tasks[t].gen) else Done];
      assert View() == next;
    }

    /** The unlocked first load of `install_active_session`; a superseded first install cancels. */
    method LoadIsCurrent(ghost t: TaskId, myGen: nat, first: bool) returns (current: bool)
      requires Valid() && Enabled(View(), FirstCheck(t))
      requires tasks[t].gen == myGen && tasks[t].Connecting? == first
      modifies this
      ensures Valid() && View() == Apply(old(View()), FirstCheck(t))
      ensures current <==> old(generation) == myGen
      ensures t in tasks
      ensures tasks[t] == if current then Checked(myGen, first) else if first then Done else Exiting(myGen)
      ensures cancelled == old(cancelled) + if !current && first then {myGen} else {}
      ensures unchanged(`session, `generation, `holder)
    {
      StepKeepsInv(View(), FirstCheck(t));
      current := generation == myGen;
      if current {
        tasks := tasks[t := Checked(myGen, first)];
      } else {
        FinishSuperseded(t, myGen, first);
      }
    }

    /** What the caller does when an install reports that it was superseded. */
    method FinishSuperseded(ghost t: TaskId, myGen: nat, first: bool)
      modifies `cancelled, `tasks
      ensures View() == Superseded(old(View()), t, myGen, first)
      ensures tasks == old(tasks)[t := if first then Done else Exiting(myGen)]
      ensures cancelled == old(cancelled) + if first then {myGen} else {}
    {
      if first {
        cancelled := cancelled + {myGen};
        tasks := tasks[t := Done];
      } else {
        tasks := tasks[t := Exiting(myGen)];
      }
    }

    method LockSlot(t: TaskId)
      requires Valid() && Enabled(View(), Acquire(t))
      modifies this
      ensures Valid() && View() == Apply(old(View()), Acquire(t))
      ensures old(holder).None? && holder == Some(t) && unchanged(`session, `generation, `cancelled)
    {
      StepKeepsInv(View(), Acquire(t));
      holder := Some(t);
      tasks := tasks[t := Acquired(tasks[t].gen, tasks[t].first)];
    }

    /** The load under the lock; on disagreement the guard is dropped. */
    method RecheckUnderLock(ghost t: TaskId, myGen: nat, first: bool) returns (current: bool)
      requires Valid() && Enabled(View(), Recheck(t)) && tasks[t] == Acquired(myGen, first)
      modifies this
      ensures Valid() && View() == Apply(old(View()), Recheck(t))
      ensures current <==> old(generation) == myGen
      ensures t in tasks
      ensures tasks[t] == if current then Validated(myGen, first) else if first then Done else Exiting(myGen)
      ensures cancelled == old(cancelled) + if !current && first then {myGen} else {}
      ensures holder == (if current then Some(t) else None) && unchanged(`session, `generation)
      ensures current ==> session.None? || session == Some(myGen)
    {
      StepKeepsInv(View(), Recheck(t));
      current := generation == myGen;
      if current {
        tasks := tasks[t := Validated(myGen, first)];
      } else {
        holder := None;
        FinishSuperseded(t, myGen, first);
      }
    }

    /** The write never drops a session of another generation, though the counter may have moved. */
    method WriteSlot(ghost t: TaskId, myGen: nat)
      requires Valid() && Enabled(View(), Write(t)) && tasks[t].gen == myGen
      modifies this
      ensures Valid() && View() == Apply(old(View()), Write(t))
      ensures session == Some(myGen) && (old(session).None? || old(session) == Some(myGen))
      ensures t in tasks && tasks[t] == Written(myGen) && unchanged(`generation, `cancelled, `holder)
    {
      StepKeepsInv(View(), Write(t));
      session := Some(myGen);
      tasks := tasks[t := Written(myGen)];
    }

    method UnlockSlot(ghost t: TaskId)
      requires Valid() && Enabled(View(), Release(t))
      modifies this
      ensures Valid() && View() == Apply(old(View()), Release(t))
      ensures t in tasks && tasks[t] == Running(old(tasks)[t].gen)
      ensures session == Some(tasks[t].gen) && holder.None? && unchanged(`session, `generation, `cancelled)
    {
      StepKeepsInv(View(), Release(t));
      holder := None;
      tasks := tasks[t := Running(tasks[t].gen)];
    }

    /** The driver's exit load. */
    method LoadOnExit(ghost t: TaskId, myGen: nat) returns (current: bool)
      requires Valid() && Enabled(View(), ExitLoad(t)) && tasks[t].gen == myGen
      modifies this
      ensures Valid() && View() == Apply(old(View()), ExitLoad(t))
      ensures current <==> old(generation) == myGen
      ensures t in tasks && tasks[t] == (if current then Clearing(myGen) else Done)
      ensures unchanged(`session, `generation, `cancelled, `holder)
    {
      StepKeepsInv(View(), ExitLoad(t));
      current := generation == myGen;
      tasks := tasks[t := if current then Clearing(myGen) else Done];
    }

    /** The driver's exit clear, a separate step from the load before it. */
    method ClearOnExit(ghost t: TaskId)
      requires Valid() && Enabled(View(), Clear(t))
      modifies this
      ensures Valid() && View() == Apply(old(View()), Clear(t))
      ensures session.None? && t in tasks && tasks[t].Done? && unchanged(`generation, `cancelled, `holder)
      ensures old(Supervised(View())) ==> (Supervised(View()) <==> !old(Orphans(View())))
      ensures old(session).None? || old(session).value == old(tasks)[t].gen ==> !old(Orphans(View()))
    {
      StepKeepsInv(View(), Clear(t));
      if session.None? || session.value == tasks[t].gen {
        OwnClearIsSafe(View(), t);
      }
      if Supervised(View()) {
        StepSupervisedIff(View(), Clear(t));
      }
      session := None;
      tasks := tasks[t := Done];
    }
  }
}
