/**
 * The bound on interleaved failures of the control channel is attained: four failures, then 256
 * connections that all pass their check before the first of them fails.
 */
module PendingRace {
  import opened Base
  import opened FailureRecords
  import opened Server
  import RL = RateLimiter

  /** A pair request of an unpaired device with a wrong proof. */
  const WRONG := Request("", false)

  /**
   * At instant 0, `past` handlers of `ip` have failed and are closed; `n` more have passed their
   * check, after those failures, and the first `m` of them have failed too.
   */
  ghost predicate Lined(s: State, ip: RL.Ip, past: nat, n: nat, m: nat) {
    && s.clock == 0 && s.paired == {} && m <= n
    && s.nextId == past + n && s.permits == MAX_PENDING_CONNECTIONS - n
    && |s.records| == past + m && AllAtOnce(s.records, ip)
    && (forall id: Id :: id in s.handlers <==> id < past + n)
    && (forall id: Id :: past + m <= id < past + n ==>
                           s.handlers[id] == Handler(ip, Unpaired(WRONG, Check(0, past))))
  }

  lemma Extend(states: seq<State>, steps: seq<Step>, step: Step)
    returns (states': seq<State>, steps': seq<Step>)
    requires IsRun(states, steps) && Enabled(states[|steps|], step)
    ensures IsRun(states', steps') && |steps'| == |steps| + 1
    ensures states'[|steps'|] == Apply(states[|steps|], step)
  {
    states', steps' := states + [Apply(states[|steps|], step)], steps + [step];
  }

  /** One more connection passes its check and is found unpaired. */
  lemma Joins(states: seq<State>, steps: seq<Step>, ip: RL.Ip, past: nat, n: nat)
    returns (states': seq<State>, steps': seq<Step>)
    requires IsRun(states, steps) && Lined(states[|steps|], ip, past, n, 0)
    requires past < RL.RATE_LIMIT_MAX_FAILURES && n < MAX_PENDING_CONNECTIONS
    ensures IsRun(states', steps') && Lined(states'[|steps'|], ip, past, n + 1, 0)
  {
    var s := states[|steps|];
    var id := s.nextId;
    FewDoNotLimit(s.records, ip, 0);
    states', steps' := Extend(states, steps, Accept(ip));
    states', steps' := Extend(states', steps', HelloOk(id));
    states', steps' := Extend(states', steps', RateCheck(id, WRONG));
    states', steps' := Extend(states', steps', ReadPaired(id));
    var s' := states'[|steps'|];
    assert s'.handlers == s.handlers[id := Handler(ip, Unpaired(WRONG, Check(0, past)))];
  }

  /** The next of the waiting connections fails. */
  lemma Fails(states: seq<State>, steps: seq<Step>, ip: RL.Ip, past: nat, n: nat, m: nat)
    returns (states': seq<State>, steps': seq<Step>)
    requires IsRun(states, steps) && Lined(states[|steps|], ip, past, n, m) && m < n
    ensures IsRun(states', steps') && Lined(states'[|steps'|], ip, past, n, m + 1)
    ensures states'[|steps'|].handlers[past + m].phase == Rejecting
  {
    var s := states[|steps|];
    states', steps' := Extend(states, steps, Decide(past + m));
    assert states'[|steps'|].handlers == s.handlers[past + m := Handler(ip, Rejecting)];
  }

  /** `past` connections fail one after the other, each before the next one comes. */
  lemma {:induction false} FailOneByOne(ip: RL.Ip, past: nat) returns (states: seq<State>, steps: seq<Step>)
    requires past < RL.RATE_LIMIT_MAX_FAILURES
    ensures IsRun(states, steps) && Lined(states[|steps|], ip, past, 0, 0)
  {
    if past == 0 {
      states, steps := [State(MAX_PENDING_CONNECTIONS, 0, map[], {}, map[], map[], [], {}, [], 0)], [];
    } else {
      states, steps := FailOneByOne(ip, past - 1);
      states, steps := Joins(states, steps, ip, past - 1, 0);
      states, steps := Fails(states, steps, ip, past - 1, 1, 0);
      var s := states[|steps|];
      states, steps := Extend(states, steps, Abort(past - 1));
      assert states[|steps|].handlers.Keys == s.handlers.Keys;
    }
  }

  lemma {:induction false} JoinTogether(ip: RL.Ip, past: nat, n: nat) returns (states: seq<State>, steps: seq<Step>)
    requires past < RL.RATE_LIMIT_MAX_FAILURES && n <= MAX_PENDING_CONNECTIONS
    ensures IsRun(states, steps) && Lined(states[|steps|], ip, past, n, 0)
  {
    if n == 0 {
      states, steps := FailOneByOne(ip, past);
    } else {
      states, steps := JoinTogether(ip, past, n - 1);
      states, steps := Joins(states, steps, ip, past, n - 1);
    }
  }

  lemma {:induction false} FailTogether(ip: RL.Ip, past: nat, n: nat, m: nat)
    returns (states: seq<State>, steps: seq<Step>)
    requires past < RL.RATE_LIMIT_MAX_FAILURES && m <= n <= MAX_PENDING_CONNECTIONS
    ensures IsRun(states, steps) && Lined(states[|steps|], ip, past, n, m)
  {
    if m == 0 {
      states, steps := JoinTogether(ip, past, n);
    } else {
      states, steps := FailTogether(ip, past, n, m - 1);
      states, steps := Fails(states, steps, ip, past, n, m - 1);
    }
  }

  /** Some run records as many failures of one IP in a window as `InterleavedWindowBound` allows. */
  lemma WindowBoundAttained(ip: RL.Ip) returns (states: seq<State>, steps: seq<Step>)
    ensures IsRun(states, steps)
    ensures RL.InWindow(TimesOf(states[|steps|].records, ip), 0)
            == RL.RATE_LIMIT_MAX_FAILURES + MAX_PENDING_CONNECTIONS - 1
  {
    states, steps := FailTogether(ip, RL.RATE_LIMIT_MAX_FAILURES - 1, MAX_PENDING_CONNECTIONS, MAX_PENDING_CONNECTIONS);
    AllInWindow(states[|steps|].records, ip);
  }
}
