/**
 * The SOCKS5 proxy's own failure limiter under concurrency. A connection checks the limiter once,
 * negotiates, and records a failure later if its credentials are wrong; the accept loop spawns a
 * handler for every connection, without the control channel's cap on pending ones.
 */
module Socks5Limiter {
  import opened Base
  import opened FailureRecords
  import F = Framing
  import RL = RateLimiter
  import S = Socks5

  datatype Phase =
    /** `is_rate_limited` answered no; the credentials are still to come. */
    | Checked(check: Check)
    /** Authenticated, failed or gone. */
    | Over

  datatype Handler = Handler(ip: RL.Ip, phase: Phase)

  datatype State = State(handlers: map<HandlerId, Handler>, records: seq<Record>, clock: int)

  datatype Step =
    | Tick(now: int)
    | Admit(id: HandlerId, ip: RL.Ip)
    | Fail(id: HandlerId)
    | End(id: HandlerId)

  predicate IsPending(s: State, id: HandlerId) {
    id in s.handlers && s.handlers[id].phase.Checked?
  }

  function PendingIds(s: State): set<HandlerId> {
    set id | id in s.handlers && IsPending(s, id)
  }

  predicate Enabled(s: State, step: Step) {
    match step
    case Tick(now) => s.clock <= now
    case Admit(id, ip) => id !in s.handlers && !RL.Limited(TimesOf(s.records, ip), s.clock)
    case Fail(id) => IsPending(s, id)
    case End(id) => IsPending(s, id)
  }

  function RecordOf(s: State, id: HandlerId): Record
    requires IsPending(s, id)
  {
    Record(RL.Failure(s.handlers[id].ip, s.clock), id, s.handlers[id].phase.check, PendingIds(s))
  }

  function Apply(s: State, step: Step): State
    requires Enabled(s, step)
  {
    match step
    case Tick(now) => s.(clock := now)
    case Admit(id, ip) => s.(handlers := s.handlers[id := Handler(ip, Checked(Check(s.clock, |s.records|)))])
    case Fail(id) =>
      s.(handlers := s.handlers[id := s.handlers[id].(phase := Over)], records := s.records + [RecordOf(s, id)])
    case End(id) => s.(handlers := s.handlers[id := s.handlers[id].(phase := Over)])
  }

  predicate Initial(s: State) {
    s.handlers == map[] && s.records == []
  }

  predicate IsRun(states: seq<State>, steps: seq<Step>) {
    && |states| == |steps| + 1
    && Initial(states[0])
    && forall i :: 0 <= i < |steps| ==>
                     Enabled(states[i], steps[i]) && states[i + 1] == Apply(states[i], steps[i])
  }

  // ----- every record can be traced to a check -----

  /** A handler that passed its check has been pending at every record since. */
  ghost predicate PendingOk(s: State, id: HandlerId)
    requires IsPending(s, id)
  {
    var check := s.handlers[id].phase.check;
    && check.at <= s.clock
    && CheckOk(s.records, s.handlers[id].ip, check)
    && (forall i :: check.seen <= i < |s.records| ==> id in s.records[i].pending)
  }

  predicate Finished(s: State, id: HandlerId) {
    id in s.handlers && s.handlers[id].phase.Over?
  }

  ghost predicate Inv(s: State) {
    && RecordsOk(s.records)
    && (forall j :: 0 <= j < |s.records| ==>
          s.records[j].failure.at <= s.clock && Finished(s, s.records[j].author))
    && (forall id :: IsPending(s, id) ==> PendingOk(s, id))
  }

  lemma StepKeepsPending(s: State, step: Step, id: HandlerId)
    requires Enabled(s, step) && Inv(s) && IsPending(Apply(s, step), id)
    ensures PendingOk(Apply(s, step), id)
  {
    if step.Admit? && step.id == id {
      assert s.records[..|s.records|] == s.records;
    } else {
      assert IsPending(s, id) && PendingOk(s, id);
      if step.Fail? {
        CheckOkExtends(s.records, RecordOf(s, step.id), s.handlers[id].ip, s.handlers[id].phase.check);
      }
    }
  }

  lemma StepKeepsInv(s: State, step: Step)
    requires Enabled(s, step) && Inv(s)
    ensures Inv(Apply(s, step))
  {
    var s' := Apply(s, step);
    forall id | IsPending(s', id)
      ensures PendingOk(s', id)
    {
      StepKeepsPending(s, step, id);
    }
    if step.Fail? {
      assert PendingOk(s, step.id);
      forall i | 0 <= i < |s.records|
        ensures s.records[i].author != step.id
      {
        assert Finished(s, s.records[i].author);
      }
      AppendKeepsRecords(s.records, RecordOf(s, step.id));
    }
    forall j | 0 <= j < |s'.records|
      ensures s'.records[j].failure.at <= s'.clock && Finished(s', s'.records[j].author)
    {
      if j < |s.records| {
        assert Finished(s, s.records[j].author);
      }
    }
  }

  lemma RunKeepsInv(states: seq<State>, steps: seq<Step>)
    requires IsRun(states, steps)
    ensures forall k :: 0 <= k < |states| ==> Inv(states[k])
  {
    for k := 1 to |states|
      invariant forall i :: 0 <= i < k ==> Inv(states[i])
    {
      StepKeepsInv(states[k - 1], steps[k - 1]);
    }
  }

  /** Record `i` was made by a step at which exactly the handlers it names were pending. */
  lemma {:induction false} RecordHasStep(states: seq<State>, steps: seq<Step>, k: nat, i: nat) returns (j: nat)
    requires IsRun(states, steps) && k < |states| && i < |states[k].records|
    ensures j < k && steps[j].Fail? && states[j + 1].records == states[k].records[..i + 1]
    ensures states[k].records[i].author == steps[j].id && states[k].records[i].pending == PendingIds(states[j])
  {
    var before := states[k - 1].records;
    if i < |before| {
      j := RecordHasStep(states, steps, k - 1, i);
      assert states[k].records[..i + 1] == before[..i + 1];
    } else {
      j := k - 1;
      assert states[k].records[..i + 1] == states[k].records;
    }
  }

  /**
   * Under free interleaving, a window of 600 seconds with five failures of an IP or more got its
   * fifth at some step `j`. It holds five and one for each of the `late` handlers that recorded
   * inside it after that step, all of them other handlers that were past their check at it.
   */
  lemma PendingWindowBound(states: seq<State>, steps: seq<Step>, k: nat, ip: RL.Ip, end: int)
    returns (j: nat, late: set<HandlerId>)
    requires IsRun(states, steps) && k < |states|
    requires RL.InWindow(TimesOf(states[k].records, ip), end) >= RL.RATE_LIMIT_MAX_FAILURES
    ensures j < k && steps[j].Fail?
    ensures RL.InWindow(TimesOf(states[j + 1].records, ip), end) == RL.RATE_LIMIT_MAX_FAILURES
    ensures |states[j + 1].records| <= |states[k].records|
    ensures late == Authors(states[k].records, ip, end, |states[j + 1].records|)
    ensures late <= PendingIds(states[j]) - {steps[j].id}
    ensures RL.InWindow(TimesOf(states[k].records, ip), end) == RL.RATE_LIMIT_MAX_FAILURES + |late|
  {
    RunKeepsInv(states, steps);
    var i := WindowExact(states[k].records, ip, end);
    j := RecordHasStep(states, steps, k, i);
    late := Authors(states[k].records, ip, end, i + 1);
  }

  /** A handler that failed or ended never fails afterwards. */
  lemma {:induction false} OverStays(states: seq<State>, steps: seq<Step>, i: nat, k: nat, id: HandlerId)
    requires IsRun(states, steps) && i <= k < |states| && Finished(states[i], id)
    ensures Finished(states[k], id)
  {
    if i < k {
      OverStays(states, steps, i, k - 1, id);
    }
  }

  lemma FailsAtMostOnce(states: seq<State>, steps: seq<Step>, i: nat, k: nat, id: HandlerId)
    requires IsRun(states, steps) && i < k < |steps| && (steps[i] == Fail(id) || steps[i] == End(id))
    ensures steps[k] != Fail(id)
  {
    OverStays(states, steps, i + 1, k, id);
  }

  /** The clock reads what the last tick set. */
  lemma {:induction false} ClockIsLastTick(states: seq<State>, steps: seq<Step>, i: nat, k: nat)
    requires IsRun(states, steps) && i < k < |states| && steps[i].Tick?
    requires forall m :: i < m < k ==> !steps[m].Tick?
    ensures states[k].clock == steps[i].now
  {
    if i + 1 < k {
      ClockIsLastTick(states, steps, i, k - 1);
    }
  }

  // ----- one negotiation as steps -----

  lemma {:induction false} RecordsGrow(states: seq<State>, steps: seq<Step>, i: nat, k: nat)
    requires IsRun(states, steps) && i <= k < |states|
    ensures states[i].records <= states[k].records
  {
    if i < k {
      RecordsGrow(states, steps, i, k - 1);
    }
  }

  lemma {:induction false} StaysPending(states: seq<State>, steps: seq<Step>, i: nat, k: nat, id: HandlerId)
    requires IsRun(states, steps) && i <= k < |states| && IsPending(states[i], id)
    requires forall m :: i <= m < k ==> steps[m] != Fail(id) && steps[m] != End(id)
    ensures IsPending(states[k], id) && states[k].handlers[id] == states[i].handlers[id]
  {
    if i < k {
      StaysPending(states, steps, i, k - 1, id);
    }
  }

  lemma RecordsMonotone(records: seq<Record>)
    requires RecordsOk(records)
    ensures RL.MonotoneHistory(Failures(records))
  {
    forall i: nat, j: nat | i < j < |records|
      ensures Failures(records)[i].at <= Failures(records)[j].at
    {
      assert RecordPairOk(records, i, j);
    }
  }

  /** The failures recorded between two states of a run. */
  function Between(earlier: State, later: State): seq<RL.Failure>
    requires earlier.records <= later.records
  {
    Failures(later.records[|earlier.records|..])
  }

  /**
   * A connection that passes its check at step `a` and decides at state `f`: until then only others
   * record, and its failure, if it comes to that, is the next one, in time order.
   */
  lemma NegotiationIsSteps(
    states: seq<State>, steps: seq<Step>, a: nat, f: nat, id: HandlerId, ip: RL.Ip)
    requires IsRun(states, steps) && a < f < |states| && steps[a] == Admit(id, ip)
    requires forall m :: a < m < f ==> steps[m] != Fail(id) && steps[m] != End(id)
    ensures states[a].records <= states[f].records && Enabled(states[f], Fail(id))
    ensures var before, failure := Failures(states[a].records), RL.Failure(ip, states[f].clock);
            var others := Between(states[a], states[f]);
            && !RL.Limited(RL.TimesOf(before, ip), states[a].clock)
            && Failures(states[f].records) == before + others
            && Failures(Apply(states[f], Fail(id)).records) == before + others + [failure]
            && RL.MonotoneHistory(before + others + [failure])
  {
    RecordsGrow(states, steps, a, f);
    StaysPending(states, steps, a + 1, f, id);
    RunKeepsInv(states, steps);
    var earlier, later := states[a].records, states[f].records;
    assert later == earlier + later[|earlier|..];
    FailuresConcat(earlier, later[|earlier|..]);
    var s' := Apply(states[f], Fail(id));
    FailuresConcat(later, [RecordOf(states[f], id)]);
    StepKeepsInv(states[f], Fail(id));
    RecordsMonotone(s'.records);
  }

  /**
   * The negotiation of an admitted connection, run in such an interval, does to the shared limiter
   * exactly what its `Fail` or its `End` step does to the protocol: it fails if it reports so, and
   * ends otherwise, except that a rejection that cannot be written has been recorded as well.
   */
  method NegotiateInRun(
    stream: F.Stream, utf8: S.Utf8, config: Option<S.Config>, limiter: RL.Limiter, ip: RL.Ip,
    checkAt: int, others: seq<RL.Failure>, recordAt: int,
    ghost states: seq<State>, ghost steps: seq<Step>, ghost a: nat, ghost f: nat, ghost id: HandlerId)
    returns (r: Result<S.Target, S.NegotiationError>, ghost step: Step)
    requires IsRun(states, steps) && a < f < |states| && steps[a] == Admit(id, ip)
    requires forall m :: a < m < f ==> steps[m] != Fail(id) && steps[m] != End(id)
    requires states[a].records <= states[f].records && others == Between(states[a], states[f])
    requires checkAt == states[a].clock && recordAt == states[f].clock
    requires limiter.Valid() && limiter.history == Failures(states[a].records)
    modifies stream, limiter
    ensures limiter.Valid()
    ensures (step == Fail(id) || step == End(id)) && Enabled(states[f], step)
    ensures limiter.history == Failures(Apply(states[f], step).records)
    ensures r != Err(S.RateLimited)
    ensures r == Err(S.AuthenticationFailed) ==> step == Fail(id)
    ensures step == Fail(id) ==> r == Err(S.AuthenticationFailed) || r == Err(S.ConnectionLost)
  {
    NegotiationIsSteps(states, steps, a, f, id, ip);
    ghost var wrong := S.Negotiate(utf8, config, false, stream.input) == Err(S.AuthenticationFailed);
    step := if wrong && stream.room >= 2 then Fail(id) else End(id);
    S.NotLimited(utf8, config, stream.input);
    S.RepliesTellOutcome(utf8, config, false, stream.input);
    r := S.NegotiateOn(stream, utf8, config, limiter, ip, checkAt, others, recordAt);
  }

  // ----- no bound without a cap -----

  /** `n` connections of `ip` have passed their check and the first `m` of them have failed since, all at 0. */
  ghost predicate Race(s: State, ip: RL.Ip, n: nat, m: nat) {
    && s.clock == 0 && |s.records| == m <= n
    && (forall id: HandlerId :: id in s.handlers <==> id < n)
    && (forall id: HandlerId :: m <= id < n ==> s.handlers[id] == Handler(ip, Checked(Check(0, 0))))
    && AllAtOnce(s.records, ip)
  }

  lemma {:induction false} RaceAdmits(ip: RL.Ip, n: nat) returns (states: seq<State>, steps: seq<Step>)
    ensures IsRun(states, steps) && Race(states[|steps|], ip, n, 0)
  {
    if n == 0 {
      states, steps := [State(map[], [], 0)], [];
    } else {
      states, steps := RaceAdmits(ip, n - 1);
      var s := states[|steps|];
      states, steps := states + [Apply(s, Admit(n - 1, ip))], steps + [Admit(n - 1, ip)];
    }
  }

  lemma {:induction false} RaceFails(ip: RL.Ip, n: nat, m: nat) returns (states: seq<State>, steps: seq<Step>)
    requires m <= n
    ensures IsRun(states, steps) && Race(states[|steps|], ip, n, m)
  {
    if m == 0 {
      states, steps := RaceAdmits(ip, n);
    } else {
      states, steps := RaceFails(ip, n, m - 1);
      var s := states[|steps|];
      states, steps := states + [Apply(s, Fail(m - 1))], steps + [Fail(m - 1)];
    }
  }

  /** For every number there is a run that records that many failures of one IP at a single instant. */
  lemma NoUniformBound(ip: RL.Ip, n: nat) returns (states: seq<State>, steps: seq<Step>)
    ensures IsRun(states, steps)
    ensures RL.InWindow(TimesOf(states[|steps|].records, ip), 0) == n
  {
    states, steps := RaceFails(ip, n, n);
    AllInWindow(states[|steps|].records, ip);
  }
}
