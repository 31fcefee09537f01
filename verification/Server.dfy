/**
 * The control-channel server: accept and permit logic, handshake and pairing phases, the
 * fan-out registry and the failure limiter, as atomic steps of any number of handlers.
 */
module Server {
  import opened Base
  import opened Protocol
  import opened FailureRecords
  import RL = RateLimiter

  type Id = nat
  type Fingerprint = string

  const MAX_PENDING_CONNECTIONS: nat := 256

  /** The part of a `PairRequest` the server decides on, with the outcome of the proof check. */
  datatype Request = Request(fingerprint: Fingerprint, proofMatches: bool)

  datatype Phase =
    /** TLS handshake, then waiting for `Hello`. */
    | Handshaking
    /** `HelloAck` sent; waiting for `PairRequest`. */
    | AwaitingPair
    /** `is_rate_limited` answered no. */
    | Admitted(request: Request, check: Check)
    /** The fingerprint was read as not paired; the proof decides. */
    | Unpaired(request: Request, check: Check)
    /** The failure is recorded; the rejection is being sent. */
    | Rejecting
    /** Accepted; not yet in the registry. */
    | Accepted(fingerprint: Fingerprint)
    /** In the registry, permit not dropped yet. */
    | Registered(fingerprint: Fingerprint)
    /** In the registry, main loop. */
    | Serving(fingerprint: Fingerprint)
    /** Out of the registry, saying goodbye. */
    | Leaving(fingerprint: Fingerprint)
    | Closed

  datatype Handler = Handler(ip: RL.Ip, phase: Phase)

  /** An outbound item: fanned out to everyone, or sent by the handler to its own peer. */
  datatype Item = Broadcast(envelope: Envelope) | Direct(envelope: Envelope)

  /** The log positions between which a client was registered. */
  datatype Span = Span(start: nat, end: Option<nat>)

  datatype State = State(
    permits: nat,
    nextId: Id,
    handlers: map<Id, Handler>,
    registry: set<Id>,
    queues: map<Id, seq<Item>>,
    spans: map<Id, Span>,
    log: seq<Envelope>,
    paired: set<Fingerprint>,
    records: seq<Record>,
    clock: int)

  predicate Initial(s: State) {
    && s.permits == MAX_PENDING_CONNECTIONS
    && s.handlers == map[] && s.registry == {} && s.queues == map[] && s.spans == map[]
    && s.log == [] && s.records == []
  }

  // ----- phases -----

  predicate HoldsPermit(phase: Phase) {
    !(phase.Serving? || phase.Leaving? || phase.Closed?)
  }

  predicate InRegistry(phase: Phase) {
    phase.Registered? || phase.Serving?
  }

  /** Passed the limiter check and may still record a failure. */
  predicate Pending(phase: Phase) {
    phase.Admitted? || phase.Unpaired?
  }

  function Holders(s: State): set<Id> {
    set id | id in s.handlers && HoldsPermit(s.handlers[id].phase)
  }

  function PendingIds(s: State): set<Id> {
    set id | id in s.handlers && Pending(s.handlers[id].phase)
  }

  // ----- atomic steps -----

  datatype Step =
    | Tick(now: int)
    | Accept(ip: RL.Ip)
    | HelloOk(id: Id)
    | RateCheck(id: Id, request: Request)
    | ReadPaired(id: Id)
    | Decide(id: Id)
    | Abort(id: Id)
    | Register(id: Id)
    | DropPermit(id: Id)
    | FanOut(envelope: Envelope)
    | SendOwn(id: Id, envelope: Envelope)
    | Leave(id: Id)
    | Finish(id: Id)

  predicate Enabled(s: State, step: Step) {
    match step
    case Tick(now) => s.clock <= now
    case Accept(_) => s.permits > 0
    case HelloOk(id) => id in s.handlers && s.handlers[id].phase.Handshaking?
    case RateCheck(id, _) => id in s.handlers && s.handlers[id].phase.AwaitingPair?
    case ReadPaired(id) => id in s.handlers && s.handlers[id].phase.Admitted?
    case Decide(id) => id in s.handlers && s.handlers[id].phase.Unpaired?
    case Abort(id) =>
      id in s.handlers && HoldsPermit(s.handlers[id].phase) && !InRegistry(s.handlers[id].phase)
    case Register(id) => id in s.handlers && s.handlers[id].phase.Accepted?
    case DropPermit(id) => id in s.handlers && s.handlers[id].phase.Registered?
    case FanOut(_) => true
    case SendOwn(id, _) =>
      id in s.handlers && (InRegistry(s.handlers[id].phase) || s.handlers[id].phase.Leaving?)
    case Leave(id) => id in s.handlers && s.handlers[id].phase.Serving?
    case Finish(id) => id in s.handlers && s.handlers[id].phase.Leaving?
  }

  function Goto(s: State, id: Id, phase: Phase): State
    requires id in s.handlers
  {
    s.(handlers := s.handlers[id := s.handlers[id].(phase := phase)])
  }

  /** A handler returns early: its permit is dropped with it. */
  function Close(s: State, id: Id): State
    requires id in s.handlers
  {
    Goto(s, id, Closed).(permits := s.permits + 1)
  }

  /** `broadcast`: under the registry lock, one copy for every registered client. */
  function Deliver(queues: map<Id, seq<Item>>, registry: set<Id>, e: Envelope): map<Id, seq<Item>> {
    map id | id in queues :: if id in registry then queues[id] + [Broadcast(e)] else queues[id]
  }

  function Apply(s: State, step: Step): State
    requires Enabled(s, step)
  {
    match step
    case Tick(now) => s.(clock := now)
    case Accept(ip) =>
      s.(permits := s.permits - 1, nextId := s.nextId + 1,
         handlers := s.handlers[s.nextId := Handler(ip, Handshaking)])
    case HelloOk(id) => Goto(s, id, AwaitingPair)
    case RateCheck(id, request) =>
      if RL.Limited(TimesOf(s.records, s.handlers[id].ip), s.clock) then Close(s, id)
      else Goto(s, id, Admitted(request, Check(s.clock, |s.records|)))
    case ReadPaired(id) =>
      var phase := s.handlers[id].phase;
      Goto(s, id, if phase.request.fingerprint in s.paired
                  then Accepted(phase.request.fingerprint)
                  else Unpaired(phase.request, phase.check))
    case Decide(id) =>
      var phase := s.handlers[id].phase;
      if phase.request.proofMatches then
        Goto(s, id, Accepted(phase.request.fingerprint))
        .(paired := s.paired + {phase.request.fingerprint})
      else
        Goto(s, id, Rejecting)
        .(records := s.records
                     + [Record(RL.Failure(s.handlers[id].ip, s.clock), id, phase.check, PendingIds(s))])
    case Abort(id) => Close(s, id)
    case Register(id) =>
      Goto(s, id, Registered(s.handlers[id].phase.fingerprint))
      .(registry := s.registry + {id}, queues := s.queues[id := []],
        spans := s.spans[id := Span(|s.log|, None)])
    case DropPermit(id) =>
      Goto(s, id, Serving(s.handlers[id].phase.fingerprint)).(permits := s.permits + 1)
    case FanOut(e) => s.(queues := Deliver(s.queues, s.registry, e), log := s.log + [e])
    case SendOwn(id, e) =>
      s.(queues := s.queues[id := (if id in s.queues then s.queues[id] else []) + [Direct(e)]])
    case Leave(id) =>
      Goto(s, id, Leaving(s.handlers[id].phase.fingerprint))
      .(registry := s.registry - {id},
        spans := s.spans[id := Span(if id in s.spans then s.spans[id].start else 0, Some(|s.log|))])
    case Finish(id) => Goto(s, id, Closed)
  }

  predicate IsRun(states: seq<State>, steps: seq<Step>) {
    && |states| == |steps| + 1
    && Initial(states[0])
    && forall i :: 0 <= i < |steps| ==>
                     Enabled(states[i], steps[i]) && states[i + 1] == Apply(states[i], steps[i])
  }

  // ----- permits and registry -----

  ghost predicate PermitsOk(s: State) {
    && s.permits + |Holders(s)| == MAX_PENDING_CONNECTIONS
    && forall id :: id in s.handlers ==> id < s.nextId
  }

  ghost predicate RegistryOk(s: State) {
    && s.registry == (set id | id in s.handlers && InRegistry(s.handlers[id].phase))
    && forall id :: id in s.handlers && (InRegistry(s.handlers[id].phase) || s.handlers[id].phase.Accepted?)
                    ==> s.handlers[id].phase.fingerprint in s.paired
  }

  /** The handler a step moves, if any. */
  function Moved(s: State, step: Step): Option<Id> {
    match step
    case Tick(_) => None
    case FanOut(_) => None
    case Accept(_) => Some(s.nextId)
    case _ => Some(step.id)
  }

  predicate Held(s: State, id: Id) {
    id in s.handlers && HoldsPermit(s.handlers[id].phase)
  }

  function PermitOf(s: State, id: Id): nat {
    if Held(s, id) then 1 else 0
  }

  /** A step moves one handler; the others stay. */
  lemma StepMovesOne(s: State, step: Step, id: Id)
    requires Enabled(s, step) && PermitsOk(s) && Moved(s, step) == Some(id)
    ensures var s' := Apply(s, step);
            && s'.handlers.Keys == s.handlers.Keys + {id}
            && (forall u :: u in s.handlers && u != id ==> s'.handlers[u] == s.handlers[u])
            && s.nextId <= s'.nextId && (id < s'.nextId || id in s.handlers)
  {
    match step
    case Accept(_) =>
    case RateCheck(_, _) =>
    case Decide(_) =>
    case _ =>
  }

  /** It trades that handler's permit against the free ones. */
  lemma StepTradesPermit(s: State, step: Step, id: Id)
    requires Enabled(s, step) && PermitsOk(s) && Moved(s, step) == Some(id)
    ensures var s' := Apply(s, step);
            s'.permits + PermitOf(s', id) == s.permits + PermitOf(s, id)
  {
    match step
    case Accept(_) => assert !Held(s, s.nextId);
    case RateCheck(_, _) =>
    case Decide(_) =>
    case _ =>
  }

  lemma HoldersMove(s: State, s': State, id: Id)
    requires s'.handlers.Keys == s.handlers.Keys + {id}
    requires forall u :: u in s.handlers && u != id ==> s'.handlers[u] == s.handlers[u]
    ensures |Holders(s')| + PermitOf(s, id) == |Holders(s)| + PermitOf(s', id)
  {
    SizeWithout(Holders(s), id);
    SizeWithout(Holders(s'), id);
    OthersKeepPermits(s, s', id);
  }

  lemma OthersKeepPermits(s: State, s': State, id: Id)
    requires s'.handlers.Keys == s.handlers.Keys + {id}
    requires forall u :: u in s.handlers && u != id ==> s'.handlers[u] == s.handlers[u]
    ensures Holders(s') - {id} == Holders(s) - {id}
  {
    assert forall u :: u != id ==> (u in s'.handlers <==> u in s.handlers);
  }

  lemma SizeWithout(ids: set<Id>, id: Id)
    ensures |ids| == |ids - {id}| + if id in ids then 1 else 0
  {
    if id in ids {
      assert ids == (ids - {id}) + {id};
    } else {
      assert ids == ids - {id};
    }
  }

  lemma StepKeepsPermits(s: State, step: Step)
    requires Enabled(s, step) && PermitsOk(s)
    ensures PermitsOk(Apply(s, step))
  {
    var s' := Apply(s, step);
    var m := Moved(s, step);
    if m.Some? {
      StepMovesOne(s, step, m.value);
      StepTradesPermit(s, step, m.value);
      HoldersMove(s, s', m.value);
    } else {
      assert Holders(s') == Holders(s);
    }
  }

  /** Accepted or registered handlers are paired. */
  predicate PairedIfIn(s: State, id: Id)
    requires id in s.handlers
  {
    var phase := s.handlers[id].phase;
    InRegistry(phase) || phase.Accepted? ==> phase.fingerprint in s.paired
  }

  /** A step changes the registry only for the handler it moves, and pairs it before it registers. */
  lemma StepMovesRegistry(s: State, step: Step, id: Id)
    requires Enabled(s, step) && PermitsOk(s) && Moved(s, step) == Some(id)
    requires id in s.handlers ==> (id in s.registry <==> InRegistry(s.handlers[id].phase)) && PairedIfIn(s, id)
    requires id !in s.handlers ==> id !in s.registry
    ensures var s' := Apply(s, step);
            && s'.registry - {id} == s.registry - {id} && s.paired <= s'.paired
            && id in s'.handlers && (id in s'.registry <==> InRegistry(s'.handlers[id].phase)) && PairedIfIn(s', id)
  {
    match step
    case Register(_) =>
    case Leave(_) =>
    case Decide(_) =>
    case ReadPaired(_) =>
    case _ =>
  }

  lemma RegistryFrame(s: State, s': State, id: Id)
    requires RegistryOk(s) && s'.handlers.Keys == s.handlers.Keys + {id}
    requires forall u :: u in s.handlers && u != id ==> s'.handlers[u] == s.handlers[u]
    requires s'.registry - {id} == s.registry - {id} && s.paired <= s'.paired
    requires (id in s'.registry <==> InRegistry(s'.handlers[id].phase)) && PairedIfIn(s', id)
    ensures RegistryOk(s')
  {
    forall u | u != id
      ensures u in s'.registry <==> u in s'.handlers && InRegistry(s'.handlers[u].phase)
    {
      assert u in s'.registry - {id} <==> u in s.registry - {id};
    }
  }

  lemma StepKeepsRegistry(s: State, step: Step)
    requires Enabled(s, step) && PermitsOk(s) && RegistryOk(s)
    ensures RegistryOk(Apply(s, step))
  {
    var m := Moved(s, step);
    if m.Some? {
      StepMovesOne(s, step, m.value);
      StepMovesRegistry(s, step, m.value);
      RegistryFrame(s, Apply(s, step), m.value);
    }
  }

  // ----- fan-out -----

  /** The broadcasts in an outbound queue, in order. */
  function Broadcasts(queue: seq<Item>): seq<Envelope> {
    if queue == [] then []
    else
      var last := queue[|queue| - 1];
      Broadcasts(queue[..|queue| - 1]) + (if last.Broadcast? then [last.envelope] else [])
  }

  lemma BroadcastsSnoc(queue: seq<Item>, item: Item)
    ensures Broadcasts(queue + [item])
            == Broadcasts(queue) + (if item.Broadcast? then [item.envelope] else [])
  {
    assert (queue + [item])[..|queue|] == queue;
  }

  function EndOf(s: State, id: Id): nat
    requires id in s.spans
  {
    if s.spans[id].end.Some? then s.spans[id].end.value else |s.log|
  }

  /** The client received exactly the broadcasts of its span. */
  ghost predicate ReceivedSlice(s: State, id: Id) {
    && id in s.spans && id in s.queues
    && s.spans[id].start <= EndOf(s, id) <= |s.log|
    && Broadcasts(s.queues[id]) == s.log[s.spans[id].start..EndOf(s, id)]
    && (s.spans[id].end.None? <==> id in s.registry)
  }

  predicate HasQueue(phase: Phase) {
    InRegistry(phase) || phase.Leaving?
  }

  /** Exactly the clients that are or were registered have a queue and a span. */
  ghost predicate QueuesOk(s: State) {
    && s.queues.Keys == s.spans.Keys
    && (forall id :: id in s.spans ==>
          id in s.handlers && (HasQueue(s.handlers[id].phase) || s.handlers[id].phase.Closed?))
    && (forall id :: id in s.handlers && HasQueue(s.handlers[id].phase) ==> id in s.spans)
  }

  ghost predicate FanOutOk(s: State) {
    QueuesOk(s) && forall id :: id in s.spans ==> ReceivedSlice(s, id)
  }

  /** Whether a handler and its queue go together: none before registration, one from then on. */
  predicate QueueFits(s: State, id: Id) {
    && (id in s.spans ==> id in s.handlers && (HasQueue(s.handlers[id].phase) || s.handlers[id].phase.Closed?))
    && (id in s.handlers && HasQueue(s.handlers[id].phase) ==> id in s.spans)
  }

  /** A step makes a queue and a span at most for the handler it moves. */
  lemma StepMovesQueue(s: State, step: Step, id: Id)
    requires Enabled(s, step) && PermitsOk(s) && Moved(s, step) == Some(id)
    requires s.queues.Keys == s.spans.Keys && QueueFits(s, id)
    ensures var s' := Apply(s, step);
            && s'.queues.Keys == s'.spans.Keys && s'.spans.Keys - {id} == s.spans.Keys - {id}
            && QueueFits(s', id)
  {
    match step
    case Register(_) =>
    case Leave(_) =>
    case SendOwn(_, _) =>
    case Accept(_) =>
    case _ =>
  }

  lemma QueuesFrame(s: State, s': State, id: Id)
    requires QueuesOk(s) && s'.handlers.Keys == s.handlers.Keys + {id}
    requires forall u :: u in s.handlers && u != id ==> s'.handlers[u] == s.handlers[u]
    requires s'.queues.Keys == s'.spans.Keys && s'.spans.Keys - {id} == s.spans.Keys - {id}
    requires QueueFits(s', id)
    ensures QueuesOk(s')
  {
    forall u
      ensures QueueFits(s', u)
      ensures u in s'.spans ==> u in s'.handlers
      ensures u in s'.handlers && HasQueue(s'.handlers[u].phase) ==> u in s'.spans
    {
      if u != id {
        assert u in s'.spans.Keys - {id} <==> u in s.spans.Keys - {id};
        assert QueueFits(s, u);
      }
    }
  }

  lemma StepKeepsQueues(s: State, step: Step)
    requires Enabled(s, step) && PermitsOk(s) && QueuesOk(s)
    ensures QueuesOk(Apply(s, step))
  {
    var m := Moved(s, step);
    if m.Some? {
      assert QueueFits(s, m.value);
      StepMovesOne(s, step, m.value);
      StepMovesQueue(s, step, m.value);
      QueuesFrame(s, Apply(s, step), m.value);
    }
  }

  lemma FanOutKeepsSlice(s: State, e: Envelope, id: Id)
    requires id in s.spans && ReceivedSlice(s, id)
    ensures ReceivedSlice(Apply(s, FanOut(e)), id)
  {
    var s' := Apply(s, FanOut(e));
    BroadcastsSnoc(s.queues[id], Broadcast(e));
    var start, end := s.spans[id].start, EndOf(s, id);
    if id in s.registry {
      assert s'.log[start..|s'.log|] == s.log[start..|s.log|] + [e];
    } else {
      assert s'.log[start..end] == s.log[start..end];
    }
  }

  lemma SendOwnKeepsSlice(s: State, own: Id, e: Envelope, id: Id)
    requires Enabled(s, SendOwn(own, e)) && own in s.queues
    requires id in s.spans && ReceivedSlice(s, id)
    ensures ReceivedSlice(Apply(s, SendOwn(own, e)), id)
  {
    BroadcastsSnoc(s.queues[own], Direct(e));
  }

  /** What leaves a client's queue and span, its registration and the log alone keeps its slice. */
  lemma FrameKeepsSlice(s: State, s': State, id: Id)
    requires ReceivedSlice(s, id) && id in s'.spans && id in s'.queues
    requires s'.spans[id] == s.spans[id] && s'.queues[id] == s.queues[id] && s'.log == s.log
    requires id in s'.registry <==> id in s.registry
    ensures ReceivedSlice(s', id)
  {
  }

  lemma StepLeavesQueue(s: State, step: Step, id: Id)
    requires Enabled(s, step) && QueuesOk(s) && id in s.spans && ReceivedSlice(s, id)
    requires !step.FanOut? && !step.SendOwn? && step != Register(id) && step != Leave(id)
    ensures ReceivedSlice(Apply(s, step), id)
  {
    var s' := Apply(s, step);
    assert s'.log == s.log;
    assert id in s'.spans && s'.spans[id] == s.spans[id];
    assert id in s'.queues && s'.queues[id] == s.queues[id];
    FrameKeepsSlice(s, s', id);
  }

  lemma RegisterStartsSlice(s: State, id: Id)
    requires Enabled(s, Register(id))
    ensures ReceivedSlice(Apply(s, Register(id)), id)
  {
    assert s.log[|s.log|..|s.log|] == [];
  }

  lemma LeaveEndsSlice(s: State, id: Id)
    requires Enabled(s, Leave(id)) && id in s.registry && ReceivedSlice(s, id)
    ensures ReceivedSlice(Apply(s, Leave(id)), id)
  {
  }

  lemma StepKeepsSlice(s: State, step: Step, id: Id)
    requires Enabled(s, step) && RegistryOk(s) && FanOutOk(s)
    requires id in Apply(s, step).spans
    ensures ReceivedSlice(Apply(s, step), id)
  {
    if step == Register(id) {
      RegisterStartsSlice(s, id);
    } else {
      assert id in s.spans && ReceivedSlice(s, id);
      if step.FanOut? {
        FanOutKeepsSlice(s, step.envelope, id);
      } else if step.SendOwn? {
        SendOwnKeepsSlice(s, step.id, step.envelope, id);
      } else if step == Leave(id) {
        LeaveEndsSlice(s, id);
      } else {
        StepLeavesQueue(s, step, id);
      }
    }
  }

  lemma StepKeepsFanOut(s: State, step: Step)
    requires Enabled(s, step) && PermitsOk(s) && RegistryOk(s) && FanOutOk(s)
    ensures FanOutOk(Apply(s, step))
  {
    StepKeepsQueues(s, step);
    forall id | id in Apply(s, step).spans
      ensures ReceivedSlice(Apply(s, step), id)
    {
      StepKeepsSlice(s, step, id);
    }
  }

  // ----- who recorded which failure -----

  /** A handler that passed its check has been pending at every record since. */
  ghost predicate PendingOk(s: State, id: Id)
    requires id in s.handlers && Pending(s.handlers[id].phase)
  {
    var check := s.handlers[id].phase.check;
    && check.at <= s.clock
    && CheckOk(s.records, s.handlers[id].ip, check)
    && (forall i :: check.seen <= i < |s.records| ==> id in s.records[i].pending)
  }

  predicate Finished(s: State, id: Id) {
    id in s.handlers && (s.handlers[id].phase.Rejecting? || s.handlers[id].phase.Closed?)
  }

  ghost predicate LimiterOk(s: State) {
    && RecordsOk(s.records)
    && (forall j :: 0 <= j < |s.records| ==>
          && s.records[j].failure.at <= s.clock && Finished(s, s.records[j].author)
          && |s.records[j].pending| <= MAX_PENDING_CONNECTIONS)
    && (forall id :: id in s.handlers && Pending(s.handlers[id].phase) ==> PendingOk(s, id))
  }

  lemma PendingWithinPermits(s: State)
    requires PermitsOk(s)
    ensures |PendingIds(s)| <= MAX_PENDING_CONNECTIONS
  {
    SubsetSize(PendingIds(s), Holders(s));
  }

  /** Appending the record of a pending handler keeps the record invariant. */
  lemma AppendRecord(s: State, id: Id)
    requires PermitsOk(s) && LimiterOk(s)
    requires Enabled(s, Decide(id)) && !s.handlers[id].phase.request.proofMatches
    ensures RecordsOk(Apply(s, Decide(id)).records)
  {
    var r := Record(RL.Failure(s.handlers[id].ip, s.clock), id, s.handlers[id].phase.check, PendingIds(s));
    assert PendingOk(s, id);
    forall i | 0 <= i < |s.records|
      ensures s.records[i].author != id
    {
      assert Finished(s, s.records[i].author);
    }
    AppendKeepsRecords(s.records, r);
  }

  lemma CheckStartsPending(s: State, id: Id, request: Request)
    requires Enabled(s, RateCheck(id, request)) && LimiterOk(s)
    requires var s' := Apply(s, RateCheck(id, request)); id in s'.handlers && Pending(s'.handlers[id].phase)
    ensures PendingOk(Apply(s, RateCheck(id, request)), id)
  {
    assert s.records[..|s.records|] == s.records;
  }

  /** A pending handler that keeps its check stays accounted for as time passes and records are added. */
  lemma PendingFrame(s: State, s': State, id: Id)
    requires id in s.handlers && Pending(s.handlers[id].phase) && PendingOk(s, id)
    requires id in s'.handlers && Pending(s'.handlers[id].phase) && s'.handlers[id].ip == s.handlers[id].ip
    requires s'.handlers[id].phase.check == s.handlers[id].phase.check && s.clock <= s'.clock
    requires s'.records == s.records
             || exists r: Record :: s'.records == s.records + [r] && id in r.pending
    ensures PendingOk(s', id)
  {
    if s'.records != s.records {
      var r: Record :| s'.records == s.records + [r] && id in r.pending;
      CheckOkExtends(s.records, r, s.handlers[id].ip, s.handlers[id].phase.check);
    }
  }

  /** Only a check makes a handler pending; every record notes who is. */
  lemma StepMovesPending(s: State, step: Step, id: Id)
    requires Enabled(s, step)
    requires var s' := Apply(s, step); id in s'.handlers && Pending(s'.handlers[id].phase)
    requires !(step.RateCheck? && step.id == id)
    ensures var s' := Apply(s, step);
            && id in s.handlers && Pending(s.handlers[id].phase) && s'.handlers[id].ip == s.handlers[id].ip
            && s'.handlers[id].phase.check == s.handlers[id].phase.check && s.clock <= s'.clock
            && (s'.records == s.records
                || exists r: Record :: s'.records == s.records + [r] && id in r.pending)
  {
    match step
    case Decide(_) =>
    case ReadPaired(_) =>
    case _ =>
  }

  lemma StepKeepsPending(s: State, step: Step, id: Id)
    requires Enabled(s, step) && LimiterOk(s)
    requires var s' := Apply(s, step); id in s'.handlers && Pending(s'.handlers[id].phase)
    ensures PendingOk(Apply(s, step), id)
  {
    if step.RateCheck? && step.id == id {
      CheckStartsPending(s, id, step.request);
    } else {
      StepMovesPending(s, step, id);
      PendingFrame(s, Apply(s, step), id);
    }
  }

  lemma StepKeepsLimiter(s: State, step: Step)
    requires Enabled(s, step) && PermitsOk(s) && LimiterOk(s)
    ensures LimiterOk(Apply(s, step))
  {
    var s' := Apply(s, step);
    forall id | id in s'.handlers && Pending(s'.handlers[id].phase)
      ensures PendingOk(s', id)
    {
      StepKeepsPending(s, step, id);
    }
    if s'.records != s.records {
      AppendRecord(s, step.id);
    }
    PendingWithinPermits(s);
    forall j | 0 <= j < |s'.records|
      ensures s'.records[j].failure.at <= s'.clock && Finished(s', s'.records[j].author)
      ensures |s'.records[j].pending| <= MAX_PENDING_CONNECTIONS
    {
      if j < |s.records| {
        assert Finished(s, s.records[j].author);
      }
    }
  }

  // ----- every reachable state -----

  ghost predicate Inv(s: State) {
    PermitsOk(s) && RegistryOk(s) && FanOutOk(s) && LimiterOk(s)
  }

  lemma InitialInv(s: State)
    requires Initial(s)
    ensures Inv(s)
  {
    assert Holders(s) == {};
  }

  lemma StepKeepsInv(s: State, step: Step)
    requires Enabled(s, step) && Inv(s)
    ensures Inv(Apply(s, step))
  {
    StepKeepsPermits(s, step);
    StepKeepsRegistry(s, step);
    StepKeepsFanOut(s, step);
    StepKeepsLimiter(s, step);
  }

  lemma {:induction false} RunKeepsInv(states: seq<State>, steps: seq<Step>, k: nat)
    requires IsRun(states, steps) && k < |states|
    ensures Inv(states[k])
  {
    if k == 0 {
      InitialInv(states[0]);
    } else {
      RunKeepsInv(states, steps, k - 1);
      StepKeepsInv(states[k - 1], steps[k - 1]);
    }
  }

  /**
   * In every reachable state free permits plus handlers holding one are 256, the registry holds
   * exactly the handlers between registration and removal, and each of those is paired.
   */
  lemma ReachableServer(states: seq<State>, steps: seq<Step>, k: nat)
    requires IsRun(states, steps) && k < |states|
    ensures var s := states[k];
            && s.permits + |Holders(s)| == 256
            && (forall id :: id in s.registry <==>
                  id in s.handlers && InRegistry(s.handlers[id].phase))
            && (forall id :: id in s.registry ==> s.handlers[id].phase.fingerprint in s.paired)
  {
    RunKeepsInv(states, steps, k);
  }

  // ----- total-order fan-out over runs -----

  /** A step neither moves the start of a span nor reopens a closed one, and the log only grows. */
  lemma StepKeepsSpan(s: State, step: Step, id: Id)
    requires Enabled(s, step) && Inv(s) && id in s.spans
    ensures var s' := Apply(s, step);
            && id in s'.spans && s'.spans[id].start == s.spans[id].start
            && (s'.spans[id].end == s.spans[id].end
                || (step == Leave(id) && s'.spans[id].end == Some(|s.log|)))
            && (s.spans[id].end.Some? ==> step != Leave(id))
            && s.log <= s'.log
  {
    LogGrows(s, step);
    assert step != Register(id);
    if step == Leave(id) {
      assert id in s.registry && ReceivedSlice(s, id);
    } else {
      OtherSpanStays(s, step, id);
    }
  }

  lemma LogGrows(s: State, step: Step)
    requires Enabled(s, step)
    ensures s.log <= Apply(s, step).log
  {
  }

  lemma OtherSpanStays(s: State, step: Step, id: Id)
    requires Enabled(s, step) && id in s.spans && step != Register(id) && step != Leave(id)
    ensures id in Apply(s, step).spans && Apply(s, step).spans[id] == s.spans[id]
  {
  }

  lemma {:induction false} SpanStarts(states: seq<State>, steps: seq<Step>, r: nat, k: nat, id: Id)
    requires IsRun(states, steps) && r < k < |states| && steps[r] == Register(id)
    ensures id in states[k].spans && states[k].spans[id].start == |states[r].log|
    ensures states[r].log <= states[k].log
  {
    if k > r + 1 {
      SpanStarts(states, steps, r, k - 1, id);
      RunKeepsInv(states, steps, k - 1);
      StepKeepsSpan(states[k - 1], steps[k - 1], id);
    }
  }

  lemma {:induction false} SpanEnds(states: seq<State>, steps: seq<Step>, l: nat, k: nat, id: Id)
    requires IsRun(states, steps) && l < k < |states| && steps[l] == Leave(id)
    ensures id in states[k].spans && states[k].spans[id].end == Some(|states[l].log|)
  {
    RunKeepsInv(states, steps, k - 1);
    if k > l + 1 {
      SpanEnds(states, steps, l, k - 1, id);
      StepKeepsSpan(states[k - 1], steps[k - 1], id);
    }
  }

  lemma {:induction false} SpanOpen(states: seq<State>, steps: seq<Step>, r: nat, k: nat, id: Id)
    requires IsRun(states, steps) && r < k < |states| && steps[r] == Register(id)
    requires forall l :: r < l < k ==> steps[l] != Leave(id)
    ensures id in states[k].spans && states[k].spans[id].end.None?
  {
    if k > r + 1 {
      SpanOpen(states, steps, r, k - 1, id);
      RunKeepsInv(states, steps, k - 1);
      StepKeepsSpan(states[k - 1], steps[k - 1], id);
    }
  }

  /**
   * Total order: after any run, the broadcasts in a client's queue are exactly the contiguous
   * slice of the one global broadcast log from its registration to its removal, or to now.
   */
  lemma FanOutIsSlice(states: seq<State>, steps: seq<Step>, r: nat, l: nat, k: nat, id: Id)
    requires IsRun(states, steps) && r < l <= k < |states|
    requires steps[r] == Register(id)
    requires if l < k then steps[l] == Leave(id) else forall m :: r < m < k ==> steps[m] != Leave(id)
    ensures |states[r].log| <= |states[l].log| <= |states[k].log|
    ensures id in states[k].queues
    ensures Broadcasts(states[k].queues[id]) == states[k].log[|states[r].log|..|states[l].log|]
  {
    RunKeepsInv(states, steps, k);
    SpanStarts(states, steps, r, k, id);
    assert ReceivedSlice(states[k], id);
    if l < k {
      SpanEnds(states, steps, l, k, id);
    } else {
      SpanOpen(states, steps, r, k, id);
    }
  }

  /** The client's queue holds log positions `lo..hi`, contiguously and in order. */
  ghost predicate HasPart(s: State, id: Id, lo: nat, hi: nat) {
    && ReceivedSlice(s, id)
    && s.spans[id].start <= lo <= hi <= EndOf(s, id)
    && Broadcasts(s.queues[id])[lo - s.spans[id].start..hi - s.spans[id].start] == s.log[lo..hi]
  }

  lemma PartOfSlice(s: State, id: Id, lo: nat, hi: nat)
    requires ReceivedSlice(s, id) && s.spans[id].start <= lo <= hi <= EndOf(s, id)
    ensures HasPart(s, id, lo, hi)
  {
    SliceOfSlice(s.log, s.spans[id].start, EndOf(s, id), lo, hi);
  }

  /** Any two clients hold the same broadcasts, in the same order, for the time both were registered. */
  lemma ClientsAgree(states: seq<State>, steps: seq<Step>, k: nat, a: Id, b: Id, lo: nat, hi: nat)
    requires IsRun(states, steps) && k < |states|
    requires a in states[k].spans && b in states[k].spans
    requires states[k].spans[a].start <= lo <= hi <= EndOf(states[k], a)
    requires states[k].spans[b].start <= lo <= hi <= EndOf(states[k], b)
    ensures HasPart(states[k], a, lo, hi) && HasPart(states[k], b, lo, hi)
  {
    assert ReceivedSlice(states[k], a) && ReceivedSlice(states[k], b) by {
      RunKeepsInv(states, steps, k);
    }
    PartOfSlice(states[k], a, lo, hi);
    PartOfSlice(states[k], b, lo, hi);
  }

  lemma SliceOfSlice(log: seq<Envelope>, start: nat, end: nat, lo: nat, hi: nat)
    requires start <= lo <= hi <= end <= |log|
    ensures log[start..end][lo - start..hi - start] == log[lo..hi]
  {
    assert forall i :: 0 <= i < hi - lo ==>
                         log[start..end][lo - start..hi - start][i] == log[lo..hi][i];
  }

  // ----- pairing -----

  /** Step `j` is the limiter check that admitted `id` with this request. */
  ghost predicate AdmittedAt(states: seq<State>, steps: seq<Step>, j: nat, id: Id, request: Request)
    requires |states| == |steps| + 1
  {
    && j < |steps| && steps[j] == RateCheck(id, request)
    && id in states[j].handlers
    && !RL.Limited(TimesOf(states[j].records, states[j].handlers[id].ip), states[j].clock)
  }

  /** A handler becomes pending only through its own limiter check. */
  lemma PendingBefore(s: State, step: Step, id: Id)
    requires Enabled(s, step)
    requires var s' := Apply(s, step); id in s'.handlers && Pending(s'.handlers[id].phase)
    ensures id in s.handlers
    ensures var request := Apply(s, step).handlers[id].phase.request;
            || (step == RateCheck(id, request)
                && !RL.Limited(TimesOf(s.records, s.handlers[id].ip), s.clock))
            || (Pending(s.handlers[id].phase) && s.handlers[id].phase.request == request)
  {
  }

  lemma {:induction false} PendingWasAdmitted(states: seq<State>, steps: seq<Step>, k: nat, id: Id)
    requires IsRun(states, steps) && k < |states|
    requires id in states[k].handlers && Pending(states[k].handlers[id].phase)
    ensures exists j: nat :: j < k && AdmittedAt(states, steps, j, id, states[k].handlers[id].phase.request)
  {
    PendingBefore(states[k - 1], steps[k - 1], id);
    if steps[k - 1].RateCheck? && steps[k - 1].id == id {
      assert AdmittedAt(states, steps, k - 1, id, states[k].handlers[id].phase.request);
    } else {
      PendingWasAdmitted(states, steps, k - 1, id);
    }
  }

  /** A fingerprint joins the paired set only through a matching proof sent by an unlimited peer. */
  lemma {:induction false} PairingNeedsProof(states: seq<State>, steps: seq<Step>, k: nat, fp: Fingerprint)
    requires IsRun(states, steps) && k < |states|
    requires fp in states[k].paired && fp !in states[0].paired
    ensures exists i: nat, j: nat, id: Id ::
              j < i < k && steps[i] == Decide(id)
              && AdmittedAt(states, steps, j, id, Request(fp, true))
  {
    if fp in states[k - 1].paired {
      PairingNeedsProof(states, steps, k - 1, fp);
      var i: nat, j: nat, id: Id :| j < i < k - 1 && steps[i] == Decide(id)
                                    && AdmittedAt(states, steps, j, id, Request(fp, true));
    } else {
      var id := steps[k - 1].id;
      PendingWasAdmitted(states, steps, k - 1, id);
      var j: nat :| j < k - 1 && AdmittedAt(states, steps, j, id, Request(fp, true));
      assert steps[k - 1] == Decide(id);
    }
  }

  // ----- who is accepted -----

  /** Accepted as the device `fp`: about to register, registered, or on its way out again. */
  predicate AcceptedAs(phase: Phase, fp: Fingerprint) {
    (phase.Accepted? || phase.Registered? || phase.Serving? || phase.Leaving?) && phase.fingerprint == fp
  }

  ghost predicate NoRecordBy(records: seq<Record>, id: Id) {
    forall j :: 0 <= j < |records| ==> records[j].author != id
  }

  /** Turned down: a handler that still has to say so, or is gone. */
  predicate TurnedDown(phase: Phase) {
    phase.Rejecting? || phase.Closed?
  }

  /** A step moves an accepted handler only along its registration, never back to being judged. */
  lemma AcceptedStep(s: State, step: Step, id: Id, fp: Fingerprint)
    requires Enabled(s, step) && PermitsOk(s) && id in s.handlers
    requires AcceptedAs(s.handlers[id].phase, fp) || s.handlers[id].phase.Closed?
    ensures var s' := Apply(s, step);
            && id in s'.handlers && s.paired <= s'.paired
            && (AcceptedAs(s'.handlers[id].phase, fp) || s'.handlers[id].phase.Closed?)
            && (NoRecordBy(s.records, id) ==> NoRecordBy(s'.records, id))
  {
    RecordsStep(s, step);
    match step
    case Register(_) =>
    case Decide(_) =>
    case ReadPaired(_) =>
    case RateCheck(_, _) =>
    case _ =>
  }

  lemma AcceptedHasNoRecord(s: State, id: Id)
    requires LimiterOk(s) && id in s.handlers && !TurnedDown(s.handlers[id].phase)
    ensures NoRecordBy(s.records, id)
  {
    assert forall j :: 0 <= j < |s.records| ==> Finished(s, s.records[j].author);
  }

  lemma {:induction false} AcceptedStays(
    states: seq<State>, steps: seq<Step>, i: nat, k: nat, id: Id, fp: Fingerprint)
    requires IsRun(states, steps) && i <= k < |states| && id in states[i].handlers
    requires AcceptedAs(states[i].handlers[id].phase, fp) && fp in states[i].paired
    ensures id in states[k].handlers && fp in states[k].paired
    ensures AcceptedAs(states[k].handlers[id].phase, fp) || states[k].handlers[id].phase.Closed?
    ensures NoRecordBy(states[k].records, id)
  {
    if i < k {
      AcceptedStays(states, steps, i, k - 1, id, fp);
      assert PermitsOk(states[k - 1]) by { RunKeepsInv(states, steps, k - 1); }
      AcceptedStep(states[k - 1], steps[k - 1], id, fp);
    } else {
      assert LimiterOk(states[k]) by { RunKeepsInv(states, steps, k); }
      AcceptedHasNoRecord(states[k], id);
    }
  }

  lemma {:induction false} TurnedDownStays(states: seq<State>, steps: seq<Step>, i: nat, k: nat, id: Id)
    requires IsRun(states, steps) && i <= k < |states| && id in states[i].handlers
    requires TurnedDown(states[i].handlers[id].phase)
    ensures id in states[k].handlers && TurnedDown(states[k].handlers[id].phase)
    ensures states[i].records <= states[k].records
  {
    if i < k {
      TurnedDownStays(states, steps, i, k - 1, id);
      RunKeepsInv(states, steps, k - 1);
      TurnedDownStep(states[k - 1], steps[k - 1], id);
    }
  }

  lemma TurnedDownStep(s: State, step: Step, id: Id)
    requires Enabled(s, step) && PermitsOk(s) && id in s.handlers && TurnedDown(s.handlers[id].phase)
    ensures var s' := Apply(s, step);
            id in s'.handlers && TurnedDown(s'.handlers[id].phase) && s.records <= s'.records
  {
  }

  /**
   * Reading the fingerprint accepts exactly the known devices: one that is paired is accepted
   * without its proof being looked at, and no failure is ever recorded by its handler; any other
   * is left to its proof.
   */
  lemma KnownDeviceAcceptedIff(states: seq<State>, steps: seq<Step>, i: nat, k: nat, id: Id)
    requires IsRun(states, steps) && i < k < |states| && steps[i] == ReadPaired(id)
    ensures id in states[i].handlers && id in states[i + 1].handlers
    ensures var fp := states[i].handlers[id].phase.request.fingerprint;
            if fp in states[i].paired then
              && states[i + 1].handlers[id].phase == Accepted(fp) && id in states[k].handlers
              && (AcceptedAs(states[k].handlers[id].phase, fp) || states[k].handlers[id].phase.Closed?)
              && NoRecordBy(states[k].records, id)
            else states[i + 1].handlers[id].phase.Unpaired?
                 && states[i + 1].handlers[id].phase.request == states[i].handlers[id].phase.request
  {
    var fp := states[i].handlers[id].phase.request.fingerprint;
    if fp in states[i].paired {
      AcceptedStays(states, steps, i + 1, k, id, fp);
    }
  }

  /**
   * The proof decides for good: a matching one ends accepted, with the fingerprint paired from then
   * on and no failure by this handler; any other is turned down for ever and leaves one failure of
   * its IP at that instant.
   */
  lemma ProofDecidesIff(states: seq<State>, steps: seq<Step>, i: nat, k: nat, id: Id)
    requires IsRun(states, steps) && i < k < |states| && steps[i] == Decide(id)
    ensures id in states[i].handlers && states[i].handlers[id].phase.Unpaired? && id in states[k].handlers
    ensures var request, n := states[i].handlers[id].phase.request, |states[i].records|;
            if request.proofMatches then
              && states[i + 1].handlers[id].phase == Accepted(request.fingerprint)
              && (AcceptedAs(states[k].handlers[id].phase, request.fingerprint) || states[k].handlers[id].phase.Closed?)
              && request.fingerprint in states[k].paired && NoRecordBy(states[k].records, id)
            else
              && TurnedDown(states[k].handlers[id].phase) && n < |states[k].records|
              && states[k].records[n].author == id
              && states[k].records[n].failure == RL.Failure(states[i].handlers[id].ip, states[i].clock)
  {
    var request := states[i].handlers[id].phase.request;
    if request.proofMatches {
      AcceptedStays(states, steps, i + 1, k, id, request.fingerprint);
    } else {
      TurnedDownStays(states, steps, i + 1, k, id);
    }
  }

  /** The limiter check admits a handler with its request exactly when its IP is not limited, or closes it for good. */
  lemma CheckAdmitsIff(states: seq<State>, steps: seq<Step>, i: nat, k: nat, id: Id, request: Request)
    requires IsRun(states, steps) && i < k < |states| && steps[i] == RateCheck(id, request)
    ensures id in states[i].handlers && id in states[i + 1].handlers
    ensures var s := states[i];
            if RL.Limited(TimesOf(s.records, s.handlers[id].ip), s.clock) then
              id in states[k].handlers && TurnedDown(states[k].handlers[id].phase)
            else states[i + 1].handlers[id].phase == Admitted(request, Check(s.clock, |s.records|))
  {
    var s := states[i];
    if RL.Limited(TimesOf(s.records, s.handlers[id].ip), s.clock) {
      TurnedDownStays(states, steps, i + 1, k, id);
    }
  }

  /** No permit is stuck: whoever holds one can give it back, at any point before or just after registering. */
  lemma HolderCanRelease(s: State, id: Id)
    requires Held(s, id)
    ensures var step := if InRegistry(s.handlers[id].phase) then DropPermit(id) else Abort(id);
            Enabled(s, step) && Apply(s, step).permits == s.permits + 1 && !Held(Apply(s, step), id)
  {
  }

  /** A handler that has finished sends nothing any more. */
  lemma FinishedSendsNothing(states: seq<State>, steps: seq<Step>, i: nat, k: nat, id: Id, e: Envelope)
    requires IsRun(states, steps) && i < k < |steps| && steps[i] == Finish(id)
    ensures steps[k] != SendOwn(id, e)
  {
    TurnedDownStays(states, steps, i + 1, k, id);
  }

  /** Step `i` let the handler through: it found the fingerprint paired, or the proof matched. */
  predicate LetThrough(states: seq<State>, steps: seq<Step>, i: nat, id: Id, fp: Fingerprint)
    requires |states| == |steps| + 1
  {
    && i < |steps| && id in states[i].handlers
    && var phase := states[i].handlers[id].phase;
       || (steps[i] == ReadPaired(id) && phase.Admitted? && phase.request.fingerprint == fp && fp in states[i].paired)
       || (steps[i] == Decide(id) && phase.Unpaired? && phase.request == Request(fp, true))
  }

  /** Whoever registers, serves or leaves as a device was let through as that device. */
  lemma {:induction false} AcceptedWasLetThrough(
    states: seq<State>, steps: seq<Step>, k: nat, id: Id, fp: Fingerprint) returns (i: nat)
    requires IsRun(states, steps) && k < |states| && id in states[k].handlers
    requires AcceptedAs(states[k].handlers[id].phase, fp)
    ensures i < k && LetThrough(states, steps, i, id, fp)
  {
    AcceptedBefore(states[k - 1], steps[k - 1], id, fp);
    if LetThrough(states, steps, k - 1, id, fp) {
      i := k - 1;
    } else {
      i := AcceptedWasLetThrough(states, steps, k - 1, id, fp);
    }
  }

  lemma AcceptedBefore(s: State, step: Step, id: Id, fp: Fingerprint)
    requires Enabled(s, step)
    requires var s' := Apply(s, step); id in s'.handlers && AcceptedAs(s'.handlers[id].phase, fp)
    ensures id in s.handlers
    ensures var phase := s.handlers[id].phase;
            || AcceptedAs(phase, fp)
            || (step == ReadPaired(id) && phase.Admitted? && phase.request.fingerprint == fp && fp in s.paired)
            || (step == Decide(id) && phase.Unpaired? && phase.request == Request(fp, true))
  {
  }

  /** Step `i` read the fingerprint of `id` and did not find it paired. */
  predicate FoundUnpaired(states: seq<State>, steps: seq<Step>, i: nat, id: Id)
    requires |states| == |steps| + 1
  {
    && i < |steps| && steps[i] == ReadPaired(id)
    && id in states[i].handlers && states[i].handlers[id].phase.Admitted?
    && states[i].handlers[id].phase.request.fingerprint !in states[i].paired
  }

  lemma {:induction false} UnpairedWasRead(states: seq<State>, steps: seq<Step>, k: nat, id: Id) returns (i: nat)
    requires IsRun(states, steps) && k < |states| && id in states[k].handlers
    requires states[k].handlers[id].phase.Unpaired?
    ensures i < k && FoundUnpaired(states, steps, i, id)
  {
    UnpairedBefore(states[k - 1], steps[k - 1], id);
    if steps[k - 1] == ReadPaired(id) {
      i := k - 1;
    } else {
      i := UnpairedWasRead(states, steps, k - 1, id);
    }
  }

  lemma UnpairedBefore(s: State, step: Step, id: Id)
    requires Enabled(s, step)
    requires var s' := Apply(s, step); id in s'.handlers && s'.handlers[id].phase.Unpaired?
    ensures id in s.handlers
    ensures if step == ReadPaired(id) then
              s.handlers[id].phase.Admitted? && s.handlers[id].phase.request.fingerprint !in s.paired
            else s.handlers[id].phase.Unpaired?
  {
  }

  /** Nobody whose fingerprint was paired when it was read ever has a failure recorded. */
  lemma {:induction false} RecordNeedsUnpaired(states: seq<State>, steps: seq<Step>, k: nat, j: nat)
    returns (h: nat, i: nat)
    requires IsRun(states, steps) && k < |states| && j < |states[k].records|
    ensures h < i < k && steps[i] == Decide(states[k].records[j].author)
    ensures FoundUnpaired(states, steps, h, states[k].records[j].author)
  {
    RecordsStep(states[k - 1], steps[k - 1]);
    if j < |states[k - 1].records| {
      h, i := RecordNeedsUnpaired(states, steps, k - 1, j);
    } else {
      i := k - 1;
      h := UnpairedWasRead(states, steps, i, steps[i].id);
    }
  }

  lemma RecordsStep(s: State, step: Step)
    requires Enabled(s, step)
    ensures var records, records' := s.records, Apply(s, step).records;
            || records' == records
            || (|records'| == |records| + 1 && records'[..|records|] == records && step.Decide?
                && step.id in s.handlers && s.handlers[step.id].phase.Unpaired?
                && records'[|records|].author == step.id)
  {
  }

  // ----- what a client is sent, item by item -----

  /** Whether the steps leave `id` registered: inserted and not removed since. */
  predicate RegisteredBy(steps: seq<Step>, id: Id) {
    if steps == [] then false
    else
      var n := |steps| - 1;
      if steps[n] == Register(id) then true
      else if steps[n] == Leave(id) then false
      else RegisteredBy(steps[..n], id)
  }

  /** What one more step queues for `id`. */
  function NextTraffic(before: seq<Item>, registered: bool, id: Id, step: Step): seq<Item> {
    if step == Register(id) then []
    else if step.FanOut? && registered then before + [Broadcast(step.envelope)]
    else if step.SendOwn? && step.id == id then before + [Direct(step.envelope)]
    else before
  }

  /** Everything queued for `id`: the broadcasts while it is registered and its handler's own messages, in order. */
  function Traffic(steps: seq<Step>, id: Id): seq<Item> {
    if steps == [] then []
    else
      var init := steps[..|steps| - 1];
      NextTraffic(Traffic(init, id), RegisteredBy(init, id), id, steps[|steps| - 1])
  }

  lemma {:induction false} RegistryIsRegistered(states: seq<State>, steps: seq<Step>, k: nat, id: Id)
    requires IsRun(states, steps) && k < |states|
    ensures id in states[k].registry <==> RegisteredBy(steps[..k], id)
  {
    if k > 0 {
      RegistryIsRegistered(states, steps, k - 1, id);
      assert steps[..k][..k - 1] == steps[..k - 1];
    }
  }

  /** A client's queue is exactly its traffic: every broadcast while registered, every reply, nothing else. */
  lemma {:induction false} QueueIsTraffic(states: seq<State>, steps: seq<Step>, k: nat, id: Id)
    requires IsRun(states, steps) && k < |states|
    ensures QueueOf(states[k], id) == Traffic(steps[..k], id)
  {
    if k > 0 {
      QueueIsTraffic(states, steps, k - 1, id);
      RegistryIsRegistered(states, steps, k - 1, id);
      QueueStepInRun(states, steps, k - 1, id);
      assert steps[..k] == steps[..k - 1] + [steps[k - 1]];
      TrafficSnoc(steps[..k - 1], steps[k - 1], id);
    }
  }

  function QueueOf(s: State, id: Id): seq<Item> {
    if id in s.queues then s.queues[id] else []
  }

  lemma QueueStepInRun(states: seq<State>, steps: seq<Step>, k: nat, id: Id)
    requires IsRun(states, steps) && k < |steps|
    ensures QueueOf(states[k + 1], id)
            == NextTraffic(QueueOf(states[k], id), id in states[k].registry, id, steps[k])
  {
    RunKeepsInv(states, steps, k);
    assert id in states[k].registry ==> id in states[k].spans;
    QueueStep(states[k], steps[k], id);
  }

  lemma TrafficSnoc(steps: seq<Step>, step: Step, id: Id)
    ensures Traffic(steps + [step], id) == NextTraffic(Traffic(steps, id), RegisteredBy(steps, id), id, step)
  {
    assert (steps + [step])[..|steps|] == steps;
  }

  lemma QueueStep(s: State, step: Step, id: Id)
    requires Enabled(s, step) && QueuesOk(s) && (id in s.registry ==> id in s.queues)
    ensures QueueOf(Apply(s, step), id) == NextTraffic(QueueOf(s, id), id in s.registry, id, step)
  {
  }

  // ----- failures when handlers interleave between check and record -----

  /**
   * With handlers interleaving freely between check and record, every half-open window of 600
   * seconds holds at most five failures of an IP plus one for each other pending permit.
   */
  lemma InterleavedWindowBound(states: seq<State>, steps: seq<Step>, k: nat, ip: RL.Ip, end: int)
    requires IsRun(states, steps) && k < |states|
    ensures RL.InWindow(TimesOf(states[k].records, ip), end)
            <= 5 + 255
  {
    RunKeepsInv(states, steps, k);
    var records := states[k].records;
    var i := WindowBound(records, ip, end);
    if RL.InWindow(TimesOf(records, ip), end) > RL.RATE_LIMIT_MAX_FAILURES {
      assert |records[i].pending - {records[i].author}| == |records[i].pending| - 1;
    }
  }

  /** In every run, a failure recorded while its IP is blocked comes from a check made before the block. */
  lemma BlockedFailuresPrecede(states: seq<State>, steps: seq<Step>, k: nat, i: nat, j: nat)
    requires IsRun(states, steps) && k < |states| && i < j < |states[k].records|
    requires var rs := states[k].records;
             && Blocks(rs, i) && rs[j].failure.ip == rs[i].failure.ip
             && rs[j].failure.at < rs[i].failure.at + RL.RATE_LIMIT_WINDOW
    ensures states[k].records[j].check.seen <= i
    ensures states[k].records[j].author in states[k].records[i].pending - {states[k].records[i].author}
  {
    RunKeepsInv(states, steps, k);
    BlockedRecordsPrecede(states[k].records, i, j);
  }

  // ----- the shared object -----

  /** The loop over the registered senders. */
  method SendToAll(queues: map<Id, seq<Item>>, registry: set<Id>, e: Envelope)
    returns (delivered: map<Id, seq<Item>>)
    requires registry <= queues.Keys
    ensures delivered == Deliver(queues, registry, e)
  {
    delivered := queues;
    var todo := registry;
    while todo != {}
      invariant todo <= registry
      invariant delivered == Deliver(queues, registry - todo, e)
      decreases todo
    {
      var id :| id in todo;
      delivered := delivered[id := delivered[id] + [Broadcast(e)]];
      todo := todo - {id};
    }
    assert registry - todo == registry;
  }

  /** Some run of the protocol leads to `s`, so all of the above holds of it. */
  ghost predicate Reachable(s: State) {
    exists states, steps :: IsRun(states, steps) && states[|steps|] == s
  }

  lemma InitialReachable(s: State)
    requires Initial(s)
    ensures Reachable(s)
  {
    assert IsRun([s], []);
  }

  lemma StepReachable(s: State, step: Step)
    requires Reachable(s) && Enabled(s, step)
    ensures Reachable(Apply(s, step))
  {
    var states, steps :| IsRun(states, steps) && states[|steps|] == s;
    assert IsRun(states + [Apply(s, step)], steps + [step]);
  }

  lemma ReachableInv(s: State)
    requires Reachable(s)
    ensures Inv(s)
  {
    var states, steps :| IsRun(states, steps) && states[|steps|] == s;
    RunKeepsInv(states, steps, |steps|);
  }

  /** What the limiter check at `now` does to a reachable state. */
  lemma RateChecked(s: State, now: int, id: Id, request: Request)
    requires Reachable(s) && s.clock <= now && Enabled(s, RateCheck(id, request))
    ensures var h := s.handlers[id];
            var limited := RL.Limited(TimesOf(s.records, h.ip), now);
            var phase := if limited then Closed else Admitted(request, Check(now, |s.records|));
            var s' := s.(clock := now, handlers := s.handlers[id := h.(phase := phase)],
                         permits := s.permits + if limited then 1 else 0);
            Apply(Apply(s, Tick(now)), RateCheck(id, request)) == s' && Reachable(s')
  {
    StepReachable(s, Tick(now));
    StepReachable(Apply(s, Tick(now)), RateCheck(id, request));
  }

  /** What a mismatching proof at `now` does to a reachable state. */
  lemma FailureRecorded(s: State, now: int, id: Id)
    requires Reachable(s) && s.clock <= now
    requires Enabled(s, Decide(id)) && !s.handlers[id].phase.request.proofMatches
    ensures forall i :: 0 <= i < |s.records| ==> s.records[i].failure.at <= now
    ensures var h := s.handlers[id];
            var r := Record(RL.Failure(h.ip, now), id, h.phase.check, PendingIds(s));
            var handlers := s.handlers[id := h.(phase := Rejecting)];
            var s' := s.(clock := now, records := s.records + [r], handlers := handlers);
            Apply(Apply(s, Tick(now)), Decide(id)) == s' && Reachable(s')
  {
    ReachableInv(s);
    StepReachable(s, Tick(now));
    assert PendingIds(Apply(s, Tick(now))) == PendingIds(s);
    StepReachable(Apply(s, Tick(now)), Decide(id));
  }

  /**
   * `ServerState` with the accept loop's semaphore. Each method is one critical section or
   * atomic operation of one handler. The program keeps no log, spans, clock or records: the first
   * three are ghost, the records and the checks in the phases only annotate what the limiter and the
   * handlers do, and no branch reads them.
   */
  class ControlServer {
    const limiter: RL.Limiter
    var permits: nat
    var nextId: Id
    var handlers: map<Id, Handler>
    var registry: set<Id>
    var queues: map<Id, seq<Item>>
    var paired: set<Fingerprint>
    ghost var spans: map<Id, Span>
    ghost var log: seq<Envelope>
    ghost var clock: int
    var records: seq<Record>

    ghost function View(): State
      reads this
    {
      State(permits, nextId, handlers, registry, queues, spans, log, paired, records, clock)
    }

    ghost predicate Valid()
      reads this, limiter
    {
      && Reachable(View())
      && limiter.Valid() && limiter.history == Failures(records)
    }

    constructor (known: set<Fingerprint>, ghost start: int)
      ensures Valid() && Initial(View()) && paired == known && fresh(limiter)
    {
      limiter := new RL.Limiter();
      permits, nextId, handlers, registry := MAX_PENDING_CONNECTIONS, 1, map[], {};
      queues, paired := map[], known;
      spans, log, records, clock := map[], [], [], start;
      new;
      InitialReachable(View());
    }

    /** A new connection gets a permit and a handler, or is dropped when no permit is free. */
    method TryAccept(ip: RL.Ip) returns (id: Option<Id>)
      requires Valid()
      modifies this
      ensures Valid()
      ensures id.None? <==> old(permits) == 0
      ensures View() == if id.None? then old(View()) else Apply(old(View()), Accept(ip))
      ensures id.Some? ==> id.value !in old(handlers) && handlers == old(handlers)[id.value := Handler(ip, Handshaking)]
      ensures permits == old(permits) - if id.Some? then 1 else 0
    {
      if permits == 0 {
        return None;
      }
      assert nextId !in handlers by { ReachableInv(View()); }
      StepReachable(View(), Accept(ip));
      id := Some(nextId);
      permits := permits - 1;
      handlers := handlers[nextId := Handler(ip, Handshaking)];
      nextId := nextId + 1;
    }

    /** `is_rate_limited` for a handler holding a `PairRequest`. */
    method CheckRate(id: Id, request: Request, now: int) returns (admitted: bool)
      requires Valid() && clock <= now && Enabled(View(), RateCheck(id, request))
      modifies this
      ensures Valid()
      ensures View() == Apply(Apply(old(View()), Tick(now)), RateCheck(id, request))
      ensures admitted <==> !RL.Limited(TimesOf(old(records), old(handlers)[id].ip), now)
      ensures handlers.Keys == old(handlers).Keys
      ensures handlers[id].phase == if admitted then Admitted(request, Check(now, |records|)) else Closed
      ensures permits == old(permits) + if admitted then 0 else 1
    {
      RateChecked(View(), now, id, request);
      clock := now;
      var limited := limiter.IsRateLimited(handlers[id].ip, now);
      admitted := !limited;
      if admitted {
        handlers := handlers[id := handlers[id].(phase := Admitted(request, Check(now, |records|)))];
      } else {
        handlers := handlers[id := handlers[id].(phase := Closed)];
        permits := permits + 1;
      }
    }

    /** A `Hello` with the right version moves the handler on. */
    method AcceptHello(id: Id)
      requires Valid() && Enabled(View(), HelloOk(id))
      modifies this
      ensures Valid() && View() == Apply(old(View()), HelloOk(id))
      ensures id in handlers && handlers[id].phase == AwaitingPair
    {
      StepReachable(View(), HelloOk(id));
      handlers := handlers[id := handlers[id].(phase := AwaitingPair)];
    }

    /** A known fingerprint is accepted without its proof being looked at. */
    method IsPaired(id: Id) returns (known: bool)
      requires Valid() && Enabled(View(), ReadPaired(id))
      modifies this
      ensures Valid() && View() == Apply(old(View()), ReadPaired(id))
      ensures known <==> old(handlers)[id].phase.request.fingerprint in old(paired)
      ensures id in handlers
      ensures var phase := old(handlers)[id].phase;
              handlers[id].phase == if known then Accepted(phase.request.fingerprint)
                                    else Unpaired(phase.request, phase.check)
    {
      StepReachable(View(), ReadPaired(id));
      var phase := handlers[id].phase;
      known := phase.request.fingerprint in paired;
      handlers := handlers[id := handlers[id].(phase := if known then Accepted(phase.request.fingerprint)
                                                        else Unpaired(phase.request, phase.check))];
    }

    /** A matching proof pairs the fingerprint. */
    method PairDevice(id: Id)
      requires Valid() && Enabled(View(), Decide(id)) && handlers[id].phase.request.proofMatches
      modifies this
      ensures Valid() && View() == Apply(old(View()), Decide(id))
      ensures var fp := old(handlers)[id].phase.request.fingerprint;
              paired == old(paired) + {fp} && id in handlers && handlers[id].phase == Accepted(fp)
    {
      StepReachable(View(), Decide(id));
      var h := handlers[id];
      paired := paired + {h.phase.request.fingerprint};
      handlers := handlers[id := h.(phase := Accepted(h.phase.request.fingerprint))];
    }

    /** Any other proof is recorded against the peer's IP. */
    method RecordFailure(id: Id, now: int)
      requires Valid() && clock <= now
      requires Enabled(View(), Decide(id)) && !handlers[id].phase.request.proofMatches
      modifies this, limiter
      ensures Valid()
      ensures View() == Apply(Apply(old(View()), Tick(now)), Decide(id))
      ensures id in handlers && handlers[id].phase == Rejecting && paired == old(paired)
      ensures Failures(records) == Failures(old(records)) + [RL.Failure(old(handlers)[id].ip, now)]
    {
      FailureRecorded(View(), now, id);
      var h := handlers[id];
      var pending := set u | u in handlers && Pending(handlers[u].phase);
      var r := Record(RL.Failure(h.ip, now), id, h.phase.check, pending);
      FailuresConcat(records, [r]);
      limiter.RecordPairingFailure(h.ip, now);
      clock := now;
      records := records + [r];
      handlers := handlers[id := h.(phase := Rejecting)];
    }

    /** Insert into the registry; the answer is the `map.len() == 1` test. */
    method Insert(id: Id) returns (isFirst: bool)
      requires Valid() && Enabled(View(), Register(id))
      modifies this
      ensures Valid() && View() == Apply(old(View()), Register(id))
      ensures isFirst <==> old(registry) == {}
      ensures registry == old(registry) + {id} && queues == old(queues)[id := []]
    {
      ghost var next := Apply(View(), Register(id));
      StepReachable(View(), Register(id));
      ghost var before := registry;
      assert id !in before by { ReachableInv(View()); }
      registry := registry + {id};
      queues := queues[id := []];
      spans := spans[id := Span(|log|, None)];
      handlers := handlers[id := handlers[id].(phase := Registered(handlers[id].phase.fingerprint))];
      assert View() == next;
      isFirst := |registry| == 1;
      assert |registry| == |before| + 1;
    }

    /** `broadcast`: one copy to every registered client while the registry lock is held. */
    method BroadcastAll(e: Envelope)
      requires Valid()
      modifies this
      ensures Valid() && View() == Apply(old(View()), FanOut(e))
    {
      StepReachable(View(), FanOut(e));
      assert registry <= queues.Keys by { ReachableInv(View()); }
      queues := SendToAll(queues, registry, e);
      log := log + [e];
    }

    /** A ping, pong or goodbye to the handler's own peer. */
    method SendDirect(id: Id, e: Envelope)
      requires Valid() && Enabled(View(), SendOwn(id, e))
      modifies this
      ensures Valid() && View() == Apply(old(View()), SendOwn(id, e))
      ensures id in old(queues) && queues == old(queues)[id := old(queues)[id] + [Direct(e)]]
    {
      StepReachable(View(), SendOwn(id, e));
      assert id in queues by { ReachableInv(View()); }
      queues := queues[id := queues[id] + [Direct(e)]];
    }

    /** Remove from the registry; the answer is the `map.is_empty()` test. */
    method Remove(id: Id) returns (nowEmpty: bool)
      requires Valid() && Enabled(View(), Leave(id))
      modifies this
      ensures Valid() && View() == Apply(old(View()), Leave(id))
      ensures nowEmpty <==> registry == {}
      ensures registry == old(registry) - {id} && queues == old(queues)
    {
      StepReachable(View(), Leave(id));
      assert id in spans by { ReachableInv(View()); }
      registry := registry - {id};
      spans := spans[id := Span(spans[id].start, Some(|log|))];
      handlers := handlers[id := handlers[id].(phase := Leaving(handlers[id].phase.fingerprint))];
      nowEmpty := registry == {};
    }

    /** A handler that gives up before registration returns its permit. */
    method AbortHandler(id: Id)
      requires Valid() && Enabled(View(), Abort(id))
      modifies this
      ensures Valid() && View() == Apply(old(View()), Abort(id))
      ensures id in handlers && handlers[id].phase == Closed && permits == old(permits) + 1
    {
      StepReachable(View(), Abort(id));
      handlers := handlers[id := handlers[id].(phase := Closed)];
      permits := permits + 1;
    }

    /** Once registered a handler stops counting as pending. */
    method ReleasePermit(id: Id)
      requires Valid() && Enabled(View(), DropPermit(id))
      modifies this
      ensures Valid() && View() == Apply(old(View()), DropPermit(id))
      ensures id in handlers && handlers[id].phase.Serving? && permits == old(permits) + 1
    {
      StepReachable(View(), DropPermit(id));
      handlers := handlers[id := handlers[id].(phase := Serving(handlers[id].phase.fingerprint))];
      permits := permits + 1;
    }
  }
}
