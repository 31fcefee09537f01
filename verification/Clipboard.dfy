/**
 * Clipboard mirroring between the server's watcher thread and the client's, with the FIFO
 * channels between them. Texts are their UTF-8 bytes; writes of the clipboard may fail, and a
 * poll whose read fails is a poll that does not happen.
 */
module Clipboard {
  import opened Base

  type Text = seq<byte>
  type Id = nat

  const MAX_CLIPBOARD_BYTES: nat := 1024 * 1024

  datatype Node = ServerNode | ClientNode(id: Id)

  datatype ServerSide = ServerSide(clip: Text, lastSeen: Text, inbox: seq<Text>)

  /** `outbox` is what the client sent and the server's watcher has not been handed yet. */
  datatype ClientSide = ClientSide(clip: Text, lastSeen: Option<Text>, inbox: seq<Text>, outbox: seq<Text>)

  /** The two sides, and counts of messages sent, user copies, clients started and failures at the server. */
  datatype State = State(
    server: ServerSide, clients: map<Id, ClientSide>, sent: nat, copies: nat, joined: nat, failed: nat)

  predicate Admissible(text: Text) {
    text != [] && |text| <= MAX_CLIPBOARD_BYTES
  }

  // ----- what the watchers do -----

  predicate ServerTakes(s: ServerSide, text: Text) {
    text != s.lastSeen && |text| <= MAX_CLIPBOARD_BYTES
  }

  /** One received text at the server, which counts as seen even if it cannot be written. */
  function ServerApply(s: ServerSide, text: Text, written: bool): ServerSide {
    if !ServerTakes(s, text) then s
    else s.(clip := if written then text else s.clip, lastSeen := text)
  }

  predicate ServerWouldSend(s: ServerSide) {
    s.clip != s.lastSeen && Admissible(s.clip)
  }

  /** One received text at a client, which counts as seen only if it was written. */
  function ClientApply(c: ClientSide, text: Text, written: bool): ClientSide {
    if written then c.(clip := text, lastSeen := Some(text)) else c
  }

  predicate ClientWouldSend(c: ClientSide) {
    Admissible(c.clip) && c.lastSeen != Some(c.clip)
  }

  // ----- steps of the whole system -----

  datatype Step =
    | Copy(node: Node, text: Text)
    | Join(id: Id, clip: Text)
    | Leave(id: Id)
    | ServerReceive(written: bool)
    | ServerPoll
    | ClientReceive(id: Id, written: bool)
    | ClientPoll(id: Id)
    | Deliver(id: Id)

  predicate Enabled(s: State, step: Step) {
    match step
    case Copy(node, _) => node.ClientNode? ==> node.id in s.clients
    case Join(id, _) => id !in s.clients
    case Leave(id) => id in s.clients
    case ServerReceive(_) => s.server.inbox != []
    case ServerPoll => true
    case ClientReceive(id, _) => id in s.clients && s.clients[id].inbox != []
    case ClientPoll(id) => id in s.clients
    case Deliver(id) => id in s.clients && s.clients[id].outbox != []
  }

  function Apply(s: State, step: Step): State
    requires Enabled(s, step)
  {
    match step
    case Copy(ServerNode, text) =>
      s.(server := s.server.(clip := text), copies := s.copies + 1)
    case Copy(ClientNode(id), text) =>
      s.(clients := s.clients[id := s.clients[id].(clip := text)], copies := s.copies + 1)
    case Join(id, clip) =>
      s.(clients := s.clients[id := ClientSide(clip, None, [], [])], joined := s.joined + 1)
    case Leave(id) => s.(clients := s.clients - {id})
    case ServerReceive(written) =>
      var text := s.server.inbox[0];
      s.(server := ServerApply(s.server, text, written).(inbox := s.server.inbox[1..]),
         failed := s.failed + if ServerTakes(s.server, text) && !written then 1 else 0)
    case ServerPoll =>
      if ServerWouldSend(s.server) then
        s.(server := s.server.(lastSeen := s.server.clip),
           clients := map id | id in s.clients ::
                        s.clients[id].(inbox := s.clients[id].inbox + [s.server.clip]),
           sent := s.sent + 1)
      else s
    case ClientReceive(id, written) =>
      var c := s.clients[id];
      s.(clients := s.clients[id := ClientApply(c, c.inbox[0], written).(inbox := c.inbox[1..])])
    case ClientPoll(id) =>
      var c := s.clients[id];
      if ClientWouldSend(c) then
        s.(clients := s.clients[id := c.(lastSeen := Some(c.clip), outbox := c.outbox + [c.clip])],
           sent := s.sent + 1)
      else s
    case Deliver(id) =>
      var c := s.clients[id];
      s.(clients := s.clients[id := c.(outbox := c.outbox[1..])],
         server := s.server.(inbox := s.server.inbox + [c.outbox[0]]))
  }

  /** The server starts having seen its own clipboard, or nothing if it cannot read it; no client yet. */
  predicate Initial(s: State) {
    && s.server.inbox == [] && s.clients == map[] && s.sent == 0 && s.copies == 0 && s.joined == 0
    && if s.failed == 0 then s.server.lastSeen == s.server.clip else s.failed == 1 && s.server.lastSeen == []
  }

  predicate IsRun(states: seq<State>, steps: seq<Step>) {
    && |states| == |steps| + 1
    && forall i :: 0 <= i < |steps| ==>
                     Enabled(states[i], steps[i]) && states[i + 1] == Apply(states[i], steps[i])
  }

  // ----- no ping-pong -----

  /** The nodes whose clipboard differs from what they last saw. */
  function Dirty(s: State): set<Node> {
    (if s.server.clip != s.server.lastSeen then {ServerNode} else {})
    + (set id | id in s.clients && s.clients[id].lastSeen != Some(s.clients[id].clip) :: ClientNode(id))
  }

  /** The messages paid for: one for each copy, each client started and each failure at the server. */
  function Paid(s: State): nat {
    s.copies + s.joined + s.failed
  }

  /** The node a step may leave with a clipboard it has not seen. */
  function Dirtied(step: Step): set<Node> {
    match step
    case Copy(n, _) => {n}
    case Join(id, _) => {ClientNode(id)}
    case ServerReceive(written) => if written then {} else {ServerNode}
    case _ => {}
  }

  /** A step dirties at most a node it pays for, and a message cleans the node that sent it. */
  lemma StepDirty(s: State, step: Step)
    requires Enabled(s, step)
    ensures var s' := Apply(s, step);
            && Paid(s) <= Paid(s')
            && (s'.sent == s.sent ==>
                  Dirty(s') <= Dirty(s) + if Paid(s') == Paid(s) then {} else Dirtied(step))
            && (s'.sent == s.sent && Paid(s') != Paid(s) ==> Paid(s') == Paid(s) + 1)
            && (s'.sent != s.sent ==>
                  s'.sent == s.sent + 1 && Paid(s') == Paid(s)
                  && exists n :: n in Dirty(s) && Dirty(s') <= Dirty(s) - {n})
  {
    var s' := Apply(s, step);
    if s'.sent != s.sent {
      var n := if step.ServerPoll? then ServerNode else ClientNode(step.id);
      assert n in Dirty(s);
      assert Dirty(s') <= Dirty(s) - {n};
    }
  }

  /** Messages still owed never exceed what has been paid for. */
  lemma StepBalance(s: State, step: Step)
    requires Enabled(s, step)
    ensures var s' := Apply(s, step);
            s'.sent + |Dirty(s')| - Paid(s') <= s.sent + |Dirty(s)| - Paid(s)
  {
    StepDirty(s, step);
    var s' := Apply(s, step);
    if s'.sent != s.sent {
      var n :| n in Dirty(s) && Dirty(s') <= Dirty(s) - {n};
      SubsetSize(Dirty(s'), Dirty(s) - {n});
    } else if Paid(s') == Paid(s) {
      SubsetSize(Dirty(s'), Dirty(s));
    } else {
      SubsetSize(Dirty(s'), Dirty(s) + Dirtied(step));
      assert |Dirty(s) + Dirtied(step)| <= |Dirty(s)| + |Dirtied(step)|;
    }
  }

  lemma {:induction false} RunBalance(states: seq<State>, steps: seq<Step>, k: nat)
    requires IsRun(states, steps) && k < |states|
    ensures states[k].sent + |Dirty(states[k])| - Paid(states[k])
            <= states[0].sent + |Dirty(states[0])| - Paid(states[0])
  {
    if k > 0 {
      RunBalance(states, steps, k - 1);
      StepBalance(states[k - 1], steps[k - 1]);
    }
  }

  lemma {:induction false} FailuresNeedFailures(states: seq<State>, steps: seq<Step>, k: nat)
    requires IsRun(states, steps) && k < |states|
    requires forall i :: 0 <= i < k ==> steps[i] != ServerReceive(false)
    ensures states[k].failed == states[0].failed
  {
    if k > 0 {
      FailuresNeedFailures(states, steps, k - 1);
    }
  }

  /**
   * No ping-pong: in every interleaving, with any number of clients coming and going and any
   * writes failing, the clipboard messages ever sent number at most the user copies plus one for
   * each started client and each failure at the server, of which there is none if its first read
   * and its writes succeed.
   */
  lemma NoPingPong(states: seq<State>, steps: seq<Step>, k: nat)
    requires IsRun(states, steps) && Initial(states[0]) && k < |states|
    ensures states[k].sent <= states[k].copies + states[k].joined + states[k].failed
    ensures states[0].failed == 0 && (forall i :: 0 <= i < k ==> steps[i] != ServerReceive(false)) ==>
              states[k].sent <= states[k].copies + states[k].joined
  {
    RunBalance(states, steps, k);
    assert Dirty(states[0]) <= {ServerNode};
    SubsetSize(Dirty(states[0]), {ServerNode});
    assert states[0].failed == 0 ==> Dirty(states[0]) == {};
    if forall i :: 0 <= i < k ==> steps[i] != ServerReceive(false) {
      FailuresNeedFailures(states, steps, k);
    }
  }

  // ----- what is ever sent -----

  predicate Sendable(texts: seq<Text>) {
    forall i :: 0 <= i < |texts| ==> texts[i] != [] && |texts[i]| <= 1_048_576
  }

  /** Everything in flight. */
  ghost predicate InFlightSendable(s: State) {
    && Sendable(s.server.inbox)
    && forall i :: i in s.clients ==> Sendable(s.clients[i].inbox) && Sendable(s.clients[i].outbox)
  }

  /** No empty text and none over a mebibyte is ever on its way, in any run. */
  lemma {:induction false} OnlySendableInFlight(states: seq<State>, steps: seq<Step>, k: nat)
    requires IsRun(states, steps) && Initial(states[0]) && k < |states|
    ensures InFlightSendable(states[k])
  {
    if k > 0 {
      OnlySendableInFlight(states, steps, k - 1);
      StepKeepsSendable(states[k - 1], steps[k - 1]);
    }
  }

  lemma StepKeepsSendable(s: State, step: Step)
    requires Enabled(s, step) && InFlightSendable(s)
    ensures InFlightSendable(Apply(s, step))
  {
    match step
    case ClientReceive(id, _) => assert Sendable(s.clients[id].inbox[1..]);
    case Deliver(id) => assert Sendable(s.clients[id].outbox[1..]);
    case _ =>
  }

  /** A poll sends exactly a clipboard that was not seen before, is not empty and not over a mebibyte. */
  lemma PollSendsIff(s: State, step: Step)
    requires Enabled(s, step) && (step.ServerPoll? || step.ClientPoll?)
    ensures var clip := if step.ServerPoll? then s.server.clip else s.clients[step.id].clip;
            var seen := if step.ServerPoll? then Some(s.server.lastSeen) else s.clients[step.id].lastSeen;
            var s' := Apply(s, step);
            if clip != [] && |clip| <= 1_048_576 && seen != Some(clip) then
              && s'.sent == s.sent + 1
              && (step.ServerPoll? ==>
                    forall i :: i in s.clients ==> s'.clients[i].inbox == s.clients[i].inbox + [clip])
              && (step.ClientPoll? ==> s'.clients[step.id].outbox == s.clients[step.id].outbox + [clip])
            else s' == s
  {
  }

  /**
   * A receipt takes the oldest text. The server ignores what it has already seen and what is over a
   * mebibyte, and takes the rest for seen; a client takes it for seen, and holds it, if it is written.
   */
  lemma ReceiptMeans(s: State, step: Step)
    requires Enabled(s, step) && (step.ServerReceive? || step.ClientReceive?)
    ensures var s' := Apply(s, step);
            if step.ServerReceive? then
              var text := s.server.inbox[0];
              var taken := text != s.server.lastSeen && |text| <= 1_048_576;
              && s'.server.clip == (if taken && step.written then text else s.server.clip)
              && s'.server.lastSeen == (if taken then text else s.server.lastSeen)
              && s'.server.inbox == s.server.inbox[1..] && s'.clients == s.clients
            else
              var c, c' := s.clients[step.id], s'.clients[step.id];
              && c'.clip == (if step.written then c.inbox[0] else c.clip)
              && c'.lastSeen == (if step.written then Some(c.inbox[0]) else c.lastSeen)
              && c'.inbox == c.inbox[1..] && c'.outbox == c.outbox && s'.server == s.server
  {
  }

  /** The texts of client `id` that the run has handed to the server's channel, in order. */
  function HandedOver(states: seq<State>, steps: seq<Step>, k: nat, id: Id): seq<Text>
    requires IsRun(states, steps) && k < |states|
  {
    if k == 0 then []
    else
      HandedOver(states, steps, k - 1, id)
      + if steps[k - 1] == Deliver(id) then [states[k - 1].clients[id].outbox[0]] else []
  }

  /** The texts of client `id` that its polls have sent, in order. */
  function Polled(states: seq<State>, steps: seq<Step>, k: nat, id: Id): seq<Text>
    requires IsRun(states, steps) && k < |states|
  {
    if k == 0 then []
    else
      Polled(states, steps, k - 1, id)
      + if steps[k - 1] == ClientPoll(id) && states[k].sent != states[k - 1].sent
        then [states[k - 1].clients[id].clip] else []
  }

  /** Everything the run has handed to the server's channel, in order. */
  function Arrived(states: seq<State>, steps: seq<Step>, k: nat): seq<Text>
    requires IsRun(states, steps) && k < |states|
  {
    if k == 0 then []
    else
      Arrived(states, steps, k - 1)
      + if steps[k - 1].Deliver? then [states[k - 1].clients[steps[k - 1].id].outbox[0]] else []
  }

  /** How many texts the server's watcher has received. */
  function Received(steps: seq<Step>): nat {
    if steps == [] then 0
    else Received(steps[..|steps| - 1]) + if steps[|steps| - 1].ServerReceive? then 1 else 0
  }

  /** While a client stays, what it polled is what was handed over and then what is still in its outbox. */
  lemma {:induction false} OutboxIsFifo(states: seq<State>, steps: seq<Step>, k: nat, id: Id)
    requires IsRun(states, steps) && Initial(states[0]) && k < |states|
    requires forall i :: 0 <= i < k ==> steps[i] != Leave(id)
    ensures id in states[k].clients ==>
              Polled(states, steps, k, id) == HandedOver(states, steps, k, id) + states[k].clients[id].outbox
    ensures id !in states[k].clients ==> Polled(states, steps, k, id) == HandedOver(states, steps, k, id) == []
  {
    if k > 0 {
      OutboxIsFifo(states, steps, k - 1, id);
      var s := states[k - 1];
      OutboxStep(s, steps[k - 1], id);
      var handed := HandedOver(states, steps, k - 1, id);
      if id in s.clients {
        var outbox := s.clients[id].outbox;
        if steps[k - 1] == Deliver(id) {
          assert outbox == [outbox[0]] + outbox[1..];
          ConcatAssociates(handed, [outbox[0]], outbox[1..]);
        } else {
          ConcatAssociates(handed, outbox, [s.clients[id].clip]);
        }
      }
    }
  }

  /** What was handed to the server's channel is what its watcher received and then what is still in its inbox. */
  lemma {:induction false} InboxIsFifo(states: seq<State>, steps: seq<Step>, k: nat)
    requires IsRun(states, steps) && Initial(states[0]) && k < |states|
    ensures Received(steps[..k]) <= |Arrived(states, steps, k)|
    ensures states[k].server.inbox == Arrived(states, steps, k)[Received(steps[..k])..]
  {
    if k > 0 {
      InboxIsFifo(states, steps, k - 1);
      assert steps[..k][..k - 1] == steps[..k - 1];
      InboxStep(states[k - 1], steps[k - 1]);
    }
  }

  lemma OutboxStep(s: State, step: Step, id: Id)
    requires Enabled(s, step) && step != Leave(id)
    ensures var s' := Apply(s, step);
            && (id in s'.clients <==> id in s.clients || (step.Join? && step.id == id))
            && (id in s.clients ==>
                  s'.clients[id].outbox
                  == if step == Deliver(id) then s.clients[id].outbox[1..]
                     else
                       s.clients[id].outbox
                       + if step == ClientPoll(id) && s'.sent != s.sent then [s.clients[id].clip] else [])
            && (id !in s.clients && id in s'.clients ==> s'.clients[id].outbox == [])
  {
  }

  lemma InboxStep(s: State, step: Step)
    requires Enabled(s, step)
    ensures Apply(s, step).server.inbox
            == if step.Deliver? then s.server.inbox + [s.clients[step.id].outbox[0]]
               else if step.ServerReceive? then s.server.inbox[1..]
               else s.server.inbox
  {
  }

  /** A client that starts has seen nothing, so its first poll sends what its clipboard holds, if that may be sent. */
  lemma InitialContentIsSent(s: State, id: Id, clip: Text)
    requires Enabled(s, Join(id, clip))
    ensures var s1 := Apply(s, Join(id, clip));
            && s1.joined == s.joined + 1 && s1.sent == s.sent && id in s1.clients && s1.clients[id].clip == clip
            && var s2 := Apply(s1, ClientPoll(id));
               s2.clients[id].outbox == (if clip != [] && |clip| <= 1_048_576 then [clip] else [])
  {
  }

  /** A client that leaves takes its channels with it and touches nothing else. */
  lemma LeaveRemovesOne(s: State, id: Id)
    requires Enabled(s, Leave(id))
    ensures var s' := Apply(s, Leave(id));
            && s'.clients.Keys == s.clients.Keys - {id} && s'.server == s.server && s'.sent == s.sent
            && forall i :: i in s'.clients ==> s'.clients[i] == s.clients[i]
  {
  }

  // ----- schedules -----

  /** The server and every client agree, have nothing in flight and nothing to send. */
  predicate Agreed(s: State, text: Text) {
    && s.server == ServerSide(text, text, [])
    && forall i :: i in s.clients ==> s.clients[i] == ClientSide(text, Some(text), [], [])
  }

  /** A step the system takes by itself, whether or not its write succeeds. */
  predicate Own(step: Step) {
    !step.Copy? && !step.Join? && !step.Leave?
  }

  predicate Succeeds(step: Step) {
    match step
    case ServerReceive(written) => written
    case ClientReceive(_, written) => written
    case _ => true
  }

  predicate AllOwn(schedule: seq<Step>) {
    forall i :: 0 <= i < |schedule| ==> Own(schedule[i])
  }

  predicate AllSucceed(schedule: seq<Step>) {
    forall i :: 0 <= i < |schedule| ==> Succeeds(schedule[i])
  }

  /** A thread's turn; with nothing to receive it leaves everything as it is. */
  function Turn(s: State, step: Step): State {
    if Enabled(s, step) then Apply(s, step) else s
  }

  function After(s: State, schedule: seq<Step>): State
    decreases |schedule|
  {
    if schedule == [] then s else After(Turn(s, schedule[0]), schedule[1..])
  }

  /** How many turns of the schedule change anything. */
  function Moves(s: State, schedule: seq<Step>): nat
    decreases |schedule|
  {
    if schedule == [] then 0
    else (if Turn(s, schedule[0]) != s then 1 else 0) + Moves(Turn(s, schedule[0]), schedule[1..])
  }

  /** The state of every run is what its steps, as a schedule, lead to. */
  lemma {:induction false} RunIsSchedule(states: seq<State>, steps: seq<Step>, i: nat, k: nat)
    requires IsRun(states, steps) && i <= k < |states|
    ensures After(states[i], steps[i..k]) == states[k]
    decreases k - i
  {
    if i < k {
      RunIsSchedule(states, steps, i + 1, k);
      assert steps[i..k][1..] == steps[i + 1..k];
    }
  }

  /** No step the system can take by itself changes anything. */
  ghost predicate Silent(s: State) {
    forall step :: Enabled(s, step) && Own(step) ==> Apply(s, step) == s
  }

  lemma {:induction false} SilentStays(s: State, schedule: seq<Step>)
    requires Silent(s) && AllOwn(schedule)
    ensures After(s, schedule) == s
    decreases |schedule|
  {
    if schedule != [] {
      SilentStays(Turn(s, schedule[0]), schedule[1..]);
    }
  }

  /** The turns that bring a copy made at `node` to the other side, client `id` being the node or the other side. */
  function Turns(node: Node, id: Id): seq<Step> {
    if node == ServerNode then [ServerPoll, ClientReceive(id, true)]
    else [ClientPoll(id), Deliver(id), ServerReceive(true)]
  }

  /** The same turn, whatever becomes of its write. */
  predicate SameTurn(a: Step, b: Step) {
    match (a, b)
    case (ServerReceive(_), ServerReceive(_)) => true
    case (ClientReceive(i, _), ClientReceive(j, _)) => i == j
    case _ => a == b
  }

  /** How far a schedule has got with some turns: how many are left, or what follows a failed one. */
  datatype Passage = Ongoing(left: nat) | Failed(rest: seq<Step>)

  /** Takes the wanted turns from the schedule in their order, up to the first whose write fails. */
  function Passing(schedule: seq<Step>, wanted: seq<Step>): Passage
    decreases |schedule|
  {
    if wanted == [] then Ongoing(0)
    else if schedule == [] then Ongoing(|wanted|)
    else if !SameTurn(schedule[0], wanted[0]) then Passing(schedule[1..], wanted)
    else if Succeeds(schedule[0]) then Passing(schedule[1..], wanted[1..])
    else Failed(schedule[1..])
  }

  /** The schedule takes all the wanted turns in order, and the first receipt that is due is written. */
  predicate Lands(schedule: seq<Step>, wanted: seq<Step>) {
    Passing(schedule, wanted) == Ongoing(0)
  }

  // ----- a text the server sends reaches each client by itself -----

  predicate Settled(c: ClientSide) {
    c.lastSeen == Some(c.clip) && c.inbox == [] && c.outbox == []
  }

  /** The server has a text to send; the clients have nothing to send and nothing to read. */
  predicate ReadyToSend(s: State) {
    && ServerWouldSend(s.server) && s.server.inbox == []
    && forall i :: i in s.clients ==> Settled(s.clients[i])
  }

  /** What the text makes of a settled client when its passage to it has got this far. */
  function Reached(c: ClientSide, text: Text, p: Passage): ClientSide {
    if p == Ongoing(0) then ClientSide(text, Some(text), [], [])
    else if p == Ongoing(1) then c.(inbox := [text])
    else c
  }

  /** `base` with its text still at the server, or sent and in some clients' inboxes, received or missed. */
  ghost predicate Sending(s: State, base: State, polled: bool) {
    var text := base.server.clip;
    && s.clients.Keys == base.clients.Keys
    && s == base.(server := base.server.(lastSeen := if polled then text else base.server.lastSeen),
                  clients := s.clients, sent := base.sent + if polled then 1 else 0)
    && forall i :: i in s.clients ==>
         var c := base.clients[i];
         || s.clients[i] == c
         || (polled && (s.clients[i] == c.(inbox := [text]) || s.clients[i] == ClientSide(text, Some(text), [], [])))
  }

  /** One client's part of a turn. */
  function NextSide(c: ClientSide, text: Text, polled: bool, now: ClientSide, i: Id, step: Step): ClientSide {
    if step == ServerPoll && !polled then c.(inbox := [text])
    else if polled && now == c.(inbox := [text]) && SameTurn(step, ClientReceive(i, true)) then
      if Succeeds(step) then ClientSide(text, Some(text), [], []) else c
    else now
  }

  lemma SendTurn(s: State, base: State, polled: bool, step: Step)
    requires ReadyToSend(base) && Sending(s, base, polled) && Own(step)
    ensures Sending(Turn(s, step), base, polled || step == ServerPoll)
    ensures forall i :: i in base.clients ==>
              Turn(s, step).clients[i]
              == NextSide(base.clients[i], base.server.clip, polled, s.clients[i], i, step)
  {
    if step == ServerPoll {
      SendPoll(s, base, polled);
    } else if step.ClientReceive? && Enabled(s, step) {
      SendReceipt(s, base, polled, step);
    } else {
      SendIdle(s, base, polled, step);
    }
  }

  lemma SendPoll(s: State, base: State, polled: bool)
    requires ReadyToSend(base) && Sending(s, base, polled)
    ensures var s' := Turn(s, ServerPoll);
            && Sending(s', base, true) && (polled ==> s' == s)
            && (!polled ==> forall i :: i in base.clients ==>
                              s'.clients[i] == base.clients[i].(inbox := [base.server.clip]))
  {
    assert !polled ==> forall i :: i in s.clients ==> s.clients[i].inbox + [s.server.clip] == [s.server.clip];
  }

  lemma SendReceipt(s: State, base: State, polled: bool, step: Step)
    requires ReadyToSend(base) && Sending(s, base, polled) && step.ClientReceive? && Enabled(s, step)
    ensures var s', c, text := Turn(s, step), base.clients[step.id], base.server.clip;
            && Sending(s', base, polled) && polled && s.clients[step.id] == c.(inbox := [text])
            && s'.clients == s.clients[step.id := if step.written then ClientSide(text, Some(text), [], []) else c]
  {
    assert [base.server.clip][1..] == [];
  }

  lemma SendIdle(s: State, base: State, polled: bool, step: Step)
    requires ReadyToSend(base) && Sending(s, base, polled) && Own(step) && step != ServerPoll
    requires step.ClientReceive? ==> !Enabled(s, step)
    ensures Turn(s, step) == s
  {
  }

  lemma {:induction false} SendRun(s: State, base: State, polled: bool, schedule: seq<Step>)
    requires ReadyToSend(base) && Sending(s, base, polled) && AllOwn(schedule)
    ensures Sending(After(s, schedule), base, polled || ServerPoll in schedule)
    decreases |schedule|
  {
    if schedule != [] {
      SendTurn(s, base, polled, schedule[0]);
      SendRun(Turn(s, schedule[0]), base, polled || schedule[0] == ServerPoll, schedule[1..]);
      assert ServerPoll in schedule <==> schedule[0] == ServerPoll || ServerPoll in schedule[1..];
    }
  }

  /** What becomes of client `i` depends on its own turns alone, whatever the others do in between. */
  lemma {:induction false} SendReaches(s: State, base: State, polled: bool, i: Id, schedule: seq<Step>)
    requires ReadyToSend(base) && Sending(s, base, polled) && AllOwn(schedule) && i in base.clients
    ensures i in After(s, schedule).clients
    ensures var c, text := base.clients[i], base.server.clip;
            After(s, schedule).clients[i]
            == if !polled then Reached(c, text, Passing(schedule, Turns(ServerNode, i)))
               else if s.clients[i] == c.(inbox := [text]) then
                 Reached(c, text, Passing(schedule, [ClientReceive(i, true)]))
               else s.clients[i]
    decreases |schedule|
  {
    if schedule != [] {
      SendTurn(s, base, polled, schedule[0]);
      SendReaches(Turn(s, schedule[0]), base, polled || schedule[0] == ServerPoll, i, schedule[1..]);
      assert Turns(ServerNode, i)[1..] == [ClientReceive(i, true)];
    }
  }

  lemma SendingSilentIff(s: State, base: State, polled: bool)
    requires ReadyToSend(base) && Sending(s, base, polled)
    ensures Silent(s) <==> polled && forall i :: i in s.clients ==> s.clients[i].inbox == []
  {
    if !polled {
      assert Apply(s, ServerPoll).sent != s.sent;
    } else if i :| i in s.clients && s.clients[i].inbox != [] {
      assert Apply(s, ClientReceive(i, true)).clients[i].inbox == s.clients[i].inbox[1..];
    }
  }

  /** Every client that was to be served has had its receipt, written or not. */
  predicate AllServed(s: State, schedule: seq<Step>) {
    && ServerPoll in schedule
    && forall i :: i in s.clients ==> Passing(schedule, Turns(ServerNode, i)) != Ongoing(1)
  }

  /** Under any schedule, the text the server sends replaces exactly the clipboards it lands on. */
  lemma SendOutcome(base: State, schedule: seq<Step>)
    requires ReadyToSend(base) && AllOwn(schedule)
    ensures var s' := After(base, schedule);
            && Sending(s', base, ServerPoll in schedule)
            && (forall i :: i in base.clients ==>
                  s'.clients[i] == Reached(base.clients[i], base.server.clip, Passing(schedule, Turns(ServerNode, i))))
            && (Silent(s') <==> AllServed(base, schedule))
  {
    var s' := After(base, schedule);
    SendRun(base, base, false, schedule);
    forall i | i in base.clients
      ensures s'.clients[i] == Reached(base.clients[i], base.server.clip, Passing(schedule, Turns(ServerNode, i)))
    {
      SendReaches(base, base, false, i, schedule);
    }
    SendingSilentIff(s', base, ServerPoll in schedule);
    assert forall i :: i in base.clients ==>
      (s'.clients[i].inbox == [] <==> Passing(schedule, Turns(ServerNode, i)) != Ongoing(1));
  }

  /**
   * A copy at the server, with any number of clients and any writes failing: a client comes to hold
   * it exactly when the server's poll and that client's receipt get their turns in order and that
   * first receipt is written; a client that misses it keeps the old text, as nothing is sent again.
   */
  lemma ServerCopyOutcome(s: State, before: Text, text: Text, schedule: seq<Step>)
    requires Agreed(s, before) && Admissible(text) && text != before && AllOwn(schedule)
    ensures var s' := After(Apply(s, Copy(ServerNode, text)), schedule);
            && s'.server.clip == text && s'.clients.Keys == s.clients.Keys
            && (forall i :: i in s.clients ==>
                  s'.clients[i].clip == if Lands(schedule, Turns(ServerNode, i)) then text else before)
            && s'.sent == s.sent + (if ServerPoll in schedule then 1 else 0) && s'.failed == s.failed
            && (Silent(s') <==> AllServed(s, schedule))
            && (Agreed(s', text)
                <==> ServerPoll in schedule && forall i :: i in s.clients ==> Lands(schedule, Turns(ServerNode, i)))
  {
    SendOutcome(Apply(s, Copy(ServerNode, text)), schedule);
  }

  // ----- a client's copy reaches the server, and no other client -----

  /** A copy of `text` at client `id`, all others holding `before`, with `rank` turns to go to the server. */
  function Rising(base: State, id: Id, before: Text, text: Text, rank: nat): State {
    base.(copies := base.copies + 1,
          sent := base.sent + (if rank >= 3 then 0 else 1),
          clients := base.clients[id := ClientSide(text, Some(if rank >= 3 then before else text), [],
                                                   if rank == 2 then [text] else [])],
          server := if rank == 0 then ServerSide(text, text, [])
                    else ServerSide(before, before, if rank == 1 then [text] else []))
  }

  /** The server has marked the client's text as seen without holding it. */
  function Refused(base: State, id: Id, before: Text, text: Text): State {
    Rising(base, id, before, text, 1).(server := ServerSide(before, text, []), failed := base.failed + 1)
  }

  function Due(id: Id, rank: nat): Step {
    if rank >= 3 then ClientPoll(id) else if rank == 2 then Deliver(id) else ServerReceive(true)
  }

  function ToGo(id: Id, rank: nat): seq<Step> {
    if rank == 0 then [] else [Due(id, rank)] + ToGo(id, rank - 1)
  }

  lemma TurnsToGo(id: Id)
    ensures ToGo(id, 3) == Turns(ClientNode(id), id)
  {
    assert ToGo(id, 1) == [Due(id, 1)] + ToGo(id, 0);
    assert ToGo(id, 2) == [Due(id, 2)] + ToGo(id, 1);
    assert ToGo(id, 3) == [Due(id, 3)] + ToGo(id, 2);
  }

  lemma RisingTurn(base: State, id: Id, before: Text, text: Text, rank: nat, step: Step)
    requires Agreed(base, before) && id in base.clients && Admissible(text) && text != before
    requires rank <= 3 && Own(step)
    ensures Turn(Rising(base, id, before, text, rank), step)
            == if rank > 0 && SameTurn(step, Due(id, rank)) then
                 if Succeeds(step) then Rising(base, id, before, text, rank - 1) else Refused(base, id, before, text)
               else Rising(base, id, before, text, rank)
  {
    var s := Rising(base, id, before, text, rank);
    assert [] + [text] == [text] && [text][1..] == [];
    if rank > 0 && SameTurn(step, Due(id, rank)) {
      assert Turn(s, step).clients == Rising(base, id, before, text, rank - 1).clients;
    } else {
      assert Turn(s, step).clients == s.clients;
    }
  }

  /** Along any schedule the turns are used up one by one until one fails. */
  lemma {:induction false} RisingRun(base: State, id: Id, before: Text, text: Text, rank: nat, schedule: seq<Step>)
    requires Agreed(base, before) && id in base.clients && Admissible(text) && text != before
    requires rank <= 3 && AllOwn(schedule)
    ensures var p := Passing(schedule, ToGo(id, rank));
            && (p.Ongoing? ==> p.left <= rank)
            && After(Rising(base, id, before, text, rank), schedule)
               == (if p.Ongoing? then Rising(base, id, before, text, p.left)
                   else After(Refused(base, id, before, text), p.rest))
            && (p.Failed? ==> AllOwn(p.rest))
    decreases |schedule|
  {
    if rank > 0 {
      assert |ToGo(id, rank)| == rank by { ToGoLength(id, rank); }
      if schedule != [] {
        RisingTurn(base, id, before, text, rank, schedule[0]);
        assert ToGo(id, rank)[0] == Due(id, rank) && ToGo(id, rank)[1..] == ToGo(id, rank - 1);
        if !SameTurn(schedule[0], Due(id, rank)) {
          RisingRun(base, id, before, text, rank, schedule[1..]);
        } else if Succeeds(schedule[0]) {
          RisingRun(base, id, before, text, rank - 1, schedule[1..]);
        }
      }
    } else {
      LandedIsSilent(base, id, before, text);
      SilentStays(Rising(base, id, before, text, 0), schedule);
    }
  }

  lemma {:induction false} ToGoLength(id: Id, rank: nat)
    ensures |ToGo(id, rank)| == rank
  {
    if rank > 0 {
      ToGoLength(id, rank - 1);
    }
  }

  lemma LandedIsSilent(base: State, id: Id, before: Text, text: Text)
    requires Agreed(base, before)
    ensures Silent(Rising(base, id, before, text, 0))
  {
  }

  lemma RisingNotSilent(base: State, id: Id, before: Text, text: Text, rank: nat)
    requires Agreed(base, before) && id in base.clients && Admissible(text) && text != before && 0 < rank <= 3
    ensures !Silent(Rising(base, id, before, text, rank))
  {
    var s, step := Rising(base, id, before, text, rank), Due(id, rank);
    RisingTurn(base, id, before, text, rank, step);
    assert Enabled(s, step) && Own(step) && Apply(s, step) != s;
  }

  /** After a failed write the server sends its old text to everybody, or, if it may not, nothing moves any more. */
  lemma RefusedOutcome(base: State, id: Id, before: Text, text: Text, rest: seq<Step>)
    requires Agreed(base, before) && id in base.clients && Admissible(text) && text != before && AllOwn(rest)
    ensures var s, s' := Refused(base, id, before, text), After(Refused(base, id, before, text), rest);
            if Admissible(before) then
              && Sending(s', s, ServerPoll in rest)
              && (forall i :: i in base.clients ==>
                    s'.clients[i] == Reached(s.clients[i], before, Passing(rest, Turns(ServerNode, i))))
              && (Silent(s') <==> AllServed(base, rest))
            else s' == s && Silent(s')
  {
    var s := Refused(base, id, before, text);
    if Admissible(before) {
      SendOutcome(s, rest);
      assert s.clients.Keys == base.clients.Keys;
    } else {
      assert Silent(s);
      SilentStays(s, rest);
    }
  }

  /** The copy failed to be written at the server, which then sent its old text back to the client. */
  predicate Undoes(id: Id, before: Text, schedule: seq<Step>) {
    var p := Passing(schedule, Turns(ClientNode(id), id));
    p.Failed? && Admissible(before) && Lands(p.rest, Turns(ServerNode, id))
  }

  /**
   * A copy at a client, with any number of others and any writes failing: the server comes to hold
   * it exactly when the client's poll, the delivery and the server's receipt get their turns in
   * order and that first receipt is written. When it is not, the copy is undone exactly when the
   * old text may be sent and the server's poll and the client's written receipt follow. No other
   * client ever holds anything but the old text.
   */
  lemma ClientCopyOutcome(s: State, id: Id, before: Text, text: Text, schedule: seq<Step>)
    requires Agreed(s, before) && id in s.clients && Admissible(text) && text != before && AllOwn(schedule)
    ensures var s' := After(Apply(s, Copy(ClientNode(id), text)), schedule);
            var p := Passing(schedule, Turns(ClientNode(id), id));
            var sentBack := p.Failed? && Admissible(before) && ServerPoll in p.rest;
            && s'.clients.Keys == s.clients.Keys
            && s'.server.clip == (if Lands(schedule, Turns(ClientNode(id), id)) then text else before)
            && s'.clients[id].clip == (if Undoes(id, before, schedule) then before else text)
            && (forall j :: j in s.clients && j != id ==> s'.clients[j].clip == before)
            && s'.sent == s.sent + (if p == Ongoing(3) then 0 else if sentBack then 2 else 1)
            && s'.failed == s.failed + (if p.Failed? then 1 else 0)
            && (Silent(s') <==> if p.Ongoing? then p.left == 0 else !Admissible(before) || AllServed(s, p.rest))
  {
    var p := Passing(schedule, Turns(ClientNode(id), id));
    TurnsToGo(id);
    assert Apply(s, Copy(ClientNode(id), text)) == Rising(s, id, before, text, 3);
    RisingRun(s, id, before, text, 3, schedule);
    if p.Failed? {
      RefusedOutcome(s, id, before, text, p.rest);
    } else if p.left == 0 {
      LandedIsSilent(s, id, before, text);
    } else {
      RisingNotSilent(s, id, before, text, p.left);
    }
  }

  // ----- a server and one client -----

  predicate Pair(s: State, id: Id) {
    s.clients.Keys == {id}
  }

  /** Both clipboards hold `text`. */
  predicate BothHold(s: State, id: Id, text: Text) {
    s.server.clip == text && id in s.clients && s.clients[id].clip == text
  }

  /** A failed write left the two clipboards different for good. */
  predicate Splits(node: Node, id: Id, before: Text, schedule: seq<Step>) {
    var p := Passing(schedule, Turns(node, id));
    p.Failed? && (node == ServerNode || !Admissible(before) || Passing(p.rest, Turns(ServerNode, id)).Failed?)
  }

  /**
   * From an agreeing quiescent pair, under every schedule and with any writes failing, an admissible
   * new copy on either side comes to be held by both exactly when it lands, gives way to the old
   * text on both exactly when it is undone, and otherwise, if the pair falls silent, the clipboards
   * stay different: exactly when a failed write is not, or not successfully, answered.
   */
  lemma CopyLandsIff(s: State, id: Id, before: Text, node: Node, text: Text, schedule: seq<Step>)
    requires Agreed(s, before) && Pair(s, id) && Admissible(text) && text != before
    requires node in {ServerNode, ClientNode(id)} && AllOwn(schedule)
    ensures var s' := After(Apply(s, Copy(node, text)), schedule);
            && (BothHold(s', id, text) <==> Lands(schedule, Turns(node, id)))
            && (BothHold(s', id, before) <==> node == ClientNode(id) && Undoes(id, before, schedule))
            && Pair(s', id)
            && (Silent(s') && s'.server.clip != s'.clients[id].clip <==> Splits(node, id, before, schedule))
            && (Silent(s') <== BothHold(s', id, text) || BothHold(s', id, before))
  {
    if node == ServerNode {
      ServerCopyOutcome(s, before, text, schedule);
      SentIffPolled(schedule, id);
    } else {
      ClientCopyOutcome(s, id, before, text, schedule);
      var p := Passing(schedule, Turns(node, id));
      if p.Failed? {
        SentIffPolled(p.rest, id);
      }
    }
  }

  /** The passage from the server is past its first turn exactly when the server polled. */
  lemma {:induction false} SentIffPolled(schedule: seq<Step>, id: Id)
    ensures Passing(schedule, Turns(ServerNode, id)) == Ongoing(2) <==> ServerPoll !in schedule
    ensures Passing(schedule, Turns(ServerNode, id)).Ongoing? ==> Passing(schedule, Turns(ServerNode, id)).left <= 2
    decreases |schedule|
  {
    if schedule != [] {
      assert ServerPoll in schedule <==> schedule[0] == ServerPoll || ServerPoll in schedule[1..];
      SentIffPolled(schedule[1..], id);
      assert Turns(ServerNode, id)[1..] == [ClientReceive(id, true)];
      LastTurnLeft(schedule[1..], id);
    }
  }

  lemma {:induction false} LastTurnLeft(schedule: seq<Step>, id: Id)
    ensures Passing(schedule, [ClientReceive(id, true)]).Ongoing? ==>
              Passing(schedule, [ClientReceive(id, true)]).left <= 1
    decreases |schedule|
  {
    if schedule != [] {
      LastTurnLeft(schedule[1..], id);
      assert [ClientReceive(id, true)][1..] == [];
    }
  }

  // ----- when every write succeeds -----

  /** The schedule contains the wanted turns, in this order, among any others. */
  predicate TakesInOrder(schedule: seq<Step>, wanted: seq<Step>) {
    if wanted == [] then true
    else if schedule == [] then false
    else TakesInOrder(schedule[1..], if schedule[0] == wanted[0] then wanted[1..] else wanted)
  }

  lemma {:induction false} SuccessLandsIff(schedule: seq<Step>, wanted: seq<Step>)
    requires AllSucceed(schedule) && AllSucceed(wanted)
    ensures Passing(schedule, wanted).Ongoing?
    ensures Lands(schedule, wanted) <==> TakesInOrder(schedule, wanted)
    decreases |schedule|
  {
    if schedule != [] && wanted != [] {
      assert SameTurn(schedule[0], wanted[0]) <==> schedule[0] == wanted[0];
      SuccessLandsIff(schedule[1..], wanted);
      SuccessLandsIff(schedule[1..], wanted[1..]);
    }
  }

  /** How many turns a pair may still use to change anything: three for a client's text, two for the server's. */
  function Rank(s: State, id: Id): nat
    requires id in s.clients
  {
    var c := s.clients[id];
    (if ClientWouldSend(c) then 3 else 0) + 2 * |c.outbox| + |s.server.inbox|
    + (if ServerWouldSend(s.server) then 2 else 0) + |c.inbox|
  }

  lemma TurnLowersRank(s: State, id: Id, step: Step)
    requires Pair(s, id) && Own(step) && Succeeds(step)
    ensures Pair(Turn(s, step), id)
    ensures Turn(s, step) != s ==> Rank(Turn(s, step), id) < Rank(s, id)
  {
    assert forall i :: i in s.clients <==> i == id;
  }

  /** From any state of a pair, however much is in flight, only boundedly many successful turns change anything. */
  lemma {:induction false} MovesBound(s: State, id: Id, schedule: seq<Step>)
    requires Pair(s, id) && AllOwn(schedule) && AllSucceed(schedule)
    ensures Moves(s, schedule) <= Rank(s, id)
    decreases |schedule|
  {
    if schedule != [] {
      TurnLowersRank(s, id, schedule[0]);
      MovesBound(Turn(s, schedule[0]), id, schedule[1..]);
    }
  }

  /**
   * If writes succeed, both clipboards come to hold the copy exactly when the poll, the delivery
   * and the receipt get their turns in order, whatever else runs in between; the pair is silent
   * exactly then; and on the way at most one message is sent and at most three turns change anything.
   */
  lemma CopyDrainsIff(s: State, id: Id, before: Text, node: Node, text: Text, schedule: seq<Step>)
    requires Agreed(s, before) && Pair(s, id) && Admissible(text) && text != before
    requires node in {ServerNode, ClientNode(id)} && AllOwn(schedule) && AllSucceed(schedule)
    ensures var copied := Apply(s, Copy(node, text));
            var s' := After(copied, schedule);
            && (BothHold(s', id, text) <==> TakesInOrder(schedule, Turns(node, id)))
            && (Silent(s') <==> BothHold(s', id, text))
            && (BothHold(s', id, text) ==> Agreed(s', text) && s'.sent == s.sent + 1)
            && s'.sent <= s.sent + 1 && Moves(copied, schedule) <= |Turns(node, id)| <= 3
  {
    SuccessLandsIff(schedule, Turns(node, id));
    MovesBound(Apply(s, Copy(node, text)), id, schedule);
    if node == ServerNode {
      ServerCopyOutcome(s, before, text, schedule);
      SentIffPolled(schedule, id);
    } else {
      ClientCopyOutcome(s, id, before, text, schedule);
      TurnsToGo(id);
      assert Apply(s, Copy(node, text)) == Rising(s, id, before, text, 3);
      RisingRun(s, id, before, text, 3, schedule);
    }
  }

  /** Copying what everybody already holds disturbs nothing. */
  lemma SameCopyIsSilent(s: State, node: Node, text: Text, schedule: seq<Step>)
    requires Agreed(s, text) && Enabled(s, Copy(node, text)) && AllOwn(schedule)
    ensures var s' := After(Apply(s, Copy(node, text)), schedule);
            Agreed(s', text) && Silent(s') && s'.sent == s.sent
  {
    var copied := Apply(s, Copy(node, text));
    assert Agreed(copied, text) && Silent(copied);
    SilentStays(copied, schedule);
  }

  lemma {:induction false} TakesAtEnd(schedule: seq<Step>, wanted: seq<Step>, tail: seq<Step>)
    requires TakesInOrder(tail, wanted)
    ensures TakesInOrder(schedule + tail, wanted)
    decreases |schedule|
  {
    if schedule == [] {
      assert schedule + tail == tail;
    } else if wanted != [] {
      assert (schedule + tail)[1..] == schedule[1..] + tail;
      if schedule[0] == wanted[0] {
        TakesFewer(tail, wanted);
        TakesAtEnd(schedule[1..], wanted[1..], tail);
      } else {
        TakesAtEnd(schedule[1..], wanted, tail);
      }
    }
  }

  lemma {:induction false} TakesFewer(schedule: seq<Step>, wanted: seq<Step>)
    requires wanted != [] && TakesInOrder(schedule, wanted)
    ensures TakesInOrder(schedule, wanted[1..])
    decreases |schedule|
  {
    if |wanted| > 1 {
      if schedule[0] == wanted[0] {
        if schedule[0] == wanted[1] {
          TakesFewer(schedule[1..], wanted[1..]);
        }
      } else {
        TakesFewer(schedule[1..], wanted);
        if schedule[0] == wanted[1] {
          TakesFewer(schedule[1..], wanted[1..]);
        }
      }
    }
  }

  lemma {:induction false} TakesAll(wanted: seq<Step>)
    ensures TakesInOrder(wanted, wanted)
  {
    if wanted != [] {
      TakesAll(wanted[1..]);
    }
  }

  /** Wherever a schedule has left the copy, one more turn of each thread in order finishes it. */
  lemma CopyAlwaysFinishes(s: State, id: Id, before: Text, node: Node, text: Text, schedule: seq<Step>)
    requires Agreed(s, before) && Pair(s, id) && Admissible(text) && text != before
    requires node in {ServerNode, ClientNode(id)} && AllOwn(schedule) && AllSucceed(schedule)
    ensures var s' := After(Apply(s, Copy(node, text)), schedule + Turns(node, id));
            Agreed(s', text) && Silent(s') && s'.sent == s.sent + 1
  {
    TakesAll(Turns(node, id));
    TakesAtEnd(schedule, Turns(node, id), Turns(node, id));
    CopyDrainsIff(s, id, before, node, text, schedule + Turns(node, id));
  }

  /** The shortest schedule that undoes a client's copy: two messages, and both hold the old text. */
  lemma FailedWriteUndoesCopy(s: State, id: Id, before: Text, text: Text)
    requires Agreed(s, before) && id in s.clients && Admissible(before) && Admissible(text) && text != before
    ensures var s' := After(Apply(s, Copy(ClientNode(id), text)),
                            [ClientPoll(id), Deliver(id), ServerReceive(false), ServerPoll, ClientReceive(id, true)]);
            BothHold(s', id, before) && s'.sent == s.sent + 2 && s'.failed == s.failed + 1
  {
    ShortestUndo(id);
    ClientCopyOutcome(s, id, before, text,
                      [ClientPoll(id), Deliver(id), ServerReceive(false), ServerPoll, ClientReceive(id, true)]);
  }

  lemma ShortestUndo(id: Id)
    ensures Passing([ClientPoll(id), Deliver(id), ServerReceive(false), ServerPoll, ClientReceive(id, true)],
                    Turns(ClientNode(id), id)) == Failed(Turns(ServerNode, id))
    ensures Lands(Turns(ServerNode, id), Turns(ServerNode, id))
  {
    var rest := Turns(ServerNode, id);
    TakeTurn(ServerReceive(false), rest, ServerReceive(true), []);
    assert [ServerReceive(true)] + [] == [ServerReceive(true)];
    TakeTurn(Deliver(id), [ServerReceive(false)] + rest, Deliver(id), [ServerReceive(true)]);
    TakeTurn(ClientPoll(id), [Deliver(id)] + ([ServerReceive(false)] + rest),
             ClientPoll(id), [Deliver(id)] + [ServerReceive(true)]);
    assert [ClientPoll(id)] + ([Deliver(id)] + ([ServerReceive(false)] + rest))
           == [ClientPoll(id), Deliver(id), ServerReceive(false), ServerPoll, ClientReceive(id, true)];
    assert [ClientPoll(id)] + ([Deliver(id)] + [ServerReceive(true)]) == Turns(ClientNode(id), id);
    SuccessLandsIff(rest, rest);
    TakesAll(rest);
  }

  lemma TakeTurn(turn: Step, rest: seq<Step>, wanted: Step, more: seq<Step>)
    requires SameTurn(turn, wanted)
    ensures Passing([turn] + rest, [wanted] + more) == if Succeeds(turn) then Passing(rest, more) else Failed(rest)
  {
    assert ([turn] + rest)[1..] == rest && ([wanted] + more)[1..] == more;
  }

  // ----- the polling loops -----

  /** A text handed to a watcher, and whether the clipboard took it. */
  datatype Arrival = Arrival(text: Text, written: bool)

  function ClientApplyAll(c: ClientSide, arrivals: seq<Arrival>): ClientSide
    decreases |arrivals|
  {
    if arrivals == [] then c
    else ClientApplyAll(ClientApply(c, arrivals[0].text, arrivals[0].written), arrivals[1..])
  }

  function ServerApplyAll(s: ServerSide, arrivals: seq<Arrival>): ServerSide
    decreases |arrivals|
  {
    if arrivals == [] then s
    else ServerApplyAll(ServerApply(s, arrivals[0].text, arrivals[0].written), arrivals[1..])
  }

  /** The first texts of the inbox are these arrivals. */
  predicate Arriving(inbox: seq<Text>, arrivals: seq<Arrival>) {
    |arrivals| <= |inbox| && forall i :: 0 <= i < |arrivals| ==> inbox[i] == arrivals[i].text
  }

  /** One round of the client's thread as turns of the protocol. */
  function ClientRound(id: Id, arrivals: seq<Arrival>, readable: bool): seq<Step> {
    if arrivals == [] then if readable then [ClientPoll(id)] else []
    else [ClientReceive(id, arrivals[0].written)] + ClientRound(id, arrivals[1..], readable)
  }

  function ServerRound(arrivals: seq<Arrival>, readable: bool): seq<Step> {
    if arrivals == [] then if readable then [ServerPoll] else []
    else [ServerReceive(arrivals[0].written)] + ServerRound(arrivals[1..], readable)
  }

  /** Those turns do to the client what its thread does in one round. */
  lemma {:induction false} ClientRoundIsRun(s: State, id: Id, arrivals: seq<Arrival>, readable: bool)
    requires id in s.clients && Arriving(s.clients[id].inbox, arrivals)
    ensures var c := ClientApplyAll(s.clients[id], arrivals).(inbox := s.clients[id].inbox[|arrivals|..]);
            After(s, ClientRound(id, arrivals, readable))
            == if readable && ClientWouldSend(c)
               then s.(clients := s.clients[id := c.(lastSeen := Some(c.clip), outbox := c.outbox + [c.clip])],
                       sent := s.sent + 1)
               else s.(clients := s.clients[id := c])
    decreases |arrivals|
  {
    var c := s.clients[id];
    if arrivals == [] {
      assert s.clients[id := c] == s.clients;
      AfterOne(s, ClientPoll(id));
    } else {
      var step := ClientReceive(id, arrivals[0].written);
      var s' := Apply(s, step);
      var rest := arrivals[1..];
      assert forall i :: 0 <= i < |rest| ==> c.inbox[1..][i] == rest[i].text;
      assert c.inbox[1..][|rest|..] == c.inbox[|arrivals|..];
      var c' := ClientApply(c, c.inbox[0], arrivals[0].written).(inbox := c.inbox[1..]);
      assert s' == s.(clients := s.clients[id := c']);
      ClientRoundIsRun(s', id, rest, readable);
      ClientInboxApart(ClientApply(c, c.inbox[0], arrivals[0].written), c.inbox[1..], rest);
      AfterFirst(s, step, ClientRound(id, rest, readable));
    }
  }

  lemma AfterOne(s: State, step: Step)
    ensures After(s, [step]) == Turn(s, step)
  {
    assert [step][1..] == [];
  }

  lemma AfterFirst(s: State, step: Step, rest: seq<Step>)
    ensures After(s, [step] + rest) == After(Turn(s, step), rest)
  {
    assert ([step] + rest)[1..] == rest;
  }

  lemma {:induction false} ClientInboxApart(c: ClientSide, inbox: seq<Text>, arrivals: seq<Arrival>)
    ensures ClientApplyAll(c.(inbox := inbox), arrivals) == ClientApplyAll(c, arrivals).(inbox := inbox)
    decreases |arrivals|
  {
    if arrivals != [] {
      ClientInboxApart(ClientApply(c, arrivals[0].text, arrivals[0].written), inbox, arrivals[1..]);
    }
  }

  lemma {:induction false} ServerInboxApart(s: ServerSide, inbox: seq<Text>, arrivals: seq<Arrival>)
    ensures ServerApplyAll(s.(inbox := inbox), arrivals) == ServerApplyAll(s, arrivals).(inbox := inbox)
    decreases |arrivals|
  {
    if arrivals != [] {
      ServerInboxApart(ServerApply(s, arrivals[0].text, arrivals[0].written), inbox, arrivals[1..]);
    }
  }

  /** How many of these arrivals the server marks as seen without writing them. */
  function ServerFailures(s: ServerSide, arrivals: seq<Arrival>): nat
    decreases |arrivals|
  {
    if arrivals == [] then 0
    else
      (if ServerTakes(s, arrivals[0].text) && !arrivals[0].written then 1 else 0)
      + ServerFailures(ServerApply(s, arrivals[0].text, arrivals[0].written), arrivals[1..])
  }

  /** Those turns do to the server, and to every client's inbox, what its thread does in one round. */
  lemma {:induction false} ServerRoundIsRun(s: State, arrivals: seq<Arrival>, readable: bool)
    requires Arriving(s.server.inbox, arrivals)
    ensures var v := ServerApplyAll(s.server, arrivals).(inbox := s.server.inbox[|arrivals|..]);
            var received := s.(server := v, failed := s.failed + ServerFailures(s.server, arrivals));
            After(s, ServerRound(arrivals, readable)) == if readable then Apply(received, ServerPoll) else received
    decreases |arrivals|
  {
    var v := s.server;
    if arrivals == [] {
      AfterOne(s, ServerPoll);
    } else {
      var step := ServerReceive(arrivals[0].written);
      var rest := arrivals[1..];
      var w := ServerApply(v, v.inbox[0], arrivals[0].written);
      assert forall i :: 0 <= i < |rest| ==> v.inbox[1..][i] == rest[i].text;
      assert v.inbox[1..][|rest|..] == v.inbox[|arrivals|..];
      ServerRoundIsRun(Apply(s, step), rest, readable);
      ServerInboxApart(w, v.inbox[1..], rest);
      ServerFailuresApart(w, v.inbox[1..], rest);
      AfterFirst(s, step, ServerRound(rest, readable));
    }
  }

  lemma {:induction false} ServerFailuresApart(s: ServerSide, inbox: seq<Text>, arrivals: seq<Arrival>)
    ensures ServerFailures(s.(inbox := inbox), arrivals) == ServerFailures(s, arrivals)
    decreases |arrivals|
  {
    if arrivals != [] {
      ServerFailuresApart(ServerApply(s, arrivals[0].text, arrivals[0].written), inbox, arrivals[1..]);
    }
  }

  /** One round of the client's thread: drain what arrived, then poll the clipboard once. */
  class ClientWatcher {
    var clip: Text
    var lastSeen: Option<Text>

    constructor (clip0: Text)
      ensures clip == clip0 && lastSeen == None
    {
      clip, lastSeen := clip0, None;
    }

    /** After a text that could be written nothing is sent: it is not echoed. */
    method Round(incoming: seq<Arrival>, readable: bool) returns (outgoing: Option<Text>)
      modifies this
      ensures var c := ClientApplyAll(ClientSide(old(clip), old(lastSeen), [], []), incoming);
              && clip == c.clip
              && outgoing == (if readable && ClientWouldSend(c) then Some(c.clip) else None)
              && lastSeen == (if readable && ClientWouldSend(c) then Some(c.clip) else c.lastSeen)
      ensures (exists i :: 0 <= i < |incoming| && incoming[i].written) ==> outgoing.None? && lastSeen == Some(clip)
      ensures outgoing.Some? ==> outgoing.value == clip && clip != [] && |clip| <= 1_048_576
    {
      ghost var goal := ClientApplyAll(ClientSide(clip, lastSeen, [], []), incoming);
      var i := 0;
      while i < |incoming|
        invariant 0 <= i <= |incoming|
        invariant ClientApplyAll(ClientSide(clip, lastSeen, [], []), incoming[i..]) == goal
        invariant (exists j :: 0 <= j < i && incoming[j].written) ==> lastSeen == Some(clip)
      {
        assert incoming[i..][1..] == incoming[i + 1..];
        if incoming[i].written {
          clip := incoming[i].text;
          lastSeen := Some(clip);
        }
        i := i + 1;
      }
      outgoing := None;
      if readable && Admissible(clip) && lastSeen != Some(clip) {
        lastSeen := Some(clip);
        outgoing := Some(clip);
      }
    }
  }

  /** One round of the server's thread. */
  class ServerWatcher {
    var clip: Text
    var lastSeen: Text

    constructor (clip0: Text, readable: bool)
      ensures clip == clip0 && lastSeen == if readable then clip0 else []
    {
      clip, lastSeen := clip0, if readable then clip0 else [];
    }

    /** Nothing is sent after a round of commands that could all be written: none is echoed. */
    method Round(commands: seq<Arrival>, readable: bool) returns (broadcast: Option<Text>)
      modifies this
      ensures var s := ServerApplyAll(ServerSide(old(clip), old(lastSeen), []), commands);
              && clip == s.clip
              && broadcast == (if readable && ServerWouldSend(s) then Some(s.clip) else None)
              && lastSeen == (if readable && ServerWouldSend(s) then s.clip else s.lastSeen)
      ensures old(clip) == old(lastSeen) && (forall i :: 0 <= i < |commands| ==> commands[i].written) ==>
                broadcast.None? && clip == lastSeen
      ensures (forall i :: 0 <= i < |commands| ==> commands[i].text == old(lastSeen)) ==> clip == old(clip)
      ensures broadcast.Some? ==> broadcast.value == clip && clip != [] && |clip| <= 1_048_576
    {
      ghost var goal := ServerApplyAll(ServerSide(clip, lastSeen, []), commands);
      var i := 0;
      while i < |commands|
        invariant 0 <= i <= |commands|
        invariant ServerApplyAll(ServerSide(clip, lastSeen, []), commands[i..]) == goal
        invariant old(clip) == old(lastSeen) && (forall j :: 0 <= j < i ==> commands[j].written) ==> clip == lastSeen
        invariant (forall j :: 0 <= j < i ==> commands[j].text == old(lastSeen)) ==>
                    clip == old(clip) && lastSeen == old(lastSeen)
      {
        assert commands[i..][1..] == commands[i + 1..];
        if commands[i].text != lastSeen && |commands[i].text| <= MAX_CLIPBOARD_BYTES {
          lastSeen := commands[i].text;
          if commands[i].written {
            clip := commands[i].text;
          }
        }
        i := i + 1;
      }
      broadcast := None;
      if readable && clip != lastSeen && Admissible(clip) {
        lastSeen := clip;
        broadcast := Some(clip);
      }
    }
  }
}
