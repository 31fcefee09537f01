/**
 * Capture, broadcast and injection composed: with the hotkey as the only toggler, a client whose
 * received stream says that forwarding is off holds nothing down.
 */
module Pipeline {
  import opened Base
  import opened Protocol
  import C = Capture
  import I = Injector
  import S = Session
  import Server

  /** What the capture callback sends to the forwarder task. */
  datatype CaptureEvent = InputEvent(event: Event) | ForwardingToggled(on: bool)

  /** `dispatch`: the toggle notice, then the forwarded event. */
  function Dispatch(o: C.Outcome): seq<CaptureEvent> {
    (if o.toggled.Some? then [ForwardingToggled(o.toggled.value)] else [])
    + (if o.forward.Some? then [InputEvent(o.forward.value)] else [])
  }

  /** The capture channel after a history. */
  function Stream(hotkey: Option<C.Chord>, on0: bool, history: seq<C.Action>): seq<CaptureEvent> {
    if history == [] then []
    else
      var n := |history| - 1;
      Stream(hotkey, on0, history[..n]) + Dispatch(C.OutcomeAt(hotkey, on0, history, n))
  }

  /** What the forwarder task broadcasts for one capture event. */
  function Forward(e: CaptureEvent): seq<Envelope> {
    match e
    case InputEvent(event) => [Input(event)]
    case ForwardingToggled(on) =>
      (if on then [] else [Input(ReleaseAll)]) + [ToggleForward(on)]
  }

  function ForwardAll(stream: seq<CaptureEvent>): seq<Envelope> {
    if stream == [] then []
    else ForwardAll(stream[..|stream| - 1]) + Forward(stream[|stream| - 1])
  }

  /** The forwarder task's receive loop; each broadcast appends to the log. */
  method RunForwarder(stream: seq<CaptureEvent>) returns (log: seq<Envelope>)
    ensures log == ForwardAll(stream)
  {
    log := [];
    for i := 0 to |stream|
      invariant log == ForwardAll(stream[..i])
    {
      assert stream[..i + 1][..i] == stream[..i];
      match stream[i]
      case InputEvent(event) =>
        log := log + [Input(event)];
      case ForwardingToggled(on) =>
        ghost var before := log;
        if !on {
          log := log + [Input(ReleaseAll)];
        }
        log := log + [ToggleForward(on)];
        assert log == before + Forward(stream[i]);
    }
    assert stream[..|stream|] == stream;
  }

  predicate HotkeyOnly(history: seq<C.Action>) {
    forall i :: 0 <= i < |history| ==> history[i].Os?
  }

  // ----- the flag as a stream tells it -----

  function FlagAfter(stream: seq<CaptureEvent>, on0: bool): bool {
    if stream == [] then on0
    else
      var last := stream[|stream| - 1];
      if last.ForwardingToggled? then last.on else FlagAfter(stream[..|stream| - 1], on0)
  }

  /** Input events occur only where the preceding toggles leave forwarding on. */
  ghost predicate Gated(stream: seq<CaptureEvent>, on0: bool) {
    forall q :: 0 <= q < |stream| && stream[q].InputEvent? ==>
                  FlagAfter(stream[..q], on0) && stream[q].event != ReleaseAll
  }

  lemma FlagSnoc(stream: seq<CaptureEvent>, e: CaptureEvent, on0: bool)
    ensures FlagAfter(stream + [e], on0) == if e.ForwardingToggled? then e.on else FlagAfter(stream, on0)
  {
    assert (stream + [e])[..|stream|] == stream;
  }

  lemma GatedSnoc(stream: seq<CaptureEvent>, e: CaptureEvent, on0: bool)
    requires Gated(stream, on0)
    requires e.InputEvent? ==> FlagAfter(stream, on0) && e.event != ReleaseAll
    ensures Gated(stream + [e], on0)
  {
    var all := stream + [e];
    forall q | 0 <= q < |all| && all[q].InputEvent?
      ensures FlagAfter(all[..q], on0) && all[q].event != ReleaseAll
    {
      assert all[..q] == stream[..q];
      assert stream[..|stream|] == stream;
    }
  }

  /** The capture stream is gated, and its toggles tell the flag exactly. */
  lemma {:induction false} StreamGated(hotkey: Option<C.Chord>, on0: bool, history: seq<C.Action>)
    requires HotkeyOnly(history)
    ensures Gated(Stream(hotkey, on0, history), on0)
    ensures FlagAfter(Stream(hotkey, on0, history), on0) == C.After(hotkey, on0, history).enabled
  {
    if history != [] {
      var n := |history| - 1;
      StreamGated(hotkey, on0, history[..n]);
      C.ActGate(hotkey, C.After(hotkey, on0, history[..n]), history[n]);
      var stream := Stream(hotkey, on0, history[..n]);
      var o := C.OutcomeAt(hotkey, on0, history, n);
      assert C.After(hotkey, on0, history)
             == C.Act(hotkey, C.After(hotkey, on0, history[..n]), history[n]).0;
      DispatchKeepsGate(stream, o, on0, C.After(hotkey, on0, history[..n]).enabled);
    }
  }

  lemma DispatchKeepsGate(stream: seq<CaptureEvent>, o: C.Outcome, on0: bool, on: bool)
    requires Gated(stream, on0) && FlagAfter(stream, on0) == on
    requires o.forward.Some? ==> on && o.toggled.None? && o.forward.value != ReleaseAll
    ensures Gated(stream + Dispatch(o), on0)
    ensures FlagAfter(stream + Dispatch(o), on0) == if o.toggled.Some? then o.toggled.value else on
  {
    if o.toggled.Some? {
      FlagSnoc(stream, ForwardingToggled(o.toggled.value), on0);
      GatedSnoc(stream, ForwardingToggled(o.toggled.value), on0);
      assert stream + Dispatch(o) == stream + [ForwardingToggled(o.toggled.value)];
    } else if o.forward.Some? {
      FlagSnoc(stream, InputEvent(o.forward.value), on0);
      GatedSnoc(stream, InputEvent(o.forward.value), on0);
      assert stream + Dispatch(o) == stream + [InputEvent(o.forward.value)];
    } else {
      assert stream + Dispatch(o) == stream;
    }
  }

  lemma {:induction false} FlagStaysOff(stream: seq<CaptureEvent>, on0: bool, p: nat, q: nat)
    requires p < q <= |stream| && stream[p] == ForwardingToggled(false)
    requires forall r :: p < r < q ==> stream[r] != ForwardingToggled(true)
    ensures !FlagAfter(stream[..q], on0)
  {
    assert stream[..q][..q - 1] == stream[..q - 1];
    if q > p + 1 {
      FlagStaysOff(stream, on0, p, q - 1);
    }
  }

  /** No input event lies between a toggle-off and the next toggle-on, in any hotkey-only run. */
  lemma NoInputWhileOff(hotkey: Option<C.Chord>, on0: bool, history: seq<C.Action>, p: nat, q: nat)
    requires HotkeyOnly(history)
    requires var stream := Stream(hotkey, on0, history);
             && p < q < |stream| && stream[p] == ForwardingToggled(false)
             && forall r :: p < r < q ==> stream[r] != ForwardingToggled(true)
    ensures !Stream(hotkey, on0, history)[q].InputEvent?
  {
    StreamGated(hotkey, on0, history);
    FlagStaysOff(Stream(hotkey, on0, history), on0, p, q);
  }

  // ----- the flag as the envelopes tell it -----

  /** Whether forwarding is on, as far as these envelopes say. */
  function FlagOf(envelopes: seq<Envelope>, on0: bool): bool {
    if envelopes == [] then on0
    else
      var last := envelopes[|envelopes| - 1];
      if last.ToggleForward? then last.on
      else if last == Input(ReleaseAll) then false
      else FlagOf(envelopes[..|envelopes| - 1], on0)
  }

  predicate PlainInput(e: Envelope) {
    e.Input? && e.event != ReleaseAll
  }

  ghost predicate GatedEnvelopes(envelopes: seq<Envelope>, on0: bool) {
    forall q :: 0 <= q < |envelopes| && PlainInput(envelopes[q]) ==> FlagOf(envelopes[..q], on0)
  }

  lemma FlagOfSnoc(envelopes: seq<Envelope>, e: Envelope, on0: bool)
    ensures FlagOf(envelopes + [e], on0)
            == if e.ToggleForward? then e.on
               else if e == Input(ReleaseAll) then false else FlagOf(envelopes, on0)
  {
    assert (envelopes + [e])[..|envelopes|] == envelopes;
  }

  lemma GatedEnvelopesSnoc(envelopes: seq<Envelope>, e: Envelope, on0: bool)
    requires GatedEnvelopes(envelopes, on0) && (PlainInput(e) ==> FlagOf(envelopes, on0))
    ensures GatedEnvelopes(envelopes + [e], on0)
  {
    var all := envelopes + [e];
    forall q | 0 <= q < |all| && PlainInput(all[q])
      ensures FlagOf(all[..q], on0)
    {
      assert all[..q] == envelopes[..q];
      assert envelopes[..|envelopes|] == envelopes;
    }
  }

  lemma ForwardKeepsGate(envelopes: seq<Envelope>, e: CaptureEvent, on0: bool, on: bool)
    requires GatedEnvelopes(envelopes, on0) && FlagOf(envelopes, on0) == on
    requires e.InputEvent? ==> on && e.event != ReleaseAll
    ensures GatedEnvelopes(envelopes + Forward(e), on0)
    ensures FlagOf(envelopes + Forward(e), on0) == if e.ForwardingToggled? then e.on else on
  {
    match e
    case InputEvent(event) =>
      FlagOfSnoc(envelopes, Input(event), on0);
      GatedEnvelopesSnoc(envelopes, Input(event), on0);
    case ForwardingToggled(turnedOn) =>
      var mid := if turnedOn then envelopes else envelopes + [Input(ReleaseAll)];
      if !turnedOn {
        FlagOfSnoc(envelopes, Input(ReleaseAll), on0);
        GatedEnvelopesSnoc(envelopes, Input(ReleaseAll), on0);
      }
      FlagOfSnoc(mid, ToggleForward(turnedOn), on0);
      GatedEnvelopesSnoc(mid, ToggleForward(turnedOn), on0);
      assert envelopes + Forward(e) == mid + [ToggleForward(turnedOn)];
  }

  /** Forwarding a gated stream gives gated envelopes. */
  lemma {:induction false} ForwardAllGated(stream: seq<CaptureEvent>, on0: bool)
    requires Gated(stream, on0)
    ensures GatedEnvelopes(ForwardAll(stream), on0)
    ensures FlagOf(ForwardAll(stream), on0) == FlagAfter(stream, on0)
  {
    if stream != [] {
      var n := |stream| - 1;
      assert Gated(stream[..n], on0) by {
        forall q | 0 <= q < n && stream[q].InputEvent?
          ensures FlagAfter(stream[..n][..q], on0) && stream[q].event != ReleaseAll
        {
          assert stream[..n][..q] == stream[..q];
        }
      }
      ForwardAllGated(stream[..n], on0);
      ForwardKeepsGate(ForwardAll(stream[..n]), stream[n], on0, FlagAfter(stream[..n], on0));
    }
  }

  // ----- what one client receives -----

  predicate Relevant(e: Envelope) {
    e.Input? || e.ToggleForward?
  }

  /** The forwarding envelopes among all that a client receives. */
  function Relevants(seen: seq<Envelope>): seq<Envelope> {
    if seen == [] then []
    else
      var last := seen[|seen| - 1];
      Relevants(seen[..|seen| - 1]) + (if Relevant(last) then [last] else [])
  }

  lemma {:induction false} FlagOfRelevants(seen: seq<Envelope>, on: bool)
    ensures FlagOf(seen, on) == FlagOf(Relevants(seen), on)
  {
    if seen != [] {
      var n := |seen| - 1;
      FlagOfRelevants(seen[..n], on);
      if Relevant(seen[n]) {
        FlagOfSnoc(Relevants(seen[..n]), seen[n], on);
      } else {
        assert Relevants(seen) == Relevants(seen[..n]);
      }
    }
  }

  lemma {:induction false} RelevantsPrefix(seen: seq<Envelope>, q: nat)
    requires q <= |seen|
    ensures Relevants(seen[..q]) <= Relevants(seen)
    ensures q < |seen| && Relevant(seen[q]) ==>
              |Relevants(seen[..q])| < |Relevants(seen)|
              && Relevants(seen)[|Relevants(seen[..q])|] == seen[q]
  {
    var n := |seen| - 1;
    if q < n {
      assert seen[..n][..q] == seen[..q];
      RelevantsPrefix(seen[..n], q);
    } else if q == |seen| {
      assert seen[..q] == seen;
    }
  }

  lemma {:induction false} FlagOfConcat(a: seq<Envelope>, b: seq<Envelope>, on0: bool)
    ensures FlagOf(a + b, on0) == FlagOf(b, FlagOf(a, on0))
  {
    if b == [] {
      assert a + b == a;
    } else {
      assert (a + b)[..|a + b| - 1] == a + b[..|b| - 1];
      FlagOfConcat(a, b[..|b| - 1], on0);
    }
  }

  /** A contiguous part of gated envelopes, padded with other messages, is gated from its own start. */
  lemma SliceGated(full: seq<Envelope>, on0: bool, a: nat, b: nat, seen: seq<Envelope>)
    requires GatedEnvelopes(full, on0) && a <= b <= |full|
    requires Relevants(seen) == full[a..b]
    ensures GatedEnvelopes(seen, FlagOf(full[..a], on0))
  {
    var on := FlagOf(full[..a], on0);
    forall q | 0 <= q < |seen| && PlainInput(seen[q])
      ensures FlagOf(seen[..q], on)
    {
      RelevantsPrefix(seen, q);
      FlagOfRelevants(seen[..q], on);
      var part := Relevants(seen[..q]);
      assert full[a + |part|] == seen[q];
      assert full[..a + |part|] == full[..a] + part;
      FlagOfConcat(full[..a], part, on0);
    }
  }

  function ClientAfter(codeToKey: I.KeyMap, seen: seq<Envelope>): I.State {
    if seen == [] then I.Idle
    else S.HandleEnvelope(codeToKey, ClientAfter(codeToKey, seen[..|seen| - 1]), seen[|seen| - 1])
  }

  ghost predicate NothingDown(s: I.State) {
    s.heldKeys == [] && s.heldButtons == [] && forall x :: !I.IsDown(s.calls, x)
  }

  lemma {:induction false} ClientKeepsInv(codeToKey: I.KeyMap, seen: seq<Envelope>)
    ensures I.Inv(ClientAfter(codeToKey, seen))
  {
    if seen == [] {
      I.InjectAllKeepsInv(codeToKey, []);
    } else {
      ClientKeepsInv(codeToKey, seen[..|seen| - 1]);
      S.HandleEnvelopeKeepsInv(codeToKey, ClientAfter(codeToKey, seen[..|seen| - 1]), seen[|seen| - 1]);
    }
  }

  /** Whenever gated envelopes say that forwarding is off, the client holds nothing down. */
  lemma {:induction false} OffMeansNothingDown(codeToKey: I.KeyMap, seen: seq<Envelope>, on: bool, n: nat)
    requires GatedEnvelopes(seen, on) && n <= |seen| && !FlagOf(seen[..n], on)
    ensures NothingDown(ClientAfter(codeToKey, seen[..n]))
  {
    if n > 0 {
      var e := seen[n - 1];
      assert seen[..n][..n - 1] == seen[..n - 1];
      ClientKeepsInv(codeToKey, seen[..n - 1]);
      if e == Input(ReleaseAll) || e.ToggleForward? {
        I.ReleaseEverythingClears(ClientAfter(codeToKey, seen[..n - 1]));
      } else {
        OffMeansNothingDown(codeToKey, seen, on, n - 1);
      }
    } else {
      assert seen[..n] == [];
    }
  }

  /**
   * End to end, for every hotkey-only capture history, every key table and every client that
   * receives some contiguous part of the resulting broadcasts among other messages: at every
   * point where the last toggle or release-all it processed says off, nothing is held down.
   */
  lemma NothingHeldWhileOff(
    hotkey: Option<C.Chord>, on0: bool, history: seq<C.Action>, codeToKey: I.KeyMap,
    a: nat, b: nat, seen: seq<Envelope>, n: nat)
    requires HotkeyOnly(history)
    requires var full := ForwardAll(Stream(hotkey, on0, history));
             a <= b <= |full| && Relevants(seen) == full[a..b]
    requires n <= |seen|
    requires !FlagOf(seen[..n], FlagOf(ForwardAll(Stream(hotkey, on0, history))[..a], on0))
    ensures NothingDown(ClientAfter(codeToKey, seen[..n]))
  {
    var stream := Stream(hotkey, on0, history);
    StreamGated(hotkey, on0, history);
    ForwardAllGated(stream, on0);
    SliceGated(ForwardAll(stream), on0, a, b, seen);
    OffMeansNothingDown(codeToKey, seen, FlagOf(ForwardAll(stream)[..a], on0), n);
  }

  lemma {:induction false} OffSinceReleaseAll(seen: seq<Envelope>, on: bool, r: nat, n: nat)
    requires r < n <= |seen| && seen[r] == Input(ReleaseAll)
    requires forall m :: r < m < n ==> seen[m] != ToggleForward(true)
    ensures !FlagOf(seen[..n], on)
  {
    assert seen[..n][..n - 1] == seen[..n - 1];
    if n > r + 1 {
      OffSinceReleaseAll(seen, on, r, n - 1);
    }
  }

  /** A client that has processed a `ReleaseAll` holds nothing until it sees forwarding on again. */
  lemma ReleaseAllHoldsUntilOn(
    hotkey: Option<C.Chord>, on0: bool, history: seq<C.Action>, codeToKey: I.KeyMap,
    a: nat, b: nat, seen: seq<Envelope>, r: nat, n: nat)
    requires HotkeyOnly(history)
    requires var full := ForwardAll(Stream(hotkey, on0, history));
             a <= b <= |full| && Relevants(seen) == full[a..b]
    requires r < n <= |seen| && seen[r] == Input(ReleaseAll)
    requires forall m :: r < m < n ==> seen[m] != ToggleForward(true)
    ensures NothingDown(ClientAfter(codeToKey, seen[..n]))
  {
    OffSinceReleaseAll(seen, FlagOf(ForwardAll(Stream(hotkey, on0, history))[..a], on0), r, n);
    NothingHeldWhileOff(hotkey, on0, history, codeToKey, a, b, seen, n);
  }

  // ----- the server's fan-out delivers such a part -----

  /** The envelopes of an outbound queue, in the order the client receives them. */
  function Envelopes(queue: seq<Server.Item>): seq<Envelope> {
    seq(|queue|, i requires 0 <= i < |queue| => queue[i].envelope)
  }

  lemma {:induction false} RelevantsConcat(a: seq<Envelope>, b: seq<Envelope>)
    ensures Relevants(a + b) == Relevants(a) + Relevants(b)
  {
    if b == [] {
      assert a + b == a;
    } else {
      assert (a + b)[..|a + b| - 1] == a + b[..|b| - 1];
      RelevantsConcat(a, b[..|b| - 1]);
    }
  }

  /** Pings, pongs and goodbyes sent to one client do not change what it learns about forwarding. */
  lemma {:induction false} DirectIsIrrelevant(queue: seq<Server.Item>)
    requires forall i :: 0 <= i < |queue| && queue[i].Direct? ==> !Relevant(queue[i].envelope)
    ensures Relevants(Envelopes(queue)) == Relevants(Server.Broadcasts(queue))
  {
    if queue != [] {
      var n := |queue| - 1;
      DirectIsIrrelevant(queue[..n]);
      assert Envelopes(queue) == Envelopes(queue[..n]) + [queue[n].envelope];
      RelevantsConcat(Envelopes(queue[..n]), [queue[n].envelope]);
      if queue[n].Broadcast? {
        RelevantsConcat(Server.Broadcasts(queue[..n]), [queue[n].envelope]);
      } else {
        assert Relevants([queue[n].envelope]) == [];
        assert Server.Broadcasts(queue) == Server.Broadcasts(queue[..n]);
      }
    }
  }

  /**
   * If the broadcast log carries a prefix of the forwarder's output among other broadcasts, a
   * client registered from log position `start` to `end` receives a contiguous part of it.
   */
  lemma QueueIsPart(log: seq<Envelope>, full: seq<Envelope>, start: nat, end: nat, queue: seq<Server.Item>)
    requires Relevants(log) <= full && start <= end <= |log|
    requires Server.Broadcasts(queue) == log[start..end]
    requires forall i :: 0 <= i < |queue| && queue[i].Direct? ==> !Relevant(queue[i].envelope)
    ensures var a, b := |Relevants(log[..start])|, |Relevants(log[..end])|;
            a <= b <= |full| && Relevants(Envelopes(queue)) == full[a..b]
  {
    DirectIsIrrelevant(queue);
    RelevantParts(log, start, end);
    MiddlePart(full, Relevants(log[..start]), Relevants(log[start..end]), Relevants(log[end..]));
  }

  lemma RelevantParts(log: seq<Envelope>, start: nat, end: nat)
    requires start <= end <= |log|
    ensures Relevants(log[..end]) == Relevants(log[..start]) + Relevants(log[start..end])
    ensures Relevants(log) == Relevants(log[..start]) + Relevants(log[start..end]) + Relevants(log[end..])
  {
    assert log[..end] == log[..start] + log[start..end];
    RelevantsConcat(log[..start], log[start..end]);
    assert log == log[..end] + log[end..];
    RelevantsConcat(log[..end], log[end..]);
  }

  lemma MiddlePart(full: seq<Envelope>, a: seq<Envelope>, b: seq<Envelope>, c: seq<Envelope>)
    requires a + b + c <= full
    ensures |a| + |b| <= |full| && full[|a|..|a| + |b|] == b
  {
    var all := a + b + c;
    assert all[|a|..|a| + |b|] == b;
    assert full[..|all|] == all;
  }

  /**
   * The whole chain: capture history, forwarder, server run, queue, client, whether the client is
   * still registered at the end of the run or was removed at some step `l` of it.
   */
  lemma RegisteredClientNothingHeldWhileOff(
    hotkey: Option<C.Chord>, on0: bool, history: seq<C.Action>, codeToKey: I.KeyMap,
    states: seq<Server.State>, steps: seq<Server.Step>, r: nat, l: nat, k: nat, id: Server.Id, n: nat, m: nat)
    requires HotkeyOnly(history)
    requires Server.IsRun(states, steps) && r < l <= k < |states| && steps[r] == Server.Register(id)
    requires if l < k then steps[l] == Server.Leave(id) else forall i :: r < i < k ==> steps[i] != Server.Leave(id)
    requires Relevants(states[k].log) <= ForwardAll(Stream(hotkey, on0, history))
    requires id in states[k].queues
    requires var queue := states[k].queues[id];
             && (forall i :: 0 <= i < |queue| && queue[i].Direct? ==> !Relevant(queue[i].envelope))
             && m < n <= |queue| && Envelopes(queue)[m] == Input(ReleaseAll)
             && forall i :: m < i < n ==> Envelopes(queue)[i] != ToggleForward(true)
    ensures NothingDown(ClientAfter(codeToKey, Envelopes(states[k].queues[id])[..n]))
  {
    var queue := states[k].queues[id];
    var log := states[k].log;
    var start, end := |states[r].log|, |states[l].log|;
    Server.FanOutIsSlice(states, steps, r, l, k, id);
    QueueIsPart(log, ForwardAll(Stream(hotkey, on0, history)), start, end, queue);
    ReleaseAllHoldsUntilOn(hotkey, on0, history, codeToKey, |Relevants(log[..start])|,
                           |Relevants(log[..end])|, Envelopes(queue), m, n);
  }

  // ----- the client's running session -----

  /** The envelopes a session handles before its loop ends, the one that ends it included. */
  function Handled(codeToKey: I.KeyMap, start: int, script: seq<S.SelectEvent>): seq<Envelope> {
    if script == [] then []
    else
      var init, last := script[..|script| - 1], script[|script| - 1];
      Handled(codeToKey, start, init)
      + (if last.Arrived? && S.RunLoop(codeToKey, start, init).exit.None? then [last.envelope] else [])
  }

  /** Pings, commands, clipboard texts and the reason for ending leave the injector to the envelopes alone. */
  lemma {:induction false} RunLoopIsClientAfter(codeToKey: I.KeyMap, start: int, script: seq<S.SelectEvent>)
    ensures S.RunLoop(codeToKey, start, script).injector
            == ClientAfter(codeToKey, Handled(codeToKey, start, script))
  {
    if script != [] {
      var init, last := script[..|script| - 1], script[|script| - 1];
      RunLoopIsClientAfter(codeToKey, start, init);
      S.RunLoopStep(codeToKey, start, script);
      if last.Arrived? && S.RunLoop(codeToKey, start, init).exit.None? {
        ClientAfterSnoc(codeToKey, Handled(codeToKey, start, init), last.envelope);
      } else {
        assert Handled(codeToKey, start, script) == Handled(codeToKey, start, init);
      }
    }
  }

  lemma ClientAfterSnoc(codeToKey: I.KeyMap, seen: seq<Envelope>, e: Envelope)
    ensures ClientAfter(codeToKey, seen + [e]) == S.HandleEnvelope(codeToKey, ClientAfter(codeToKey, seen), e)
  {
    assert (seen + [e])[..|seen|] == seen;
  }

  /**
   * So the whole chain ends at the session itself: while it runs, once it has handled a release-all
   * of its queue and seen no toggle-on since, its injector holds nothing, whatever else its select
   * loop did; and when the loop ends, whatever it had handled, it holds nothing either.
   */
  lemma SessionNothingHeldWhileOff(
    hotkey: Option<C.Chord>, on0: bool, history: seq<C.Action>, codeToKey: I.KeyMap,
    states: seq<Server.State>, steps: seq<Server.Step>, r: nat, l: nat, k: nat, id: Server.Id,
    start: int, script: seq<S.SelectEvent>, m: nat)
    requires HotkeyOnly(history)
    requires Server.IsRun(states, steps) && r < l <= k < |states| && steps[r] == Server.Register(id)
    requires if l < k then steps[l] == Server.Leave(id) else forall i :: r < i < k ==> steps[i] != Server.Leave(id)
    requires Relevants(states[k].log) <= ForwardAll(Stream(hotkey, on0, history))
    requires id in states[k].queues
    requires var queue := states[k].queues[id];
             && (forall i :: 0 <= i < |queue| && queue[i].Direct? ==> !Relevant(queue[i].envelope))
             && Handled(codeToKey, start, script) <= Envelopes(queue)
    requires var seen := Handled(codeToKey, start, script);
             && m < |seen| && seen[m] == Input(ReleaseAll)
             && forall i :: m < i < |seen| ==> seen[i] != ToggleForward(true)
    ensures NothingDown(S.RunLoop(codeToKey, start, script).injector)
    ensures NothingDown(I.ReleaseEverything(S.RunLoop(codeToKey, start, script).injector))
  {
    var seen, all := Handled(codeToKey, start, script), Envelopes(states[k].queues[id]);
    PrefixItems(seen, all);
    assert NothingDown(ClientAfter(codeToKey, all[..|seen|])) by {
      RegisteredClientNothingHeldWhileOff(hotkey, on0, history, codeToKey, states, steps, r, l, k, id, |seen|, m);
    }
    RunLoopIsClientAfter(codeToKey, start, script);
    EndLeavesNothing(codeToKey, start, script);
  }

  lemma PrefixItems(part: seq<Envelope>, all: seq<Envelope>)
    requires part <= all
    ensures all[..|part|] == part && forall i :: 0 <= i < |part| ==> all[i] == part[i]
  {
  }

  lemma EndLeavesNothing(codeToKey: I.KeyMap, start: int, script: seq<S.SelectEvent>)
    ensures NothingDown(I.ReleaseEverything(S.RunLoop(codeToKey, start, script).injector))
  {
    S.ExitLeavesNothingDown(codeToKey, start, script);
  }

  // ----- nothing is lost on the way -----

  /** The inputs among capture events. */
  function StreamInputs(stream: seq<CaptureEvent>): seq<Event> {
    if stream == [] then []
    else
      var last := stream[|stream| - 1];
      StreamInputs(stream[..|stream| - 1]) + (if last.InputEvent? then [last.event] else [])
  }

  /** The inputs among envelopes, without the release-alls that accompany toggles. */
  function EnvelopeInputs(es: seq<Envelope>): seq<Event> {
    if es == [] then []
    else
      EnvelopeInputs(es[..|es| - 1]) + (if PlainInput(es[|es| - 1]) then [es[|es| - 1].event] else [])
  }

  function StreamToggles(stream: seq<CaptureEvent>): seq<bool> {
    if stream == [] then []
    else
      var last := stream[|stream| - 1];
      StreamToggles(stream[..|stream| - 1]) + (if last.ForwardingToggled? then [last.on] else [])
  }

  function EnvelopeToggles(es: seq<Envelope>): seq<bool> {
    if es == [] then []
    else
      var last := es[|es| - 1];
      EnvelopeToggles(es[..|es| - 1]) + (if last.ToggleForward? then [last.on] else [])
  }

  lemma EnvelopesSnoc(es: seq<Envelope>, e: Envelope)
    ensures EnvelopeInputs(es + [e]) == EnvelopeInputs(es) + (if PlainInput(e) then [e.event] else [])
    ensures EnvelopeToggles(es + [e]) == EnvelopeToggles(es) + (if e.ToggleForward? then [e.on] else [])
  {
    assert (es + [e])[..|es|] == es;
  }

  lemma ForwardKeeps(es: seq<Envelope>, e: CaptureEvent)
    requires e.InputEvent? ==> e.event != ReleaseAll
    ensures EnvelopeInputs(es + Forward(e)) == EnvelopeInputs(es) + (if e.InputEvent? then [e.event] else [])
    ensures EnvelopeToggles(es + Forward(e)) == EnvelopeToggles(es) + (if e.ForwardingToggled? then [e.on] else [])
  {
    if e.ForwardingToggled? && !e.on {
      EnvelopesSnoc(es, Input(ReleaseAll));
      EnvelopesSnoc(es + [Input(ReleaseAll)], ToggleForward(false));
      assert es + Forward(e) == (es + [Input(ReleaseAll)]) + [ToggleForward(false)];
    } else {
      EnvelopesSnoc(es, if e.InputEvent? then Input(e.event) else ToggleForward(true));
      assert EnvelopeInputs(es) + [] == EnvelopeInputs(es) && EnvelopeToggles(es) + [] == EnvelopeToggles(es);
    }
  }

  /** The forwarder broadcasts every input and toggle of the channel, once and in order; it adds only release-alls. */
  lemma {:induction false} ForwarderLosesNothing(stream: seq<CaptureEvent>)
    requires forall q :: 0 <= q < |stream| && stream[q].InputEvent? ==> stream[q].event != ReleaseAll
    ensures EnvelopeInputs(ForwardAll(stream)) == StreamInputs(stream)
    ensures EnvelopeToggles(ForwardAll(stream)) == StreamToggles(stream)
  {
    if stream != [] {
      ForwarderLosesNothing(stream[..|stream| - 1]);
      ForwardKeeps(ForwardAll(stream[..|stream| - 1]), stream[|stream| - 1]);
    }
  }

  /** What the callbacks of a history forwarded, in order. */
  function Forwarded(hotkey: Option<C.Chord>, on0: bool, history: seq<C.Action>): seq<Event> {
    if history == [] then []
    else
      var n := |history| - 1;
      var o := C.OutcomeAt(hotkey, on0, history, n);
      Forwarded(hotkey, on0, history[..n]) + (if o.forward.Some? then [o.forward.value] else [])
  }

  function Toggled(hotkey: Option<C.Chord>, on0: bool, history: seq<C.Action>): seq<bool> {
    if history == [] then []
    else
      var n := |history| - 1;
      var o := C.OutcomeAt(hotkey, on0, history, n);
      Toggled(hotkey, on0, history[..n]) + (if o.toggled.Some? then [o.toggled.value] else [])
  }

  lemma DispatchKeeps(stream: seq<CaptureEvent>, o: C.Outcome)
    ensures StreamInputs(stream + Dispatch(o))
            == StreamInputs(stream) + if o.forward.Some? then [o.forward.value] else []
    ensures StreamToggles(stream + Dispatch(o))
            == StreamToggles(stream) + if o.toggled.Some? then [o.toggled.value] else []
  {
    var toggle := if o.toggled.Some? then [ForwardingToggled(o.toggled.value)] else [];
    var mid := stream + toggle;
    var all := stream + Dispatch(o);
    assert o.toggled.Some? ==> mid[..|mid| - 1] == stream;
    assert o.toggled.None? ==> mid == stream;
    assert o.forward.Some? ==> all[..|all| - 1] == mid;
    assert o.forward.None? ==> all == mid;
  }

  lemma {:induction false} StreamIsForwarded(hotkey: Option<C.Chord>, on0: bool, history: seq<C.Action>)
    ensures StreamInputs(Stream(hotkey, on0, history)) == Forwarded(hotkey, on0, history)
    ensures StreamToggles(Stream(hotkey, on0, history)) == Toggled(hotkey, on0, history)
  {
    if history != [] {
      var n := |history| - 1;
      StreamIsForwarded(hotkey, on0, history[..n]);
      DispatchKeeps(Stream(hotkey, on0, history[..n]), C.OutcomeAt(hotkey, on0, history, n));
    }
  }

  /** From callback to broadcast: the inputs and toggles broadcast are those the callbacks produced, in order. */
  lemma CaptureLosesNothing(hotkey: Option<C.Chord>, on0: bool, history: seq<C.Action>)
    requires HotkeyOnly(history)
    ensures var es := ForwardAll(Stream(hotkey, on0, history));
            && EnvelopeInputs(es) == Forwarded(hotkey, on0, history)
            && EnvelopeToggles(es) == Toggled(hotkey, on0, history)
  {
    StreamGated(hotkey, on0, history);
    StreamIsForwarded(hotkey, on0, history);
    ForwarderLosesNothing(Stream(hotkey, on0, history));
  }

  // ----- and the client does what it is sent -----

  /** What a client is asked to inject: its inputs, and a release-all for every toggle-off. */
  function AskedEvents(seen: seq<Envelope>): seq<Event> {
    if seen == [] then []
    else
      AskedEvents(seen[..|seen| - 1])
      + match seen[|seen| - 1]
        case Input(e) => [e]
        case ToggleForward(on) => if on then [] else [ReleaseAll]
        case _ => []
  }

  /** The client's injector is exactly the injector those events lead to. */
  lemma {:induction false} ClientIsInjected(codeToKey: I.KeyMap, seen: seq<Envelope>)
    ensures ClientAfter(codeToKey, seen) == I.InjectAll(codeToKey, AskedEvents(seen))
  {
    if seen != [] {
      var init, last := seen[..|seen| - 1], seen[|seen| - 1];
      ClientIsInjected(codeToKey, init);
      var before, after := AskedEvents(init), AskedEvents(seen);
      if |after| > |before| {
        assert after[..|after| - 1] == before;
      } else {
        assert after == before;
      }
    }
  }

  /** So a key or button is down at the client exactly when the last word it was sent about it was a press. */
  lemma ClientDownIff(codeToKey: I.KeyMap, seen: seq<Envelope>, item: I.Item)
    ensures I.IsDown(ClientAfter(codeToKey, seen).calls, item) <==> I.Asked(codeToKey, AskedEvents(seen), item)
    ensures I.Motions(ClientAfter(codeToKey, seen).calls) == I.AskedMotions(AskedEvents(seen))
  {
    ClientIsInjected(codeToKey, seen);
    I.DownIffAsked(codeToKey, AskedEvents(seen), item);
    I.MotionsAreAsked(codeToKey, AskedEvents(seen));
  }
}
