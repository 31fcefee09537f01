/** The client's running session (`client/src/session.rs`): the select loop and its exit path. */
module Session {
  import opened Base
  import opened Protocol
  import I = Injector

  const DEAD_AFTER: int := 20_000_000_000

  /** One completed branch of the `select!`. */
  datatype SelectEvent =
    | CancelFired
    | PingDue(now: int, sendOk: bool)
    | CommandDue(sendOk: bool)
    | CommandsClosed
    | ClipboardDue
    | Arrived(envelope: Envelope, now: int, replyOk: bool)
    | ReadFailed

  datatype Exit = Closed | Unresponsive | SendFailed | ConnectionLost

  datatype Loop = Loop(injector: I.State, lastReceived: int, exit: Option<Exit>)

  /** What a received envelope does to the injector. */
  function HandleEnvelope(codeToKey: I.KeyMap, s: I.State, envelope: Envelope): I.State {
    match envelope
    case Input(ReleaseAll) => I.ReleaseEverything(s)
    case Input(e) => I.Inject(codeToKey, s, e)
    case ToggleForward(on) => if on then s else I.ReleaseEverything(s)
    case _ => s
  }

  function Handle(codeToKey: I.KeyMap, l: Loop, e: SelectEvent): Loop {
    match e
    case CancelFired => l.(exit := Some(Closed))
    case PingDue(now, sendOk) =>
      if now - l.lastReceived > DEAD_AFTER then l.(exit := Some(Unresponsive))
      else if !sendOk then l.(exit := Some(SendFailed))
      else l
    case CommandDue(sendOk) => if sendOk then l else l.(exit := Some(SendFailed))
    case CommandsClosed => l
    case ClipboardDue => l
    case Arrived(envelope, now, replyOk) =>
      var l1 := l.(injector := HandleEnvelope(codeToKey, l.injector, envelope), lastReceived := now);
      if envelope.Ping? && !replyOk then l1.(exit := Some(SendFailed))
      else if envelope.Goodbye? then l1.(exit := Some(Closed))
      else l1
    case ReadFailed => l.(exit := Some(ConnectionLost))
  }

  /** The loop over a script of select results; nothing happens after an exit. */
  function RunLoop(codeToKey: I.KeyMap, start: int, script: seq<SelectEvent>): Loop {
    if script == [] then Loop(I.Idle, start, None)
    else
      var l := RunLoop(codeToKey, start, script[..|script| - 1]);
      if l.exit.Some? then l else Handle(codeToKey, l, script[|script| - 1])
  }

  lemma HandleEnvelopeKeepsInv(codeToKey: I.KeyMap, s: I.State, envelope: Envelope)
    requires I.Inv(s)
    ensures I.Inv(HandleEnvelope(codeToKey, s, envelope))
  {
    match envelope
    case Input(e) => I.InjectKeepsInv(codeToKey, s, e);
    case ToggleForward(on) => if !on { I.ReleaseEverythingClears(s); }
    case _ =>
  }

  /** Only an envelope that arrives before the exit touches the injector. */
  lemma RunLoopStep(codeToKey: I.KeyMap, start: int, script: seq<SelectEvent>)
    requires script != []
    ensures var l, last := RunLoop(codeToKey, start, script[..|script| - 1]), script[|script| - 1];
            RunLoop(codeToKey, start, script).injector
            == if last.Arrived? && l.exit.None? then HandleEnvelope(codeToKey, l.injector, last.envelope)
               else l.injector
  {
  }

  lemma {:induction false} RunLoopKeepsInv(codeToKey: I.KeyMap, start: int, script: seq<SelectEvent>)
    ensures I.Inv(RunLoop(codeToKey, start, script).injector)
  {
    if script == [] {
      I.InjectAllKeepsInv(codeToKey, []);
    } else {
      var n := |script| - 1;
      RunLoopKeepsInv(codeToKey, start, script[..n]);
      var l := RunLoop(codeToKey, start, script[..n]);
      if l.exit.None? && script[n].Arrived? {
        HandleEnvelopeKeepsInv(codeToKey, l.injector, script[n].envelope);
      }
    }
  }

  /** Whatever ends the loop, the exit path leaves nothing held and nothing down. */
  lemma ExitLeavesNothingDown(codeToKey: I.KeyMap, start: int, script: seq<SelectEvent>)
    ensures var final := I.ReleaseEverything(RunLoop(codeToKey, start, script).injector);
            && final.heldKeys == [] && final.heldButtons == []
            && forall x :: !I.IsDown(final.calls, x)
  {
    RunLoopKeepsInv(codeToKey, start, script);
    I.ReleaseEverythingClears(RunLoop(codeToKey, start, script).injector);
  }

  // ----- when and why the loop ends -----

  /** When data last arrived, or the loop's start. */
  function LastArrival(start: int, script: seq<SelectEvent>): int {
    if script == [] then start
    else
      var last := script[|script| - 1];
      if last.Arrived? then last.now else LastArrival(start, script[..|script| - 1])
  }

  /** Why the event ends a loop in which data last arrived at `last`, if it does. */
  function Ends(e: SelectEvent, last: int): Option<Exit> {
    match e
    case CancelFired => Some(Closed)
    case PingDue(now, sendOk) =>
      if now - last > 20_000_000_000 then Some(Unresponsive) else if sendOk then None else Some(SendFailed)
    case CommandDue(sendOk) => if sendOk then None else Some(SendFailed)
    case Arrived(Goodbye, _, _) => Some(Closed)
    case Arrived(Ping(_), _, replyOk) => if replyOk then None else Some(SendFailed)
    case ReadFailed => Some(ConnectionLost)
    case _ => None
  }

  /** No event of the script ends the loop: no cancel, goodbye, read error, failed send or silence over 20 seconds. */
  predicate Quiet(start: int, script: seq<SelectEvent>) {
    forall i :: 0 <= i < |script| ==> Ends(script[i], LastArrival(start, script[..i])) == None
  }

  lemma QuietSnoc(start: int, script: seq<SelectEvent>)
    requires script != []
    ensures var init, last := script[..|script| - 1], script[|script| - 1];
            Quiet(start, script) <==> Quiet(start, init) && Ends(last, LastArrival(start, init)).None?
  {
    var n := |script| - 1;
    assert forall i :: 0 <= i < n ==> script[..n][..i] == script[..i];
  }

  /** The loop runs on exactly while its script is quiet. */
  lemma {:induction false} ExitIff(codeToKey: I.KeyMap, start: int, script: seq<SelectEvent>)
    ensures RunLoop(codeToKey, start, script).exit.None? <==> Quiet(start, script)
    ensures Quiet(start, script) ==> RunLoop(codeToKey, start, script).lastReceived == LastArrival(start, script)
  {
    if script != [] {
      var n := |script| - 1;
      ExitIff(codeToKey, start, script[..n]);
      QuietSnoc(start, script);
      var l := RunLoop(codeToKey, start, script[..n]);
      if l.exit.None? {
        HandleExit(codeToKey, l, script[n]);
      }
    }
  }

  /** It ends for the reason of the first event that ends it. */
  lemma ExitReason(codeToKey: I.KeyMap, start: int, script: seq<SelectEvent>, i: nat)
    requires i < |script| && Quiet(start, script[..i])
    requires Ends(script[i], LastArrival(start, script[..i])).Some?
    ensures RunLoop(codeToKey, start, script).exit == Ends(script[i], LastArrival(start, script[..i]))
  {
    ExitIff(codeToKey, start, script[..i]);
    assert script[..i + 1][..i] == script[..i];
    HandleExit(codeToKey, RunLoop(codeToKey, start, script[..i]), script[i]);
    StaysExited(codeToKey, start, script, i + 1);
  }

  lemma HandleExit(codeToKey: I.KeyMap, l: Loop, e: SelectEvent)
    requires l.exit.None?
    ensures Handle(codeToKey, l, e).exit == Ends(e, l.lastReceived)
    ensures Ends(e, l.lastReceived).None? ==>
              Handle(codeToKey, l, e).lastReceived == if e.Arrived? then e.now else l.lastReceived
  {
  }

  /**
   * The running session: loops until some branch ends it, then releases everything. A script
   * that never ends the loop leaves it running.
   */
  method Run(injector: I.InputInjector, codeToKey: I.KeyMap, start: int, script: seq<SelectEvent>)
    returns (exit: Option<Exit>)
    requires injector.Valid() && injector.View() == I.Idle
    modifies injector
    ensures injector.Valid()
    ensures exit == RunLoop(codeToKey, start, script).exit && (exit.None? <==> Quiet(start, script))
    ensures exit.Some? ==>
              && injector.View() == I.ReleaseEverything(RunLoop(codeToKey, start, script).injector)
              && forall x :: !I.IsDown(injector.calls, x)
  {
    var lastReceived := start;
    exit := None;
    var i := 0;
    while i < |script| && exit.None?
      invariant 0 <= i <= |script|
      invariant injector.Valid()
      invariant Loop(injector.View(), lastReceived, exit) == RunLoop(codeToKey, start, script[..i])
    {
      var e := script[i];
      assert script[..i + 1][..i] == script[..i];
      i := i + 1;
      match e
      case CancelFired => exit := Some(Closed);
      case PingDue(now, sendOk) =>
        if now - lastReceived > DEAD_AFTER {
          exit := Some(Unresponsive);
        } else if !sendOk {
          exit := Some(SendFailed);
        }
      case CommandDue(sendOk) =>
        if !sendOk {
          exit := Some(SendFailed);
        }
      case CommandsClosed =>
      case ClipboardDue =>
      case Arrived(envelope, now, replyOk) =>
        lastReceived := now;
        Dispatch(injector, codeToKey, envelope);
        if envelope.Ping? && !replyOk {
          exit := Some(SendFailed);
        } else if envelope.Goodbye? {
          exit := Some(Closed);
        }
      case ReadFailed => exit := Some(ConnectionLost);
    }
    StaysExited(codeToKey, start, script, i);
    ExitIff(codeToKey, start, script);
    if exit.Some? {
      injector.ReleaseAllHeld();
    }
  }

  method Dispatch(injector: I.InputInjector, codeToKey: I.KeyMap, envelope: Envelope)
    requires injector.Valid()
    modifies injector
    ensures injector.Valid()
    ensures injector.View() == HandleEnvelope(codeToKey, old(injector.View()), envelope)
  {
    match envelope
    case Input(e) =>
      if e == ReleaseAll {
        injector.ReleaseAllHeld();
      } else {
        injector.InjectEvent(codeToKey, e);
      }
    case ToggleForward(on) =>
      if !on {
        injector.ReleaseAllHeld();
      }
    case _ =>
  }

  lemma {:induction false} StaysExited(codeToKey: I.KeyMap, start: int, script: seq<SelectEvent>, n: nat)
    requires n <= |script| && (n == |script| || RunLoop(codeToKey, start, script[..n]).exit.Some?)
    ensures RunLoop(codeToKey, start, script) == RunLoop(codeToKey, start, script[..n])
  {
    if n == |script| {
      assert script[..n] == script;
    } else {
      var init := script[..|script| - 1];
      assert init[..n] == script[..n];
      StaysExited(codeToKey, start, init, n);
    }
  }
}
