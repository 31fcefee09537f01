/**
 * The global input capture (`server/src/capture.rs`): what one operating-system event does to
 * the capture state and what it emits, and what holds over every event history.
 */
module Capture {
  import opened Base
  import opened Protocol

  const HOTKEY_DEBOUNCE: int := 250_000_000
  const EDGE_THRESHOLD: real := 2.0

  const CTRL: bv8 := 1
  const ALT: bv8 := 2
  const SHIFT: bv8 := 4
  const META: bv8 := 8

  /** The modifier keys by name; every other key by its canonical code. */
  datatype Key =
    | ControlLeft | ControlRight | Alt | AltGr | ShiftLeft | ShiftRight | MetaLeft | MetaRight
    | Other(code: nat)

  function KeyToCode(key: Key): nat {
    match key
    case ControlLeft => 29
    case ControlRight => 97
    case Alt => 56
    case AltGr => 100
    case ShiftLeft => 42
    case ShiftRight => 54
    case MetaLeft => 125
    case MetaRight => 126
    case Other(code) => code
  }

  datatype OsButton = LeftButton | RightButton | MiddleButton | UnknownButton(n: nat)

  function ConvertMouseButton(b: OsButton): MouseButton {
    match b
    case LeftButton => Left
    case RightButton => Right
    case MiddleButton => Middle
    case UnknownButton(n) => if n == 4 then Back else if n == 5 then Forward else Left
  }

  datatype OsEvent =
    | KeyDown(key: Key)
    | KeyUp(key: Key)
    | ButtonDown(button: OsButton)
    | ButtonUp(button: OsButton)
    | WheelMove(deltaX: int, deltaY: int)
    | MoveTo(x: real, y: real)

  datatype Chord = Chord(key: Key, ctrl: bool, alt: bool, shift: bool, meta: bool)

  /** What the display calls answer during a callback. */
  datatype Screen = NoDisplay | Display(width: nat, height: nat, warpWorks: bool)

  datatype State = State(
    enabled: bool,
    wasEnabled: bool,
    lastX: real,
    lastY: real,
    pressed: set<Key>,
    warping: bool,
    seedNext: bool,
    lastFire: Option<int>,
    swallowed: set<Key>)

  datatype Outcome = Outcome(swallow: bool, forward: Option<Event>, toggled: Option<bool>)

  const Nothing := Outcome(false, None, None)

  function InitialState(enabled: bool): State {
    State(enabled, enabled, 0.0, 0.0, {}, false, true, None, {})
  }

  // ----- pure helpers -----

  function ComputeModifiers(pressed: set<Key>): bv8 {
    (if ControlLeft in pressed || ControlRight in pressed then CTRL else 0)
    | (if Alt in pressed || AltGr in pressed then ALT else 0)
    | (if ShiftLeft in pressed || ShiftRight in pressed then SHIFT else 0)
    | (if MetaLeft in pressed || MetaRight in pressed then META else 0)
  }

  predicate ChordSatisfied(hk: Chord, mods: bv8) {
    var required := (if hk.ctrl then CTRL else 0) | (if hk.alt then ALT else 0)
                    | (if hk.shift then SHIFT else 0) | (if hk.meta then META else 0);
    mods & required == required
  }

  /** Every modifier the chord asks for is held, on either side. */
  predicate ChordHeld(hk: Chord, held: set<Key>) {
    && (hk.ctrl ==> ControlLeft in held || ControlRight in held)
    && (hk.alt ==> Alt in held || AltGr in held)
    && (hk.shift ==> ShiftLeft in held || ShiftRight in held)
    && (hk.meta ==> MetaLeft in held || MetaRight in held)
  }

  /** `as i32` on a 64-bit integer keeps the low 32 bits. */
  function WrapI32(n: int): int {
    var m := n % 0x1_0000_0000;
    if m < 0x8000_0000 then m else m - 0x1_0000_0000
  }

  /** `as i32` on a float drops the fraction and saturates. */
  function TruncI32(r: real): int {
    var t := if r >= 0.0 then r.Floor else -(-r).Floor;
    if t > 0x7fff_ffff then 0x7fff_ffff else if t < -0x8000_0000 then -0x8000_0000 else t
  }

  predicate NearEdge(screen: Screen, x: real, y: real)
    requires screen.Display?
  {
    || x <= EDGE_THRESHOLD
    || y <= EDGE_THRESHOLD
    || x >= screen.width as real - 1.0 - EDGE_THRESHOLD
    || y >= screen.height as real - 1.0 - EDGE_THRESHOLD
  }

  /** A move near the edge while forwarding warps the cursor to the centre, if that works. */
  predicate Warps(screen: Screen, x: real, y: real) {
    screen.Display? && screen.width > 0 && screen.height > 0 && screen.warpWorks
    && NearEdge(screen, x, y)
  }

  // ----- one callback -----

  /** The load and swap that open every callback. */
  function Observe(s: State): State {
    s.(wasEnabled := s.enabled, seedNext := s.seedNext || (s.enabled && !s.wasEnabled))
  }

  function TryFire(s: State, now: int): (State, Option<bool>) {
    if s.lastFire.Some? && now - s.lastFire.value < HOTKEY_DEBOUNCE then (s, None)
    else
      var on := !s.enabled;
      (s.(lastFire := Some(now), enabled := on, wasEnabled := on, seedNext := s.seedNext || on), Some(on))
  }

  predicate IsChordPress(hotkey: Option<Chord>, key: Key, pressed: set<Key>) {
    hotkey.Some? && key == hotkey.value.key && ChordSatisfied(hotkey.value, ComputeModifiers(pressed))
  }

  function ProcessKeyDown(hotkey: Option<Chord>, s: State, key: Key, now: int): (State, Outcome) {
    var s1 := s.(pressed := s.pressed + {key});
    if IsChordPress(hotkey, key, s1.pressed) then
      var s2 := s1.(swallowed := s1.swallowed + {key});
      if key in s.pressed then (s2, Nothing.(swallow := true))
      else
        var (s3, toggled) := TryFire(s2, now);
        (s3, Outcome(true, None, toggled))
    else if s.enabled then
      (s1, Outcome(true, Some(KeyPress(KeyToCode(key), ComputeModifiers(s1.pressed))), None))
    else (s1, Nothing)
  }

  function ProcessKeyUp(s: State, key: Key): (State, Outcome) {
    var s1 := s.(pressed := s.pressed - {key});
    if key in s.swallowed then (s1.(swallowed := s.swallowed - {key}), Nothing.(swallow := true))
    else if s.enabled then
      (s1, Outcome(true, Some(KeyRelease(KeyToCode(key), ComputeModifiers(s1.pressed))), None))
    else (s1, Nothing)
  }

  function ProcessMove(s: State, x: real, y: real, screen: Screen): (State, Option<Event>) {
    var s1 := s.(lastX := x, lastY := y);
    if s.warping then (s1.(warping := false), None)
    else if s.seedNext then (s1.(seedNext := false), None)
    else
      var dx, dy := TruncI32(x - s.lastX), TruncI32(y - s.lastY);
      (s1.(warping := s.enabled && Warps(screen, x, y)),
       if s.enabled && (dx != 0 || dy != 0) then Some(MouseDelta(dx, dy)) else None)
  }

  function ForwardIf(enabled: bool, e: Event): Outcome {
    if enabled then Outcome(true, Some(e), None) else Nothing
  }

  function Process(hotkey: Option<Chord>, s0: State, e: OsEvent, now: int, screen: Screen): (State, Outcome) {
    var s := Observe(s0);
    match e
    case KeyDown(key) => ProcessKeyDown(hotkey, s, key, now)
    case KeyUp(key) => ProcessKeyUp(s, key)
    case ButtonDown(b) => (s, ForwardIf(s.enabled, MouseButtonPress(ConvertMouseButton(b))))
    case ButtonUp(b) => (s, ForwardIf(s.enabled, MouseButtonRelease(ConvertMouseButton(b))))
    case WheelMove(dx, dy) => (s, ForwardIf(s.enabled, Wheel(WrapI32(dx), WrapI32(dy))))
    case MoveTo(x, y) =>
      var (s', forward) := ProcessMove(s, x, y, screen);
      (s', Nothing.(forward := forward))
  }

  // ----- histories -----

  /** A callback, or another task storing the shared forwarding flag. */
  datatype Action =
    | Os(event: OsEvent, now: int, screen: Screen)
    | SetEnabled(on: bool)

  function Act(hotkey: Option<Chord>, s: State, a: Action): (State, Outcome) {
    match a
    case Os(e, now, screen) => Process(hotkey, s, e, now, screen)
    case SetEnabled(on) => (s.(enabled := on), Nothing)
  }

  /** The state after a history, starting with forwarding `on0`. */
  function After(hotkey: Option<Chord>, on0: bool, history: seq<Action>): State {
    if history == [] then InitialState(on0)
    else
      Act(hotkey, After(hotkey, on0, history[..|history| - 1]), history[|history| - 1]).0
  }

  /** The outcome of action number `i`. */
  function OutcomeAt(hotkey: Option<Chord>, on0: bool, history: seq<Action>, i: nat): Outcome
    requires i < |history|
  {
    Act(hotkey, After(hotkey, on0, history[..i]), history[i]).1
  }

  /** The keys a history leaves held: pressed and not released since. */
  function HeldAfter(history: seq<Action>): set<Key> {
    if history == [] then {}
    else
      var held := HeldAfter(history[..|history| - 1]);
      var last := history[|history| - 1];
      if last.Os? && last.event.KeyDown? then held + {last.event.key}
      else if last.Os? && last.event.KeyUp? then held - {last.event.key}
      else held
  }

  predicate IsPress(a: Action, key: Key) {
    a.Os? && a.event == KeyDown(key)
  }

  predicate IsRelease(a: Action, key: Key) {
    a.Os? && a.event == KeyUp(key)
  }

  /** Action `i` pressed `key` and completed the chord, judged by the held keys alone. */
  predicate CompletedChord(hotkey: Option<Chord>, history: seq<Action>, i: nat, key: Key)
    requires i < |history|
  {
    && IsPress(history[i], key)
    && hotkey.Some? && hotkey.value.key == key
    && ChordHeld(hotkey.value, HeldAfter(history[..i + 1]))
  }

  /** A chord press of `key` at `i` with no release of it after. */
  predicate OutstandingAt(hotkey: Option<Chord>, history: seq<Action>, key: Key, i: nat) {
    && i < |history| && CompletedChord(hotkey, history, i, key)
    && forall j :: i < j < |history| ==> !IsRelease(history[j], key)
  }

  /** Some press of `key` since its previous release completed the chord. */
  ghost predicate ChordSinceRelease(hotkey: Option<Chord>, history: seq<Action>, key: Key) {
    exists i: nat :: OutstandingAt(hotkey, history, key, i)
  }

  // ----- one step -----

  lemma ActPressed(hotkey: Option<Chord>, s: State, a: Action)
    ensures Act(hotkey, s, a).0.pressed
            == if a.Os? && a.event.KeyDown? then s.pressed + {a.event.key}
               else if a.Os? && a.event.KeyUp? then s.pressed - {a.event.key}
               else s.pressed
  {
  }

  lemma KeyDownSwallowed(hotkey: Option<Chord>, s: State, pressed: Key, now: int, key: Key)
    ensures key in ProcessKeyDown(hotkey, s, pressed, now).0.swallowed
            <==> (key == pressed && IsChordPress(hotkey, key, s.pressed + {key})) || key in s.swallowed
  {
  }

  lemma KeyUpSwallowed(s: State, released: Key, key: Key)
    ensures key in ProcessKeyUp(s, released).0.swallowed <==> key in s.swallowed && key != released
  {
  }

  lemma ActKeySwallowed(hotkey: Option<Chord>, s: State, a: Action, key: Key)
    requires a.Os? && (a.event.KeyDown? || a.event.KeyUp?)
    ensures key in Act(hotkey, s, a).0.swallowed
            <==> || (IsPress(a, key) && IsChordPress(hotkey, key, s.pressed + {key}))
                 || (key in s.swallowed && !IsRelease(a, key))
  {
    if a.event.KeyDown? {
      KeyDownSwallowed(hotkey, Observe(s), a.event.key, a.now, key);
    } else {
      KeyUpSwallowed(Observe(s), a.event.key, key);
    }
  }

  lemma ActOtherSwallowed(hotkey: Option<Chord>, s: State, a: Action)
    requires a.Os? ==> !a.event.KeyDown? && !a.event.KeyUp?
    ensures Act(hotkey, s, a).0.swallowed == s.swallowed
  {
  }

  lemma ActSwallowed(hotkey: Option<Chord>, s: State, a: Action, key: Key)
    ensures key in Act(hotkey, s, a).0.swallowed
            <==> || (IsPress(a, key) && IsChordPress(hotkey, key, s.pressed + {key}))
                 || (key in s.swallowed && !IsRelease(a, key))
  {
    if a.Os? && (a.event.KeyDown? || a.event.KeyUp?) {
      ActKeySwallowed(hotkey, s, a, key);
    } else {
      ActOtherSwallowed(hotkey, s, a);
    }
  }

  /** Only a debounced toggle moves the last-fire instant, and it moves it to its own. */
  lemma ActFire(hotkey: Option<Chord>, s: State, a: Action)
    ensures var (s', o) := Act(hotkey, s, a);
            if o.toggled.Some? then
              a.Os? && s'.lastFire == Some(a.now)
              && (s.lastFire.Some? ==> a.now - s.lastFire.value >= HOTKEY_DEBOUNCE)
            else s'.lastFire == s.lastFire
  {
  }

  /** Inputs are forwarded only with the flag on and leave it on; a toggle flips it and forwards nothing. */
  lemma ActGate(hotkey: Option<Chord>, s: State, a: Action)
    requires a.Os?
    ensures var (s', o) := Act(hotkey, s, a);
            && (o.forward.Some? ==> s.enabled && o.toggled.None? && o.forward.value != ReleaseAll)
            && s'.enabled == (if o.toggled.Some? then o.toggled.value else s.enabled)
            && (o.toggled.Some? ==> o.toggled.value != s.enabled)
  {
  }

  lemma ActSeed(hotkey: Option<Chord>, s: State, a: Action)
    ensures var (s', o) := Act(hotkey, s, a);
            && (s.seedNext && !IsMove(a) ==> s'.seedNext)
            && (a.Os? && s.enabled && !s.wasEnabled && !IsMove(a) ==> s'.seedNext)
            && (o.toggled == Some(true) ==> s'.seedNext)
            && (IsMove(a) && (s.seedNext || (s.enabled && !s.wasEnabled)) ==> o.forward.None?)
  {
  }

  lemma ActMoveKeepsFlag(hotkey: Option<Chord>, s: State, a: Action)
    requires IsMove(a)
    ensures Act(hotkey, s, a).1.toggled.None?
  {
  }

  // ----- modifiers and chords -----

  /** The bit test on the computed mask says exactly that every required modifier is held. */
  lemma ChordBits(hk: Chord, pressed: set<Key>)
    ensures ChordSatisfied(hk, ComputeModifiers(pressed)) <==> ChordHeld(hk, pressed)
  {
  }

  /** The tracked pressed set is the history's held set, whoever toggles the flag meanwhile. */
  lemma {:induction false} PressedIsHeld(hotkey: Option<Chord>, on0: bool, history: seq<Action>)
    ensures After(hotkey, on0, history).pressed == HeldAfter(history)
  {
    if history != [] {
      PressedIsHeld(hotkey, on0, history[..|history| - 1]);
      ActPressed(hotkey, After(hotkey, on0, history[..|history| - 1]), history[|history| - 1]);
    }
  }

  lemma CompletedChordPrefix(hotkey: Option<Chord>, history: seq<Action>, a: Action, i: nat, key: Key)
    requires i < |history|
    ensures CompletedChord(hotkey, history + [a], i, key) <==> CompletedChord(hotkey, history, i, key)
  {
    assert (history + [a])[..i + 1] == history[..i + 1];
  }

  lemma OutstandingAtSnoc(hotkey: Option<Chord>, history: seq<Action>, a: Action, key: Key, i: nat)
    requires i < |history|
    ensures OutstandingAt(hotkey, history + [a], key, i)
            <==> OutstandingAt(hotkey, history, key, i) && !IsRelease(a, key)
  {
    var all := history + [a];
    CompletedChordPrefix(hotkey, history, a, i, key);
    assert forall j :: i < j < |history| ==> all[j] == history[j];
    assert all[|history|] == a;
  }

  /** How one more action changes "a chord press of this key is outstanding". */
  lemma ChordSinceReleaseSnoc(hotkey: Option<Chord>, history: seq<Action>, a: Action, key: Key)
    ensures ChordSinceRelease(hotkey, history + [a], key)
            <==> || CompletedChord(hotkey, history + [a], |history|, key)
                 || (ChordSinceRelease(hotkey, history, key) && !IsRelease(a, key))
  {
    var all := history + [a];
    if i: nat :| OutstandingAt(hotkey, all, key, i) {
      if i < |history| {
        OutstandingAtSnoc(hotkey, history, a, key, i);
      }
    }
    if i: nat :| OutstandingAt(hotkey, history, key, i) {
      OutstandingAtSnoc(hotkey, history, a, key, i);
    }
    if CompletedChord(hotkey, all, |history|, key) {
      assert OutstandingAt(hotkey, all, key, |history|);
    }
  }

  /** The swallowed set holds exactly the keys with an outstanding chord press. */
  lemma {:induction false} SwallowedIsOutstanding(
    hotkey: Option<Chord>, on0: bool, history: seq<Action>, key: Key)
    ensures key in After(hotkey, on0, history).swallowed <==> ChordSinceRelease(hotkey, history, key)
  {
    if history != [] {
      var init, last := history[..|history| - 1], history[|history| - 1];
      assert history == init + [last];
      SwallowedIsOutstanding(hotkey, on0, init, key);
      ActSwallowed(hotkey, After(hotkey, on0, init), last, key);
      ChordSinceReleaseSnoc(hotkey, init, last, key);
      PressedIsHeld(hotkey, on0, init);
      assert history[..|init| + 1] == history;
      if hotkey.Some? {
        ChordBits(hotkey.value, HeldAfter(init) + {key});
      }
    }
  }

  /**
   * A key's release is consumed as a hotkey artefact, forwarding on or off, exactly when some
   * press of that key since its previous release completed the chord. Otherwise it is forwarded
   * exactly when forwarding is on.
   */
  lemma ReleaseConsumedIff(hotkey: Option<Chord>, on0: bool, history: seq<Action>, i: nat, key: Key)
    requires i < |history| && IsRelease(history[i], key)
    ensures var o := OutcomeAt(hotkey, on0, history, i);
            var on := After(hotkey, on0, history[..i]).enabled;
            if ChordSinceRelease(hotkey, history[..i], key) then o.swallow && o.forward.None?
            else
              && o.swallow == on && o.forward.Some? == on
              && (on ==> o.forward.value.KeyRelease? && o.forward.value.code == KeyToCode(key)
                         && ModifiersTell(o.forward.value.modifiers, HeldAfter(history[..i + 1])))
  {
    var s := After(hotkey, on0, history[..i]);
    SwallowedIsOutstanding(hotkey, on0, history[..i], key);
    PressedIsHeld(hotkey, on0, history[..i]);
    assert history[..i + 1][..i] == history[..i];
    ModifiersAreHeld(s.pressed - {key});
  }

  /** Each bit of the mask says whether a modifier of its kind is held. */
  predicate ModifiersTell(mods: bv8, held: set<Key>) {
    && (mods & CTRL != 0 <==> ControlLeft in held || ControlRight in held)
    && (mods & ALT != 0 <==> Alt in held || AltGr in held)
    && (mods & SHIFT != 0 <==> ShiftLeft in held || ShiftRight in held)
    && (mods & META != 0 <==> MetaLeft in held || MetaRight in held)
    && mods < 16
  }

  lemma ModifiersAreHeld(held: set<Key>)
    ensures ModifiersTell(ComputeModifiers(held), held)
  {
  }

  /**
   * A key press is forwarded exactly when forwarding is on and it does not complete the chord,
   * with its code and a mask that tells the held modifiers; a completing press is swallowed.
   */
  lemma PressForwardedIff(hotkey: Option<Chord>, on0: bool, history: seq<Action>, i: nat, key: Key)
    requires i < |history| && IsPress(history[i], key)
    ensures var o := OutcomeAt(hotkey, on0, history, i);
            var on := After(hotkey, on0, history[..i]).enabled;
            && (o.forward.Some? <==> on && !CompletedChord(hotkey, history, i, key))
            && (o.swallow <==> on || CompletedChord(hotkey, history, i, key))
            && (o.forward.Some? ==>
                  o.forward.value.KeyPress? && o.forward.value.code == KeyToCode(key)
                  && ModifiersTell(o.forward.value.modifiers, HeldAfter(history[..i + 1])))
  {
    var s := After(hotkey, on0, history[..i]);
    PressedIsHeld(hotkey, on0, history[..i]);
    assert history[..i + 1][..i] == history[..i];
    ModifiersAreHeld(s.pressed + {key});
    if hotkey.Some? {
      ChordBits(hotkey.value, s.pressed + {key});
    }
  }

  // ----- debounce -----

  /** The instants at which the hotkey toggled forwarding, oldest first. */
  function FireTimes(hotkey: Option<Chord>, on0: bool, history: seq<Action>): seq<int> {
    if history == [] then []
    else
      var n := |history| - 1;
      FireTimes(hotkey, on0, history[..n])
      + (if OutcomeAt(hotkey, on0, history, n).toggled.Some? then [history[n].now] else [])
  }

  predicate Spaced(times: seq<int>) {
    forall i, j :: 0 <= i < |times| && j == i + 1 && j < |times| ==> times[j] - times[i] >= HOTKEY_DEBOUNCE
  }

  lemma SpacedSnoc(times: seq<int>, now: int)
    requires Spaced(times)
    requires times != [] ==> now - times[|times| - 1] >= HOTKEY_DEBOUNCE
    ensures Spaced(times + [now])
  {
  }

  /** The last action either fires at `now`, a debounce after the previous fire, or adds no fire. */
  ghost predicate FiresNext(before: seq<int>, previous: Option<int>, after: seq<int>, last: Option<int>) {
    || (after == before && last == previous)
    || exists now: int :: after == before + [now] && last == Some(now)
                          && (previous.Some? ==> now - previous.value >= HOTKEY_DEBOUNCE)
  }

  lemma ActionFires(hotkey: Option<Chord>, on0: bool, history: seq<Action>)
    requires history != []
    ensures var init := history[..|history| - 1];
            FiresNext(FireTimes(hotkey, on0, init), After(hotkey, on0, init).lastFire,
                      FireTimes(hotkey, on0, history), After(hotkey, on0, history).lastFire)
  {
    var n := |history| - 1;
    ActFire(hotkey, After(hotkey, on0, history[..n]), history[n]);
    var times := FireTimes(hotkey, on0, history[..n]);
    assert times + [] == times;
  }

  lemma {:induction false} FiresAreSpaced(hotkey: Option<Chord>, on0: bool, history: seq<Action>)
    ensures var times := FireTimes(hotkey, on0, history);
            && Spaced(times)
            && After(hotkey, on0, history).lastFire
               == if times == [] then None else Some(times[|times| - 1])
  {
    if history != [] {
      var init := history[..|history| - 1];
      FiresAreSpaced(hotkey, on0, init);
      ActionFires(hotkey, on0, history);
      var before, after := FireTimes(hotkey, on0, init), FireTimes(hotkey, on0, history);
      if after != before {
        var now: int :| after == before + [now]
                        && After(hotkey, on0, history).lastFire == Some(now)
                        && (After(hotkey, on0, init).lastFire.Some? ==>
                              now - After(hotkey, on0, init).lastFire.value >= HOTKEY_DEBOUNCE);
        SpacedSnoc(before, now);
      }
    }
  }

  lemma {:induction false} SpacedSpread(times: seq<int>, i: nat, j: nat)
    requires Spaced(times) && i <= j < |times|
    ensures times[j] - times[i] >= (j - i) * HOTKEY_DEBOUNCE
  {
    if i < j {
      SpacedSpread(times, i, j - 1);
      assert times[j] - times[j - 1] >= HOTKEY_DEBOUNCE;
    }
  }

  /** How many of `times` lie in the closed window from `start` to `start + length`. */
  function FiresIn(times: seq<int>, start: int, length: nat): nat {
    if times == [] then 0
    else
      var last := times[|times| - 1];
      FiresIn(times[..|times| - 1], start, length) + (if start <= last <= start + length then 1 else 0)
  }

  /** With `n` fires in a window, the last of them is at least `(n - 1) * 250ms` into it. */
  lemma {:induction false} FiresSpread(times: seq<int>, start: int, length: nat) returns (k: nat)
    requires Spaced(times) && FiresIn(times, start, length) > 0
    ensures k < |times| && start <= times[k] <= start + length
    ensures times[k] - start >= (FiresIn(times, start, length) - 1) * HOTKEY_DEBOUNCE
  {
    var n := |times| - 1;
    if FiresIn(times[..n], start, length) > 0 {
      k := FiresSpread(times[..n], start, length);
      SpacedSpread(times, k, n);
      if start <= times[n] <= start + length {
        k := n;
      }
    } else {
      k := n;
    }
  }

  /**
   * Debounce over whole runs: the toggles in any window of length `length` number at most
   * `length / 250ms + 1`, whatever the clock readings of the callbacks are.
   */
  lemma TogglesInWindow(hotkey: Option<Chord>, on0: bool, history: seq<Action>, start: int, length: nat)
    ensures FiresIn(FireTimes(hotkey, on0, history), start, length) <= length / HOTKEY_DEBOUNCE + 1
  {
    var times := FireTimes(hotkey, on0, history);
    FiresAreSpaced(hotkey, on0, history);
    if FiresIn(times, start, length) > 0 {
      var k := FiresSpread(times, start, length);
    }
  }

  // ----- when the hotkey fires -----

  /** The clock reading `now` is a debounce or more after the last toggle of the history, if there was one. */
  predicate Rested(hotkey: Option<Chord>, on0: bool, history: seq<Action>, now: int) {
    var times := FireTimes(hotkey, on0, history);
    times == [] || now - times[|times| - 1] >= 250_000_000
  }

  /** Action `i` is the first press of its key, completes the chord, and comes late enough after the last toggle. */
  ghost predicate FiresHotkey(hotkey: Option<Chord>, on0: bool, history: seq<Action>, i: nat)
    requires i < |history|
  {
    exists key :: CompletedChord(hotkey, history, i, key) && key !in HeldAfter(history[..i])
                  && Rested(hotkey, on0, history[..i], history[i].now)
  }

  lemma KeyDownToggles(hotkey: Option<Chord>, s: State, key: Key, now: int)
    ensures ProcessKeyDown(hotkey, s, key, now).1.toggled
            == if IsChordPress(hotkey, key, s.pressed + {key}) && key !in s.pressed
                  && (s.lastFire.Some? ==> now - s.lastFire.value >= 250_000_000)
               then Some(!s.enabled) else None
  {
  }

  lemma ActToggles(hotkey: Option<Chord>, s: State, a: Action)
    ensures Act(hotkey, s, a).1.toggled
            == if a.Os? && a.event.KeyDown? && IsChordPress(hotkey, a.event.key, s.pressed + {a.event.key})
                  && a.event.key !in s.pressed
                  && (s.lastFire.Some? ==> a.now - s.lastFire.value >= 250_000_000)
               then Some(!s.enabled) else None
  {
    if a.Os? && a.event.KeyDown? {
      KeyDownToggles(hotkey, Observe(s), a.event.key, a.now);
    }
  }

  /**
   * The hotkey fires exactly on the first press of its key that completes the chord, unless the
   * last toggle is less than a debounce ago, and then it turns the flag over.
   */
  lemma ToggleIff(hotkey: Option<Chord>, on0: bool, history: seq<Action>, i: nat)
    requires i < |history|
    ensures OutcomeAt(hotkey, on0, history, i).toggled
            == if FiresHotkey(hotkey, on0, history, i) then Some(!After(hotkey, on0, history[..i]).enabled)
               else None
  {
    var s, a := After(hotkey, on0, history[..i]), history[i];
    ActToggles(hotkey, s, a);
    PressedIsHeld(hotkey, on0, history[..i]);
    FiresAreSpaced(hotkey, on0, history[..i]);
    assert history[..i + 1][..i] == history[..i];
    if a.Os? && a.event.KeyDown? {
      var key := a.event.key;
      if hotkey.Some? {
        ChordBits(hotkey.value, s.pressed + {key});
      }
      assert CompletedChord(hotkey, history, i, key) <==> IsChordPress(hotkey, key, s.pressed + {key});
    }
  }

  /** The flag after a history: what the last toggle or store left, or else the initial one. */
  lemma FlagAfterAction(hotkey: Option<Chord>, on0: bool, history: seq<Action>)
    ensures After(hotkey, on0, history).enabled
            == if history == [] then on0
               else
                 var n := |history| - 1;
                 if history[n].SetEnabled? then history[n].on
                 else
                   var toggled := OutcomeAt(hotkey, on0, history, n).toggled;
                   if toggled.Some? then toggled.value else After(hotkey, on0, history[..n]).enabled
  {
    if history != [] && history[|history| - 1].Os? {
      ActGate(hotkey, After(hotkey, on0, history[..|history| - 1]), history[|history| - 1]);
    }
  }

  /** The flag as the last callback saw it or left it. */
  function FlagLastSeen(hotkey: Option<Chord>, on0: bool, history: seq<Action>): bool {
    if history == [] then on0
    else if history[|history| - 1].Os? then After(hotkey, on0, history).enabled
    else FlagLastSeen(hotkey, on0, history[..|history| - 1])
  }

  lemma ActWasEnabled(hotkey: Option<Chord>, s: State, a: Action)
    ensures var s' := Act(hotkey, s, a).0;
            s'.wasEnabled == if a.Os? then s'.enabled else s.wasEnabled
  {
  }

  /** So a store by another task is noticed by the next callback, and a toggle of its own is not taken for one. */
  lemma {:induction false} WasEnabledIsLastSeen(hotkey: Option<Chord>, on0: bool, history: seq<Action>)
    ensures After(hotkey, on0, history).wasEnabled == FlagLastSeen(hotkey, on0, history)
  {
    if history != [] {
      var n := |history| - 1;
      WasEnabledIsLastSeen(hotkey, on0, history[..n]);
      ActWasEnabled(hotkey, After(hotkey, on0, history[..n]), history[n]);
    }
  }

  /** Left and right modifiers of every kind are told apart on the wire. */
  lemma ModifierCodesDiffer(a: Key, b: Key)
    requires !a.Other? && !b.Other? && a != b
    ensures KeyToCode(a) != KeyToCode(b)
  {
  }

  // ----- buttons and the wheel -----

  /** Truncation to 32 bits gives the one number in range that is congruent. */
  lemma WrapMeaning(n: int)
    ensures -0x8000_0000 <= WrapI32(n) < 0x8000_0000 && (n - WrapI32(n)) % 0x1_0000_0000 == 0
    ensures -0x8000_0000 <= n < 0x8000_0000 ==> WrapI32(n) == n
  {
  }

  /** Buttons and the wheel are forwarded, and kept from the local machine, exactly while forwarding is on. */
  lemma PointerForwardedIff(hotkey: Option<Chord>, on0: bool, history: seq<Action>, i: nat)
    requires i < |history| && history[i].Os?
    requires var e := history[i].event; e.ButtonDown? || e.ButtonUp? || e.WheelMove?
    ensures var o, e := OutcomeAt(hotkey, on0, history, i), history[i].event;
            var on := After(hotkey, on0, history[..i]).enabled;
            && o.swallow == on && o.toggled.None? && (o.forward.Some? <==> on)
            && (on ==> match o.forward.value
                       case MouseButtonPress(b) => e.ButtonDown? && b == ConvertMouseButton(e.button)
                       case MouseButtonRelease(b) => e.ButtonUp? && b == ConvertMouseButton(e.button)
                       case Wheel(dx, dy) => e.WheelMove? && dx == WrapI32(e.deltaX) && dy == WrapI32(e.deltaY)
                       case _ => false)
  {
  }

  // ----- the seed rule -----

  predicate IsMove(a: Action) {
    a.Os? && a.event.MoveTo?
  }

  /** Callback `i` sees forwarding on after the previous one saw it off, or turns it on itself. */
  predicate TurnsOn(hotkey: Option<Chord>, on0: bool, history: seq<Action>, i: nat)
    requires i < |history|
  {
    var s := After(hotkey, on0, history[..i]);
    && history[i].Os?
    && ((s.enabled && !s.wasEnabled) || OutcomeAt(hotkey, on0, history, i).toggled == Some(true))
  }

  lemma {:induction false} SeedStays(hotkey: Option<Chord>, on0: bool, history: seq<Action>, i: nat, j: nat)
    requires i < j <= |history| && TurnsOn(hotkey, on0, history, i)
    requires forall m :: i <= m < j ==> !IsMove(history[m])
    ensures After(hotkey, on0, history[..j]).seedNext
  {
    var s := After(hotkey, on0, history[..j - 1]);
    assert history[..j][..j - 1] == history[..j - 1];
    assert After(hotkey, on0, history[..j]) == Act(hotkey, s, history[j - 1]).0;
    ActSeed(hotkey, s, history[j - 1]);
    if j > i + 1 {
      SeedStays(hotkey, on0, history, i, j - 1);
    }
  }

  /** The first mouse move at or after an observed off-to-on change never produces a delta. */
  lemma NoDeltaAfterTurnOn(hotkey: Option<Chord>, on0: bool, history: seq<Action>, i: nat, j: nat)
    requires i <= j < |history| && TurnsOn(hotkey, on0, history, i)
    requires IsMove(history[j]) && forall m :: i <= m < j ==> !IsMove(history[m])
    ensures OutcomeAt(hotkey, on0, history, j).forward.None?
  {
    ActSeed(hotkey, After(hotkey, on0, history[..j]), history[j]);
    if i < j {
      SeedStays(hotkey, on0, history, i, j);
    } else {
      ActMoveKeepsFlag(hotkey, After(hotkey, on0, history[..j]), history[j]);
    }
  }

  /** Nothing since position `i` has used up the seed: every move since was taken as a warp. */
  predicate SeedUnused(hotkey: Option<Chord>, on0: bool, history: seq<Action>, i: nat) {
    forall m :: i <= m < |history| && IsMove(history[m]) ==> After(hotkey, on0, history[..m]).warping
  }

  /** The next move will be a seed: nothing used one up since the start or since forwarding was seen turning on. */
  ghost predicate SeedDue(hotkey: Option<Chord>, on0: bool, history: seq<Action>) {
    || SeedUnused(hotkey, on0, history, 0)
    || exists i: nat :: i < |history| && TurnsOn(hotkey, on0, history, i) && SeedUnused(hotkey, on0, history, i)
  }

  lemma SeedUnusedSnoc(hotkey: Option<Chord>, on0: bool, history: seq<Action>, a: Action, i: nat)
    requires i <= |history|
    ensures SeedUnused(hotkey, on0, history + [a], i)
            <==> SeedUnused(hotkey, on0, history, i) && (IsMove(a) ==> After(hotkey, on0, history).warping)
  {
    var all := history + [a];
    assert all[..|history|] == history && all[|history|] == a;
    assert forall m :: 0 <= m < |history| ==> all[..m] == history[..m] && all[m] == history[m];
  }

  lemma TurnsOnSnoc(hotkey: Option<Chord>, on0: bool, history: seq<Action>, a: Action, i: nat)
    requires i < |history|
    ensures TurnsOn(hotkey, on0, history + [a], i) <==> TurnsOn(hotkey, on0, history, i)
  {
    assert (history + [a])[..i] == history[..i];
  }

  /** One action's effect on the seed. */
  lemma ActSeedIff(hotkey: Option<Chord>, s: State, a: Action)
    ensures var (s', o) := Act(hotkey, s, a);
            var turnsOn := a.Os? && ((s.enabled && !s.wasEnabled) || o.toggled == Some(true));
            s'.seedNext <==> (s.seedNext || turnsOn) && (IsMove(a) ==> s.warping)
  {
  }

  lemma SeedDueSnoc(hotkey: Option<Chord>, on0: bool, history: seq<Action>, a: Action)
    ensures SeedDue(hotkey, on0, history + [a])
            <==> (SeedDue(hotkey, on0, history) || TurnsOn(hotkey, on0, history + [a], |history|))
                 && (IsMove(a) ==> After(hotkey, on0, history).warping)
  {
    var all := history + [a];
    SeedUnusedSnoc(hotkey, on0, history, a, 0);
    SeedUnusedSnoc(hotkey, on0, history, a, |history|);
    if i: nat :| i < |all| && TurnsOn(hotkey, on0, all, i) && SeedUnused(hotkey, on0, all, i) {
      if i < |history| {
        SeedUnusedSnoc(hotkey, on0, history, a, i);
        TurnsOnSnoc(hotkey, on0, history, a, i);
      }
    }
    if i: nat :| i < |history| && TurnsOn(hotkey, on0, history, i) && SeedUnused(hotkey, on0, history, i) {
      SeedUnusedSnoc(hotkey, on0, history, a, i);
      TurnsOnSnoc(hotkey, on0, history, a, i);
    }
  }

  /** A seed is pending exactly when it is due, so no move is skipped as one without a reason. */
  lemma {:induction false} SeedIff(hotkey: Option<Chord>, on0: bool, history: seq<Action>)
    ensures After(hotkey, on0, history).seedNext <==> SeedDue(hotkey, on0, history)
  {
    if history == [] {
      assert SeedUnused(hotkey, on0, history, 0);
    } else {
      var init, last := history[..|history| - 1], history[|history| - 1];
      assert history == init + [last];
      SeedIff(hotkey, on0, init);
      ActSeedIff(hotkey, After(hotkey, on0, init), last);
      SeedDueSnoc(hotkey, on0, init, last);
    }
  }

  // ----- warping at the edge -----

  /** The point is within two pixels of a border of a display the cursor can be warped on. */
  predicate AtEdge(screen: Screen, x: real, y: real) {
    && screen.Display? && screen.width > 0 && screen.height > 0 && screen.warpWorks
    && (x <= 2.0 || y <= 2.0 || x >= screen.width as real - 3.0 || y >= screen.height as real - 3.0)
  }

  /** Move `i` is an ordinary one, neither warp nor seed, made at the edge while forwarding. */
  predicate WarpsAt(hotkey: Option<Chord>, on0: bool, history: seq<Action>, i: nat)
    requires i < |history|
  {
    var s := After(hotkey, on0, history[..i]);
    && IsMove(history[i]) && s.enabled && !s.warping && !Observe(s).seedNext
    && AtEdge(history[i].screen, history[i].event.x, history[i].event.y)
  }

  /** Move `i` warps, and no move came after it. */
  predicate WarpPending(hotkey: Option<Chord>, on0: bool, history: seq<Action>, i: nat) {
    i < |history| && WarpsAt(hotkey, on0, history, i) && forall m :: i < m < |history| ==> !IsMove(history[m])
  }

  lemma WarpPendingSnoc(hotkey: Option<Chord>, on0: bool, history: seq<Action>, a: Action, i: nat)
    requires i < |history|
    ensures WarpPending(hotkey, on0, history + [a], i) <==> WarpPending(hotkey, on0, history, i) && !IsMove(a)
  {
    var all := history + [a];
    assert all[..i] == history[..i] && all[|history|] == a;
    assert forall m :: 0 <= m < |history| ==> all[m] == history[m];
  }

  /** The cursor is being warped exactly when the last move was an ordinary one at the edge while forwarding. */
  lemma {:induction false} WarpingIff(hotkey: Option<Chord>, on0: bool, history: seq<Action>)
    ensures After(hotkey, on0, history).warping <==> exists i: nat :: WarpPending(hotkey, on0, history, i)
  {
    if history != [] {
      var n := |history| - 1;
      var init, last := history[..n], history[n];
      assert history == init + [last];
      WarpingIff(hotkey, on0, init);
      ActWarp(hotkey, After(hotkey, on0, init), last);
      assert WarpPending(hotkey, on0, history, n) <==> WarpsAt(hotkey, on0, history, n);
      if i: nat :| WarpPending(hotkey, on0, history, i) {
        if i < n {
          WarpPendingSnoc(hotkey, on0, init, last, i);
        }
      }
      if i: nat :| WarpPending(hotkey, on0, init, i) {
        WarpPendingSnoc(hotkey, on0, init, last, i);
      }
    }
  }

  lemma ActWarp(hotkey: Option<Chord>, s: State, a: Action)
    ensures Act(hotkey, s, a).0.warping
            == if IsMove(a) then
                 s.enabled && !s.warping && !Observe(s).seedNext && AtEdge(a.screen, a.event.x, a.event.y)
               else s.warping
  {
  }

  /** Where the last move of the history went, or the origin. */
  function LastPoint(history: seq<Action>): (real, real) {
    if history == [] then (0.0, 0.0)
    else
      var last := history[|history| - 1];
      if IsMove(last) then (last.event.x, last.event.y) else LastPoint(history[..|history| - 1])
  }

  lemma {:induction false} LastIsLastPoint(hotkey: Option<Chord>, on0: bool, history: seq<Action>)
    ensures var s := After(hotkey, on0, history); (s.lastX, s.lastY) == LastPoint(history)
  {
    if history != [] {
      var n := |history| - 1;
      LastIsLastPoint(hotkey, on0, history[..n]);
      ActLast(hotkey, After(hotkey, on0, history[..n]), history[n], X);
      ActLast(hotkey, After(hotkey, on0, history[..n]), history[n], Y);
    }
  }

  /**
   * A move yields the truncated displacement from the last move of the history exactly when
   * forwarding is on, it is taken neither as a warp nor as a seed, and the displacement is not zero;
   * it is never kept from the local machine.
   */
  lemma MoveForwardedIff(hotkey: Option<Chord>, on0: bool, history: seq<Action>, i: nat)
    requires i < |history| && IsMove(history[i])
    ensures var s, o := After(hotkey, on0, history[..i]), OutcomeAt(hotkey, on0, history, i);
            var (x, y) := LastPoint(history[..i]);
            var dx, dy := TruncI32(history[i].event.x - x), TruncI32(history[i].event.y - y);
            var skipped := s.warping || SeedDue(hotkey, on0, history[..i]) || TurnsOn(hotkey, on0, history, i);
            && o.forward == (if s.enabled && !skipped && (dx != 0 || dy != 0) then Some(MouseDelta(dx, dy)) else None)
            && !o.swallow && o.toggled.None?
  {
    LastIsLastPoint(hotkey, on0, history[..i]);
    SeedIff(hotkey, on0, history[..i]);
    ActMoveKeepsFlag(hotkey, After(hotkey, on0, history[..i]), history[i]);
  }

  // ----- motion is conserved -----

  datatype Axis = X | Y

  function LastOn(s: State, axis: Axis): real {
    if axis.X? then s.lastX else s.lastY
  }

  function CoordOn(a: Action, axis: Axis): real
    requires IsMove(a)
  {
    if axis.X? then a.event.x else a.event.y
  }

  /** The forwarded delta on one axis, zero when no delta left the capture. */
  function DeltaOn(o: Outcome, axis: Axis): int {
    if o.forward.Some? && o.forward.value.MouseDelta?
    then if axis.X? then o.forward.value.dx else o.forward.value.dy
    else 0
  }

  /** Where the displacement of a run went, on one axis. */
  datatype Motion = Motion(
    forwarded: int, skippedWarp: real, skippedSeed: real, whileOff: real, rounding: real, forwardedMoves: nat)

  function Total(m: Motion): real {
    m.forwarded as real + m.skippedWarp + m.skippedSeed + m.whileOff + m.rounding
  }

  /** Books one action: what the outcome forwarded, and why the rest was not forwarded. */
  function Book(m: Motion, s: State, a: Action, o: Outcome, axis: Axis): Motion {
    if !IsMove(a) then m.(forwarded := m.forwarded + DeltaOn(o, axis))
    else
      var d := CoordOn(a, axis) - LastOn(s, axis);
      if s.warping then m.(skippedWarp := m.skippedWarp + d, forwarded := m.forwarded + DeltaOn(o, axis))
      else if Observe(s).seedNext then
        m.(skippedSeed := m.skippedSeed + d, forwarded := m.forwarded + DeltaOn(o, axis))
      else if !s.enabled then m.(whileOff := m.whileOff + d, forwarded := m.forwarded + DeltaOn(o, axis))
      else m.(forwarded := m.forwarded + DeltaOn(o, axis),
              rounding := m.rounding + (d - DeltaOn(o, axis) as real),
              forwardedMoves := m.forwardedMoves + 1)
  }

  function MotionOf(hotkey: Option<Chord>, on0: bool, history: seq<Action>, axis: Axis): Motion {
    if history == [] then Motion(0, 0.0, 0.0, 0.0, 0.0, 0)
    else
      var n := |history| - 1;
      var s := After(hotkey, on0, history[..n]);
      Book(MotionOf(hotkey, on0, history[..n], axis), s, history[n],
           OutcomeAt(hotkey, on0, history, n), axis)
  }

  /** One action moves the tracked position by exactly what it books. */
  lemma BookBalances(hotkey: Option<Chord>, s: State, a: Action, m: Motion, axis: Axis)
    ensures var (s', o) := Act(hotkey, s, a);
            Total(Book(m, s, a, o, axis)) - Total(m) == LastOn(s', axis) - LastOn(s, axis)
  {
    if IsMove(a) {
      MoveBalances(hotkey, s, a, m, axis);
    } else {
      var (s', o) := Act(hotkey, s, a);
      assert DeltaOn(o, axis) == 0;
    }
  }

  lemma MoveBalances(hotkey: Option<Chord>, s: State, a: Action, m: Motion, axis: Axis)
    requires IsMove(a)
    ensures var (s', o) := Act(hotkey, s, a);
            Total(Book(m, s, a, o, axis)) - Total(m) == LastOn(s', axis) - LastOn(s, axis)
  {
    var (s', o) := Act(hotkey, s, a);
    assert LastOn(s', axis) == CoordOn(a, axis);
  }

  /**
   * Conservation: over any run, on either axis, the forwarded deltas, the displacements skipped
   * as warp, skipped as seed or moved while off, and the rounding add up to the final position.
   */
  lemma {:induction false} MotionConserved(
    hotkey: Option<Chord>, on0: bool, history: seq<Action>, axis: Axis)
    ensures Total(MotionOf(hotkey, on0, history, axis)) == LastOn(After(hotkey, on0, history), axis)
  {
    if history != [] {
      var n := |history| - 1;
      MotionConserved(hotkey, on0, history[..n], axis);
      BookBalances(hotkey, After(hotkey, on0, history[..n]), history[n],
                   MotionOf(hotkey, on0, history[..n], axis), axis);
    }
  }

  /** A displacement whose whole part fits a 32-bit integer. */
  predicate FitsI32(d: real) {
    -2147483649.0 < d < 2147483648.0
  }

  predicate IsInteger(r: real) {
    r == r.Floor as real
  }

  lemma IntegerNegation(r: real)
    ensures IsInteger(r) <==> IsInteger(-r)
  {
    if IsInteger(r) {
      IntegerNegationOneWay(r);
    }
    if IsInteger(-r) {
      IntegerNegationOneWay(-r);
      assert -(-r) == r;
    }
  }

  lemma IntegerNegationOneWay(r: real)
    requires IsInteger(r)
    ensures IsInteger(-r)
  {
    var n := -r.Floor;
    assert -r == n as real;
  }

  /** Truncation of a non-negative displacement. */
  lemma TruncLossUp(d: real)
    requires d >= 0.0
    ensures d < 2147483648.0 ==> TruncI32(d) == d.Floor && 0.0 <= d - TruncI32(d) as real < 1.0
    ensures d >= 2147483648.0 ==> TruncI32(d) == 0x7fff_ffff && d - TruncI32(d) as real >= 1.0
  {
  }

  lemma TruncLossDown(d: real)
    requires d < 0.0
    ensures d > -2147483649.0 ==> TruncI32(d) == -(-d).Floor && -1.0 < d - TruncI32(d) as real <= 0.0
    ensures d <= -2147483649.0 ==> TruncI32(d) == -0x8000_0000 && d - TruncI32(d) as real <= -1.0
  {
  }

  /** Truncation loses less than one pixel exactly in range, and nothing exactly on integers in range. */
  lemma TruncLoss(d: real)
    ensures FitsI32(d) <==> -1.0 < d - TruncI32(d) as real < 1.0
    ensures TruncI32(d) as real == d <==> FitsI32(d) && IsInteger(d)
  {
    if d >= 0.0 {
      TruncLossUp(d);
    } else {
      TruncLossDown(d);
      IntegerNegation(d);
    }
  }

  /** What one forwarded move loses is what truncating its displacement loses. */
  lemma BookRounding(hotkey: Option<Chord>, s: State, a: Action, m: Motion, axis: Axis)
    ensures var b := Book(m, s, a, Act(hotkey, s, a).1, axis);
            if b.forwardedMoves == m.forwardedMoves then b.rounding == m.rounding
            else IsMove(a) && b.forwardedMoves == m.forwardedMoves + 1
                 && var d := CoordOn(a, axis) - LastOn(s, axis);
                    b.rounding == m.rounding + (d - TruncI32(d) as real)
  {
  }

  /** Every move of the history is at most a 32-bit displacement away from the previous one. */
  ghost predicate MovesFit(hotkey: Option<Chord>, on0: bool, history: seq<Action>, axis: Axis) {
    forall i :: 0 <= i < |history| && IsMove(history[i]) ==>
                  FitsI32(CoordOn(history[i], axis) - LastOn(After(hotkey, on0, history[..i]), axis))
  }

  ghost predicate IntegerMoves(history: seq<Action>, axis: Axis) {
    forall i :: 0 <= i < |history| && IsMove(history[i]) ==> IsInteger(CoordOn(history[i], axis))
  }

  lemma MovesFitPrefix(hotkey: Option<Chord>, on0: bool, history: seq<Action>, axis: Axis)
    requires history != [] && MovesFit(hotkey, on0, history, axis)
    ensures MovesFit(hotkey, on0, history[..|history| - 1], axis)
  {
    var init := history[..|history| - 1];
    forall i | 0 <= i < |init| && IsMove(init[i])
      ensures FitsI32(CoordOn(init[i], axis) - LastOn(After(hotkey, on0, init[..i]), axis))
    {
      assert init[..i] == history[..i];
    }
  }

  /** The accumulated rounding stays below one pixel per forwarded move. */
  lemma {:induction false} RoundingBound(hotkey: Option<Chord>, on0: bool, history: seq<Action>, axis: Axis)
    requires MovesFit(hotkey, on0, history, axis)
    ensures var m := MotionOf(hotkey, on0, history, axis);
            if m.forwardedMoves == 0 then m.rounding == 0.0
            else -(m.forwardedMoves as real) < m.rounding < m.forwardedMoves as real
  {
    if history != [] {
      var n := |history| - 1;
      MovesFitPrefix(hotkey, on0, history, axis);
      RoundingBound(hotkey, on0, history[..n], axis);
      var s := After(hotkey, on0, history[..n]);
      BookRounding(hotkey, s, history[n], MotionOf(hotkey, on0, history[..n], axis), axis);
      if IsMove(history[n]) {
        TruncLoss(CoordOn(history[n], axis) - LastOn(s, axis));
      }
    }
  }

  /** The tracked position changes only at moves, to the move's own coordinate. */
  lemma ActLast(hotkey: Option<Chord>, s: State, a: Action, axis: Axis)
    ensures LastOn(Act(hotkey, s, a).0, axis) == if IsMove(a) then CoordOn(a, axis) else LastOn(s, axis)
  {
  }

  /** On integer coordinates nothing is lost to rounding. */
  lemma {:induction false} IntegerMotionExact(
    hotkey: Option<Chord>, on0: bool, history: seq<Action>, axis: Axis)
    requires MovesFit(hotkey, on0, history, axis) && IntegerMoves(history, axis)
    ensures MotionOf(hotkey, on0, history, axis).rounding == 0.0
    ensures IsInteger(LastOn(After(hotkey, on0, history), axis))
  {
    if history != [] {
      var n := |history| - 1;
      MovesFitPrefix(hotkey, on0, history, axis);
      IntegerMotionExact(hotkey, on0, history[..n], axis);
      var s := After(hotkey, on0, history[..n]);
      BookRounding(hotkey, s, history[n], MotionOf(hotkey, on0, history[..n], axis), axis);
      ActLast(hotkey, s, history[n], axis);
      if IsMove(history[n]) {
        var x, y := CoordOn(history[n], axis), LastOn(s, axis);
        assert x - y == (x.Floor - y.Floor) as real;
        TruncLoss(x - y);
      }
    }
  }

  // ----- the callback's state -----

  /** `CaptureState`, updated in place by every callback. */
  class CaptureState {
    const hotkey: Option<Chord>
    var enabled: bool
    var wasEnabled: bool
    var lastX: real
    var lastY: real
    var pressed: set<Key>
    var warping: bool
    var seedNext: bool
    var lastFire: Option<int>
    var swallowed: set<Key>

    ghost function View(): State
      reads this
    {
      State(enabled, wasEnabled, lastX, lastY, pressed, warping, seedNext, lastFire, swallowed)
    }

    constructor (enabled0: bool, hk: Option<Chord>)
      ensures View() == InitialState(enabled0) && hotkey == hk
    {
      hotkey := hk;
      enabled, wasEnabled, lastX, lastY := enabled0, enabled0, 0.0, 0.0;
      pressed, swallowed := {}, {};
      warping, seedNext, lastFire := false, true, None;
    }

    method ProcessEvent(e: OsEvent, now: int, screen: Screen) returns (outcome: Outcome)
      modifies this
      ensures (View(), outcome) == Process(hotkey, old(View()), e, now, screen)
    {
      var nowEnabled := enabled;
      if nowEnabled && !wasEnabled {
        seedNext := true;
      }
      wasEnabled := nowEnabled;
      outcome := Nothing;
      match e
      case KeyDown(key) =>
        var isRepeat := key in pressed;
        pressed := pressed + {key};
        var mods := ComputeModifiers(pressed);
        if hotkey.Some? && key == hotkey.value.key && ChordSatisfied(hotkey.value, mods) {
          outcome := outcome.(swallow := true);
          swallowed := swallowed + {key};
          if !isRepeat {
            var toggled := TryFireHotkey(nowEnabled, now);
            outcome := outcome.(toggled := toggled);
          }
        } else if nowEnabled {
          outcome := Outcome(true, Some(KeyPress(KeyToCode(key), mods)), None);
        }
      case KeyUp(key) =>
        pressed := pressed - {key};
        if key in swallowed {
          swallowed := swallowed - {key};
          outcome := outcome.(swallow := true);
        } else if nowEnabled {
          outcome := Outcome(true, Some(KeyRelease(KeyToCode(key), ComputeModifiers(pressed))), None);
        }
      case ButtonDown(b) =>
        if nowEnabled {
          outcome := Outcome(true, Some(MouseButtonPress(ConvertMouseButton(b))), None);
        }
      case ButtonUp(b) =>
        if nowEnabled {
          outcome := Outcome(true, Some(MouseButtonRelease(ConvertMouseButton(b))), None);
        }
      case WheelMove(dx, dy) =>
        if nowEnabled {
          outcome := Outcome(true, Some(Wheel(WrapI32(dx), WrapI32(dy))), None);
        }
      case MoveTo(x, y) =>
        var forward := ProcessMouseMove(x, y, nowEnabled, screen);
        outcome := outcome.(forward := forward);
    }

    method TryFireHotkey(nowEnabled: bool, now: int) returns (toggled: Option<bool>)
      requires nowEnabled == enabled
      modifies this
      ensures (View(), toggled) == TryFire(old(View()), now)
    {
      if lastFire.Some? && now - lastFire.value < HOTKEY_DEBOUNCE {
        return None;
      }
      lastFire := Some(now);
      enabled := !nowEnabled;
      wasEnabled := enabled;
      if enabled {
        seedNext := true;
      }
      return Some(enabled);
    }

    method ProcessMouseMove(x: real, y: real, nowEnabled: bool, screen: Screen) returns (forward: Option<Event>)
      requires nowEnabled == enabled
      modifies this
      ensures (View(), forward) == ProcessMove(old(View()), x, y, screen)
    {
      if warping {
        warping := false;
        lastX, lastY := x, y;
        return None;
      }
      if seedNext {
        seedNext := false;
        lastX, lastY := x, y;
        return None;
      }
      var dx, dy := TruncI32(x - lastX), TruncI32(y - lastY);
      lastX, lastY := x, y;
      if nowEnabled && screen.Display? && screen.width > 0 && screen.height > 0 {
        if NearEdge(screen, x, y) && screen.warpWorks {
          warping := true;
        }
      }
      if nowEnabled && (dx != 0 || dy != 0) {
        return Some(MouseDelta(dx, dy));
      }
      return None;
    }
  }
}
