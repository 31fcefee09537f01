/**
 * The client's input injector (`client/src/inject.rs`): what it emits, and that what it
 * remembers as held is exactly what its own presses and releases leave down.
 *
 * The key table is a parameter: any partial, many-to-one map from codes to keys.
 */
module Injector {
  import opened Base
  import opened Protocol

  /** Something that can be held down. */
  datatype Item = KeyItem(key: nat) | ButtonItem(button: MouseButton)

  /** One call into the operating system's input layer. */
  datatype Call =
    | Press(item: Item)
    | Release(item: Item)
    | MoveBy(dx: int, dy: int)
    | ScrollVertical(length: int)
    | ScrollHorizontal(length: int)

  type KeyMap = nat -> Option<nat>

  datatype State = State(heldKeys: seq<Item>, heldButtons: seq<Item>, calls: seq<Call>)

  const Idle := State([], [], [])

  // ----- what the calls leave down -----

  /** Call `i` pressed `item` and no later call released it. */
  predicate HoldsSince(calls: seq<Call>, item: Item, i: nat) {
    && i < |calls| && calls[i] == Press(item)
    && forall j :: i < j < |calls| ==> calls[j] != Release(item)
  }

  predicate IsDown(calls: seq<Call>, item: Item) {
    exists i: nat :: i < |calls| && HoldsSince(calls, item, i)
  }

  /** The press that put `item` down: the earliest one not released since. */
  function DownSince(calls: seq<Call>, item: Item): Option<nat> {
    if calls == [] then None
    else
      var n := |calls| - 1;
      var before := DownSince(calls[..n], item);
      if calls[n] == Release(item) then None
      else if calls[n] == Press(item) && before.None? then Some(n)
      else before
  }

  lemma {:induction false} DownSinceMeaning(calls: seq<Call>, item: Item)
    ensures DownSince(calls, item).Some? <==> IsDown(calls, item)
    ensures DownSince(calls, item).Some? ==>
              var i := DownSince(calls, item).value;
              HoldsSince(calls, item, i) && forall j: nat :: j < i ==> !HoldsSince(calls, item, j)
  {
    if calls != [] {
      var n := |calls| - 1;
      var init := calls[..n];
      DownSinceMeaning(init, item);
      assert forall i: nat :: i < n ==>
               (HoldsSince(calls, item, i) <==> HoldsSince(init, item, i) && calls[n] != Release(item));
      assert HoldsSince(calls, item, n) <==> calls[n] == Press(item);
      if IsDown(init, item) && calls[n] != Release(item) {
        var i: nat :| i < |init| && HoldsSince(init, item, i);
        assert HoldsSince(calls, item, i);
      }
    }
  }

  // ----- the held lists -----

  function Remove(held: seq<Item>, item: Item): seq<Item> {
    if held == [] then []
    else
      var n := |held| - 1;
      Remove(held[..n], item) + (if held[n] == item then [] else [held[n]])
  }

  function Add(held: seq<Item>, item: Item): seq<Item> {
    if item in held then held else held + [item]
  }

  function Reverse(s: seq<Item>): seq<Item> {
    if s == [] then [] else [s[|s| - 1]] + Reverse(s[..|s| - 1])
  }

  function Releases(items: seq<Item>): seq<Call> {
    seq(|items|, i requires 0 <= i < |items| => Release(items[i]))
  }

  /** `release_all`: keys, then buttons, each list from the last pressed to the first. */
  function ReleaseEverything(s: State): State {
    State([], [], s.calls + Releases(Reverse(s.heldKeys)) + Releases(Reverse(s.heldButtons)))
  }

  function PressItem(s: State, item: Item): State {
    if item.KeyItem? then s.(heldKeys := Add(s.heldKeys, item), calls := s.calls + [Press(item)])
    else s.(heldButtons := Add(s.heldButtons, item), calls := s.calls + [Press(item)])
  }

  function ReleaseItem(s: State, item: Item): State {
    if item.KeyItem? then s.(heldKeys := Remove(s.heldKeys, item), calls := s.calls + [Release(item)])
    else s.(heldButtons := Remove(s.heldButtons, item), calls := s.calls + [Release(item)])
  }

  function Scrolls(deltaX: int, deltaY: int): seq<Call> {
    (if deltaY != 0 then [ScrollVertical(-deltaY)] else [])
    + (if deltaX != 0 then [ScrollHorizontal(deltaX)] else [])
  }

  function Inject(codeToKey: KeyMap, s: State, e: Event): State {
    match e
    case MouseDelta(dx, dy) => s.(calls := s.calls + [MoveBy(dx, dy)])
    case MouseButtonPress(b) => PressItem(s, ButtonItem(b))
    case MouseButtonRelease(b) => ReleaseItem(s, ButtonItem(b))
    case Wheel(dx, dy) => s.(calls := s.calls + Scrolls(dx, dy))
    case KeyPress(code, _) =>
      (match codeToKey(code) case Some(key) => PressItem(s, KeyItem(key)) case None => s)
    case KeyRelease(code, _) =>
      (match codeToKey(code) case Some(key) => ReleaseItem(s, KeyItem(key)) case None => s)
    case ReleaseAll => ReleaseEverything(s)
  }

  function InjectAll(codeToKey: KeyMap, events: seq<Event>): State {
    if events == [] then Idle
    else Inject(codeToKey, InjectAll(codeToKey, events[..|events| - 1]), events[|events| - 1])
  }

  // ----- invariant -----

  /** A list holds exactly the items of its kind that are down, once each, in press order. */
  ghost predicate ListOk(held: seq<Item>, calls: seq<Call>, keys: bool) {
    Members(held, calls, keys) && Ordered(held, calls)
  }

  ghost predicate Members(held: seq<Item>, calls: seq<Call>, keys: bool) {
    forall item :: item in held <==> item.KeyItem? == keys && DownSince(calls, item).Some?
  }

  ghost predicate Ordered(held: seq<Item>, calls: seq<Call>) {
    && (forall i :: 0 <= i < |held| ==> DownSince(calls, held[i]).Some?)
    && (forall i, j :: 0 <= i < j < |held| ==>
          DownSince(calls, held[i]).value < DownSince(calls, held[j]).value)
  }

  ghost predicate Inv(s: State) {
    ListOk(s.heldKeys, s.calls, true) && ListOk(s.heldButtons, s.calls, false)
  }

  lemma DownSinceSnoc(calls: seq<Call>, call: Call, item: Item)
    ensures DownSince(calls + [call], item)
            == if call == Release(item) then None
               else if call == Press(item) && DownSince(calls, item).None? then Some(|calls|)
               else DownSince(calls, item)
  {
    assert (calls + [call])[..|calls|] == calls;
  }

  lemma {:induction false} DownSinceBelow(calls: seq<Call>, item: Item)
    ensures DownSince(calls, item).Some? ==> DownSince(calls, item).value < |calls|
  {
    if calls != [] {
      DownSinceBelow(calls[..|calls| - 1], item);
    }
  }

  lemma {:induction false} RemoveMembers(held: seq<Item>, item: Item, x: Item)
    ensures x in Remove(held, item) <==> x in held && x != item
  {
    if held != [] {
      var n := |held| - 1;
      RemoveMembers(held[..n], item, x);
      assert x in held <==> x in held[..n] || x == held[n];
    }
  }

  /** Removing an item keeps the others in order. */
  lemma {:induction false} RemoveOrdered(held: seq<Item>, item: Item, calls: seq<Call>)
    requires Ordered(held, calls)
    ensures Ordered(Remove(held, item), calls)
  {
    if held != [] {
      var n := |held| - 1;
      RemoveOrdered(held[..n], item, calls);
      var r := Remove(held[..n], item);
      forall i | 0 <= i < |r|
        ensures DownSince(calls, r[i]).value < DownSince(calls, held[n]).value
      {
        assert r[i] in r;
        RemoveMembers(held[..n], item, r[i]);
        var k :| 0 <= k < n && held[..n][k] == r[i];
        assert held[k] == r[i];
      }
    }
  }

  /** Order depends only on when the listed items went down. */
  lemma OrderedFrame(held: seq<Item>, calls: seq<Call>, calls': seq<Call>)
    requires Ordered(held, calls)
    requires forall i :: 0 <= i < |held| ==> DownSince(calls', held[i]) == DownSince(calls, held[i])
    ensures Ordered(held, calls')
  {
  }

  lemma PressKeepsList(held: seq<Item>, calls: seq<Call>, keys: bool, item: Item)
    requires ListOk(held, calls, keys)
    ensures ListOk(if item.KeyItem? == keys then Add(held, item) else held, calls + [Press(item)], keys)
  {
    forall x
      ensures DownSince(calls + [Press(item)], x)
              == if x == item && DownSince(calls, x).None? then Some(|calls|) else DownSince(calls, x)
      ensures DownSince(calls, x).Some? ==> DownSince(calls, x).value < |calls|
    {
      DownSinceSnoc(calls, Press(item), x);
      DownSinceBelow(calls, x);
    }
  }

  lemma ReleaseKeepsMembers(held: seq<Item>, calls: seq<Call>, keys: bool, item: Item, r: seq<Item>)
    requires Members(held, calls, keys)
    requires r == if item.KeyItem? == keys then Remove(held, item) else held
    ensures Members(r, calls + [Release(item)], keys)
  {
    forall x
      ensures x in r <==> x.KeyItem? == keys && DownSince(calls + [Release(item)], x).Some?
    {
      DownSinceSnoc(calls, Release(item), x);
      RemoveMembers(held, item, x);
    }
  }

  lemma ReleaseKeepsOrdered(held: seq<Item>, calls: seq<Call>, keys: bool, item: Item, r: seq<Item>)
    requires ListOk(held, calls, keys)
    requires r == if item.KeyItem? == keys then Remove(held, item) else held
    ensures Ordered(r, calls + [Release(item)])
  {
    RemoveOrdered(held, item, calls);
    forall i | 0 <= i < |r|
      ensures DownSince(calls + [Release(item)], r[i]) == DownSince(calls, r[i])
    {
      assert r[i] in r;
      RemoveMembers(held, item, r[i]);
      DownSinceSnoc(calls, Release(item), r[i]);
    }
    OrderedFrame(r, calls, calls + [Release(item)]);
  }

  lemma ReleaseKeepsList(held: seq<Item>, calls: seq<Call>, keys: bool, item: Item)
    requires ListOk(held, calls, keys)
    ensures ListOk(if item.KeyItem? == keys then Remove(held, item) else held, calls + [Release(item)], keys)
  {
    var r := if item.KeyItem? == keys then Remove(held, item) else held;
    ReleaseKeepsMembers(held, calls, keys, item, r);
    ReleaseKeepsOrdered(held, calls, keys, item, r);
  }

  lemma NeutralKeepsList(held: seq<Item>, calls: seq<Call>, keys: bool, call: Call)
    requires ListOk(held, calls, keys) && !call.Press? && !call.Release?
    ensures ListOk(held, calls + [call], keys)
  {
    forall x
      ensures DownSince(calls + [call], x) == DownSince(calls, x)
    {
      DownSinceSnoc(calls, call, x);
    }
  }

  lemma {:induction false} ReverseAt(s: seq<Item>, i: nat)
    requires i < |s|
    ensures |Reverse(s)| == |s| && Reverse(s)[i] == s[|s| - 1 - i]
  {
    var init := s[..|s| - 1];
    if init != [] {
      ReverseAt(init, if i > 0 then i - 1 else 0);
    }
  }

  lemma ReverseMembers(s: seq<Item>)
    ensures |Reverse(s)| == |s|
    ensures forall i :: 0 <= i < |s| ==> Reverse(s)[i] == s[|s| - 1 - i]
  {
    if s != [] {
      ReverseAt(s, 0);
    }
    forall i | 0 <= i < |s|
      ensures Reverse(s)[i] == s[|s| - 1 - i]
    {
      ReverseAt(s, i);
    }
  }

  /** Releasing a list of items puts exactly those items up. */
  lemma {:induction false} ReleasesPutUp(calls: seq<Call>, items: seq<Item>, x: Item)
    ensures DownSince(calls + Releases(items), x) == if x in items then None else DownSince(calls, x)
  {
    if items == [] {
      assert calls + Releases(items) == calls;
    } else {
      var n := |items| - 1;
      ReleasesPutUp(calls, items[..n], x);
      assert calls + Releases(items) == (calls + Releases(items[..n])) + [Release(items[n])];
      DownSinceSnoc(calls + Releases(items[..n]), Release(items[n]), x);
      assert x in items <==> x in items[..n] || x == items[n];
    }
  }

  lemma {:induction false} ReverseSame(s: seq<Item>, x: Item)
    ensures x in Reverse(s) <==> x in s
  {
    if s != [] {
      ReverseSame(s[..|s| - 1], x);
      assert x in s <==> x in s[..|s| - 1] || x == s[|s| - 1];
    }
  }

  /** `release_all` leaves nothing down. */
  lemma ReleaseEverythingClears(s: State)
    requires Inv(s)
    ensures Inv(ReleaseEverything(s))
    ensures forall x :: !IsDown(ReleaseEverything(s).calls, x)
  {
    var s' := ReleaseEverything(s);
    forall x
      ensures DownSince(s'.calls, x).None? && !IsDown(s'.calls, x)
    {
      var mid := s.calls + Releases(Reverse(s.heldKeys));
      ReleasesPutUp(s.calls, Reverse(s.heldKeys), x);
      ReleasesPutUp(mid, Reverse(s.heldButtons), x);
      ReverseSame(s.heldKeys, x);
      ReverseSame(s.heldButtons, x);
      DownSinceMeaning(s'.calls, x);
    }
  }

  lemma ScrollsKeepInv(s: State, dx: int, dy: int)
    requires Inv(s)
    ensures Inv(s.(calls := s.calls + Scrolls(dx, dy)))
  {
    var s1 := if dy != 0 then s.(calls := s.calls + [ScrollVertical(-dy)]) else s;
    if dy != 0 {
      NeutralKeepsInv(s, ScrollVertical(-dy));
    }
    if dx != 0 {
      NeutralKeepsInv(s1, ScrollHorizontal(dx));
      assert s.calls + Scrolls(dx, dy) == s1.calls + [ScrollHorizontal(dx)];
    } else {
      assert s.calls + Scrolls(dx, dy) == s1.calls;
    }
  }

  lemma InjectKeepsInv(codeToKey: KeyMap, s: State, e: Event)
    requires Inv(s)
    ensures Inv(Inject(codeToKey, s, e))
  {
    match e
    case MouseDelta(dx, dy) => NeutralKeepsInv(s, MoveBy(dx, dy));
    case MouseButtonPress(b) => PressKeepsInv(s, ButtonItem(b));
    case MouseButtonRelease(b) => ReleaseKeepsInv(s, ButtonItem(b));
    case Wheel(dx, dy) => ScrollsKeepInv(s, dx, dy);
    case KeyPress(code, _) =>
      if codeToKey(code).Some? {
        PressKeepsInv(s, KeyItem(codeToKey(code).value));
      }
    case KeyRelease(code, _) =>
      if codeToKey(code).Some? {
        ReleaseKeepsInv(s, KeyItem(codeToKey(code).value));
      }
    case ReleaseAll => ReleaseEverythingClears(s);
  }

  lemma NeutralKeepsInv(s: State, call: Call)
    requires Inv(s) && !call.Press? && !call.Release?
    ensures Inv(s.(calls := s.calls + [call]))
  {
    NeutralKeepsList(s.heldKeys, s.calls, true, call);
    NeutralKeepsList(s.heldButtons, s.calls, false, call);
  }

  lemma PressKeepsInv(s: State, item: Item)
    requires Inv(s)
    ensures Inv(PressItem(s, item))
  {
    PressKeepsList(s.heldKeys, s.calls, true, item);
    PressKeepsList(s.heldButtons, s.calls, false, item);
  }

  lemma ReleaseKeepsInv(s: State, item: Item)
    requires Inv(s)
    ensures Inv(ReleaseItem(s, item))
  {
    ReleaseKeepsList(s.heldKeys, s.calls, true, item);
    ReleaseKeepsList(s.heldButtons, s.calls, false, item);
  }

  /** For every key table and every event sequence the invariant holds. */
  lemma {:induction false} InjectAllKeepsInv(codeToKey: KeyMap, events: seq<Event>)
    ensures Inv(InjectAll(codeToKey, events))
  {
    if events != [] {
      InjectAllKeepsInv(codeToKey, events[..|events| - 1]);
      InjectKeepsInv(codeToKey, InjectAll(codeToKey, events[..|events| - 1]), events[|events| - 1]);
    }
  }

  /**
   * For every event sequence the held lists are duplicate-free and hold exactly the keys and
   * buttons that the emitted presses and releases leave down, though several codes share a key.
   */
  lemma HeldIsDown(codeToKey: KeyMap, events: seq<Event>)
    ensures var s := InjectAll(codeToKey, events);
            && (forall x :: x in s.heldKeys + s.heldButtons <==> IsDown(s.calls, x))
            && (forall i, j :: 0 <= i < j < |s.heldKeys| ==> s.heldKeys[i] != s.heldKeys[j])
            && (forall i, j :: 0 <= i < j < |s.heldButtons| ==> s.heldButtons[i] != s.heldButtons[j])
  {
    var s := InjectAll(codeToKey, events);
    InjectAllKeepsInv(codeToKey, events);
    forall x
      ensures x in s.heldKeys + s.heldButtons <==> IsDown(s.calls, x)
    {
      DownSinceMeaning(s.calls, x);
    }
  }

  /** Calls `from..to` release items in strictly decreasing order of the press that put them down. */
  ghost predicate ReleasesNewestFirst(calls: seq<Call>, calls': seq<Call>, from: nat, to: nat)
    requires to <= |calls'|
  {
    && (forall p :: from <= p < to ==>
          calls'[p].Release? && DownSince(calls, calls'[p].item).Some?)
    && (forall p, q :: from <= p < q < to ==>
          DownSince(calls, calls'[p].item).value > DownSince(calls, calls'[q].item).value)
  }

  lemma ReversedListNewestFirst(held: seq<Item>, calls: seq<Call>, calls': seq<Call>, keys: bool, from: nat)
    requires ListOk(held, calls, keys)
    requires from + |held| <= |calls'|
    requires |Reverse(held)| == |held| && calls'[from..from + |held|] == Releases(Reverse(held))
    ensures ReleasesNewestFirst(calls, calls', from, from + |held|)
  {
    ReverseMembers(held);
    forall p | from <= p < from + |held|
      ensures calls'[p] == Release(held[|held| - 1 - (p - from)])
      ensures held[|held| - 1 - (p - from)] in held
    {
      assert calls'[p] == calls'[from..from + |held|][p - from];
    }
  }

  lemma ThreeParts(a: seq<Call>, b: seq<Call>, c: seq<Call>)
    ensures var all := a + b + c;
            && all[..|a|] == a && all[|a|..|a| + |b|] == b && all[|a| + |b|..|a| + |b| + |c|] == c
  {
  }

  /**
   * After any event sequence `release_all` releases each held key and then each held button
   * exactly once, most recently pressed first, and leaves nothing down.
   */
  lemma ReleaseAllIsExact(codeToKey: KeyMap, events: seq<Event>)
    ensures var s := InjectAll(codeToKey, events);
            var s' := ReleaseEverything(s);
            var m, k, b := |s.calls|, |s.heldKeys|, |s.heldButtons|;
            && |s'.calls| == m + k + b && s'.calls[..m] == s.calls
            && ReleasesNewestFirst(s.calls, s'.calls, m, m + k)
            && ReleasesNewestFirst(s.calls, s'.calls, m + k, m + k + b)
            && (forall x :: !IsDown(s'.calls, x))
  {
    var s := InjectAll(codeToKey, events);
    var s' := ReleaseEverything(s);
    var m, k, b := |s.calls|, |s.heldKeys|, |s.heldButtons|;
    InjectAllKeepsInv(codeToKey, events);
    ReverseMembers(s.heldKeys);
    ReverseMembers(s.heldButtons);
    ThreeParts(s.calls, Releases(Reverse(s.heldKeys)), Releases(Reverse(s.heldButtons)));
    ReversedListNewestFirst(s.heldKeys, s.calls, s'.calls, true, m);
    ReversedListNewestFirst(s.heldButtons, s.calls, s'.calls, false, m + k);
    assert forall x :: !IsDown(s'.calls, x) by { ReleaseEverythingClears(s); }
  }

  // ----- what the events ask for -----

  predicate Presses(codeToKey: KeyMap, e: Event, item: Item) {
    || (e.KeyPress? && item.KeyItem? && codeToKey(e.code) == Some(item.key))
    || (e.MouseButtonPress? && item == ButtonItem(e.button))
  }

  predicate LetsGo(codeToKey: KeyMap, e: Event, item: Item) {
    || (e.KeyRelease? && item.KeyItem? && codeToKey(e.code) == Some(item.key))
    || (e.MouseButtonRelease? && item == ButtonItem(e.button))
    || e.ReleaseAll?
  }

  /** Event `i` presses the item, and no later event lets go of it. */
  predicate AskedSince(codeToKey: KeyMap, events: seq<Event>, item: Item, i: nat) {
    && i < |events| && Presses(codeToKey, events[i], item)
    && forall j :: i < j < |events| ==> !LetsGo(codeToKey, events[j], item)
  }

  ghost predicate Asked(codeToKey: KeyMap, events: seq<Event>, item: Item) {
    exists i: nat :: AskedSince(codeToKey, events, item, i)
  }

  lemma AskedSnoc(codeToKey: KeyMap, events: seq<Event>, e: Event, item: Item)
    ensures Asked(codeToKey, events + [e], item)
            <==> Presses(codeToKey, e, item) || (Asked(codeToKey, events, item) && !LetsGo(codeToKey, e, item))
  {
    var all := events + [e];
    assert all[|events|] == e;
    assert forall i :: 0 <= i < |events| ==> all[i] == events[i];
    assert AskedSince(codeToKey, all, item, |events|) <==> Presses(codeToKey, e, item);
    if i: nat :| AskedSince(codeToKey, all, item, i) {
      assert i < |events| ==> AskedSince(codeToKey, events, item, i);
    }
    if i: nat :| AskedSince(codeToKey, events, item, i) {
      assert !LetsGo(codeToKey, e, item) ==> AskedSince(codeToKey, all, item, i);
    }
  }

  lemma DownAfterScrolls(calls: seq<Call>, dx: int, dy: int, item: Item)
    ensures DownSince(calls + Scrolls(dx, dy), item) == DownSince(calls, item)
  {
    var mid := if dy != 0 then calls + [ScrollVertical(-dy)] else calls;
    DownSinceSnoc(calls, ScrollVertical(-dy), item);
    DownSinceSnoc(mid, ScrollHorizontal(dx), item);
    assert calls + Scrolls(dx, dy) == if dx != 0 then mid + [ScrollHorizontal(dx)] else mid;
  }

  /** One event's effect on whether an item is down. */
  lemma InjectDown(codeToKey: KeyMap, s: State, e: Event, item: Item)
    requires Inv(s)
    ensures DownSince(Inject(codeToKey, s, e).calls, item).Some?
            <==> Presses(codeToKey, e, item)
                 || (DownSince(s.calls, item).Some? && !LetsGo(codeToKey, e, item))
  {
    match e
    case MouseDelta(dx, dy) => DownSinceSnoc(s.calls, MoveBy(dx, dy), item);
    case MouseButtonPress(b) => DownSinceSnoc(s.calls, Press(ButtonItem(b)), item);
    case MouseButtonRelease(b) => DownSinceSnoc(s.calls, Release(ButtonItem(b)), item);
    case Wheel(dx, dy) => DownAfterScrolls(s.calls, dx, dy, item);
    case KeyPress(code, _) =>
      if codeToKey(code).Some? {
        DownSinceSnoc(s.calls, Press(KeyItem(codeToKey(code).value)), item);
      }
    case KeyRelease(code, _) =>
      if codeToKey(code).Some? {
        DownSinceSnoc(s.calls, Release(KeyItem(codeToKey(code).value)), item);
      }
    case ReleaseAll =>
      ReleaseEverythingClears(s);
      DownSinceMeaning(ReleaseEverything(s).calls, item);
  }

  /** Each event of a key or a button makes one call, of its own kind; an unknown code makes none. */
  lemma InjectCalls(codeToKey: KeyMap, s: State, e: Event)
    requires e.KeyPress? || e.KeyRelease? || e.MouseButtonPress? || e.MouseButtonRelease?
    ensures var made := Inject(codeToKey, s, e).calls;
            if exists item :: Presses(codeToKey, e, item) || LetsGo(codeToKey, e, item) then
              && |made| == |s.calls| + 1 && s.calls <= made
              && (forall item :: Presses(codeToKey, e, item) ==> made[|s.calls|] == Press(item))
              && (forall item :: LetsGo(codeToKey, e, item) ==> made[|s.calls|] == Release(item))
            else made == s.calls
  {
    if e.KeyPress? || e.KeyRelease? {
      var key := codeToKey(e.code);
      assert key.Some? ==> Presses(codeToKey, e, KeyItem(key.value)) || LetsGo(codeToKey, e, KeyItem(key.value));
    } else {
      assert Presses(codeToKey, e, ButtonItem(e.button)) || LetsGo(codeToKey, e, ButtonItem(e.button));
    }
  }

  /**
   * What is down is what the events ask for: a key exactly when some press of a code that stands
   * for it has no later release of such a code and no release-all after it; a button likewise.
   */
  lemma {:induction false} DownIffAsked(codeToKey: KeyMap, events: seq<Event>, item: Item)
    ensures IsDown(InjectAll(codeToKey, events).calls, item) <==> Asked(codeToKey, events, item)
  {
    DownSinceMeaning(InjectAll(codeToKey, events).calls, item);
    if events != [] {
      var init, last := events[..|events| - 1], events[|events| - 1];
      assert events == init + [last];
      DownIffAsked(codeToKey, init, item);
      DownSinceMeaning(InjectAll(codeToKey, init).calls, item);
      InjectAllKeepsInv(codeToKey, init);
      InjectDown(codeToKey, InjectAll(codeToKey, init), last, item);
      AskedSnoc(codeToKey, init, last, item);
    }
  }

  /** The calls that move the pointer or scroll, in order. */
  function Motions(calls: seq<Call>): seq<Call> {
    if calls == [] then []
    else
      var last := calls[|calls| - 1];
      Motions(calls[..|calls| - 1]) + (if last.Press? || last.Release? then [] else [last])
  }

  /** What an event asks of the pointer: a motion, or a wheel's scrolls, the vertical one turned round. */
  function AskedMotion(e: Event): seq<Call> {
    match e
    case MouseDelta(dx, dy) => [MoveBy(dx, dy)]
    case Wheel(0, 0) => []
    case Wheel(0, dy) => [ScrollVertical(-dy)]
    case Wheel(dx, 0) => [ScrollHorizontal(dx)]
    case Wheel(dx, dy) => [ScrollVertical(-dy), ScrollHorizontal(dx)]
    case _ => []
  }

  function AskedMotions(events: seq<Event>): seq<Call> {
    if events == [] then [] else AskedMotions(events[..|events| - 1]) + AskedMotion(events[|events| - 1])
  }

  lemma {:induction false} MotionsConcat(a: seq<Call>, b: seq<Call>)
    ensures Motions(a + b) == Motions(a) + Motions(b)
  {
    if b == [] {
      assert a + b == a;
    } else {
      assert (a + b)[..|a + b| - 1] == a + b[..|b| - 1];
      MotionsConcat(a, b[..|b| - 1]);
    }
  }

  lemma {:induction false} ReleasesAreNoMotion(items: seq<Item>)
    ensures Motions(Releases(items)) == []
  {
    if items != [] {
      var n := |items| - 1;
      ReleasesAreNoMotion(items[..n]);
      assert Releases(items)[..n] == Releases(items[..n]);
    }
  }

  lemma MotionsOfOne(call: Call)
    ensures Motions([call]) == if call.Press? || call.Release? then [] else [call]
  {
    assert [call][..0] == [];
  }

  lemma InjectMotions(codeToKey: KeyMap, s: State, e: Event)
    ensures Motions(Inject(codeToKey, s, e).calls)
            == Motions(s.calls) + AskedMotion(e)
  {
    var before := s.calls;
    match e
    case MouseDelta(dx, dy) => MotionsConcat(before, [MoveBy(dx, dy)]); MotionsOfOne(MoveBy(dx, dy));
    case MouseButtonPress(b) => MotionsConcat(before, [Press(ButtonItem(b))]); MotionsOfOne(Press(ButtonItem(b)));
    case MouseButtonRelease(b) =>
      MotionsConcat(before, [Release(ButtonItem(b))]);
      MotionsOfOne(Release(ButtonItem(b)));
    case Wheel(dx, dy) => MotionsConcat(before, Scrolls(dx, dy)); ScrollsAreMotions(dx, dy);
    case KeyPress(code, _) =>
      if codeToKey(code).Some? {
        MotionsConcat(before, [Press(KeyItem(codeToKey(code).value))]);
        MotionsOfOne(Press(KeyItem(codeToKey(code).value)));
      }
    case KeyRelease(code, _) =>
      if codeToKey(code).Some? {
        MotionsConcat(before, [Release(KeyItem(codeToKey(code).value))]);
        MotionsOfOne(Release(KeyItem(codeToKey(code).value)));
      }
    case ReleaseAll =>
      var keys, buttons := Releases(Reverse(s.heldKeys)), Releases(Reverse(s.heldButtons));
      MotionsConcat(before, keys);
      MotionsConcat(before + keys, buttons);
      ReleasesAreNoMotion(Reverse(s.heldKeys));
      ReleasesAreNoMotion(Reverse(s.heldButtons));
  }

  lemma ScrollsAreMotions(dx: int, dy: int)
    ensures Motions(Scrolls(dx, dy)) == Scrolls(dx, dy) == AskedMotion(Wheel(dx, dy))
  {
    if dx == 0 && dy == 0 {
      assert Scrolls(dx, dy) == [];
    } else if dx == 0 {
      assert Scrolls(dx, dy) == [ScrollVertical(-dy)];
      MotionsOfOne(ScrollVertical(-dy));
    } else if dy == 0 {
      assert Scrolls(dx, dy) == [ScrollHorizontal(dx)];
      MotionsOfOne(ScrollHorizontal(dx));
    } else {
      MotionsOfTwo(ScrollVertical(-dy), ScrollHorizontal(dx));
    }
  }

  lemma MotionsOfTwo(a: Call, b: Call)
    requires !a.Press? && !a.Release? && !b.Press? && !b.Release?
    ensures Motions([a] + [b]) == [a] + [b] == [a, b]
  {
    MotionsConcat([a], [b]);
    MotionsOfOne(a);
    MotionsOfOne(b);
  }

  /** The pointer moves and scrolls exactly as the events ask, in order. */
  lemma {:induction false} MotionsAreAsked(codeToKey: KeyMap, events: seq<Event>)
    ensures Motions(InjectAll(codeToKey, events).calls) == AskedMotions(events)
  {
    if events != [] {
      var init, last := events[..|events| - 1], events[|events| - 1];
      MotionsAreAsked(codeToKey, init);
      InjectMotions(codeToKey, InjectAll(codeToKey, init), last);
    }
  }

  // ----- the object -----

  class InputInjector {
    var heldKeys: seq<Item>
    var heldButtons: seq<Item>
    var calls: seq<Call>

    ghost function View(): State
      reads this
    {
      State(heldKeys, heldButtons, calls)
    }

    ghost predicate Valid()
      reads this
    {
      Inv(View())
    }

    constructor ()
      ensures Valid() && View() == Idle
    {
      heldKeys, heldButtons, calls := [], [], [];
      new;
      InjectAllKeepsInv(c => None, []);
    }

    method InjectEvent(codeToKey: KeyMap, e: Event)
      requires Valid()
      modifies this
      ensures Valid() && View() == Inject(codeToKey, old(View()), e)
    {
      InjectKeepsInv(codeToKey, View(), e);
      match e
      case MouseDelta(dx, dy) => calls := calls + [MoveBy(dx, dy)];
      case MouseButtonPress(b) =>
        calls := calls + [Press(ButtonItem(b))];
        if ButtonItem(b) !in heldButtons {
          heldButtons := heldButtons + [ButtonItem(b)];
        }
      case MouseButtonRelease(b) =>
        calls := calls + [Release(ButtonItem(b))];
        heldButtons := Remove(heldButtons, ButtonItem(b));
      case Wheel(dx, dy) =>
        ghost var before := calls;
        if dy != 0 {
          calls := calls + [ScrollVertical(-dy)];
        }
        if dx != 0 {
          calls := calls + [ScrollHorizontal(dx)];
        }
        assert calls == before + Scrolls(dx, dy);
      case KeyPress(code, _) =>
        var key := codeToKey(code);
        if key.Some? {
          calls := calls + [Press(KeyItem(key.value))];
          if KeyItem(key.value) !in heldKeys {
            heldKeys := heldKeys + [KeyItem(key.value)];
          }
        }
      case KeyRelease(code, _) =>
        var key := codeToKey(code);
        if key.Some? {
          calls := calls + [Release(KeyItem(key.value))];
          heldKeys := Remove(heldKeys, KeyItem(key.value));
        }
      case ReleaseAll => ReleaseAllHeld();
    }

    /** Takes both lists and releases each from its end; safe to call when nothing is held. */
    method ReleaseAllHeld()
      requires Valid()
      modifies this
      ensures Valid() && View() == ReleaseEverything(old(View()))
      ensures forall x :: !IsDown(calls, x)
    {
      ghost var before := View();
      var keys, buttons := heldKeys, heldButtons;
      heldKeys, heldButtons := [], [];
      calls := ReleaseBackwards(calls, keys);
      calls := ReleaseBackwards(calls, buttons);
      assert View() == ReleaseEverything(before);
      ReleaseEverythingClears(before);
    }
  }

  /** The `into_iter().rev()` loop. */
  method ReleaseBackwards(calls0: seq<Call>, held: seq<Item>) returns (calls: seq<Call>)
    ensures calls == calls0 + Releases(Reverse(held))
  {
    ReverseMembers(held);
    calls := calls0;
    var i := |held|;
    while i > 0
      invariant 0 <= i <= |held|
      invariant calls == calls0 + Releases(Reverse(held)[..|held| - i])
    {
      i := i - 1;
      calls := calls + [Release(held[i])];
    }
    assert Reverse(held)[..|held|] == Reverse(held);
  }
}
