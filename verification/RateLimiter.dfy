/**
 * The per-IP failure limiter. Pairing and SOCKS5 authentication run the same code, each on a
 * table of its own.
 *
 * The program keeps, per IP, only the failures of the last window and one deadline. The
 * specification is the full history of failures. `Entry` functions follow the code, `Limited`
 * is the specification, and `Refines` links the two. Instants are nanoseconds.
 */
module RateLimiter {
  import opened Base

  /** A peer address; only equality matters. */
  datatype Ip = Ip(bits: nat)

  const RATE_LIMIT_WINDOW: int := 600_000_000_000
  const RATE_LIMIT_MAX_FAILURES: nat := 5

  // ----- specification: the full history -----

  /** One recorded failure. */
  datatype Failure = Failure(ip: Ip, at: int)

  predicate Monotone(times: seq<int>) {
    forall i, j :: 0 <= i < j < |times| ==> times[i] <= times[j]
  }

  /** The times at which `ip` failed, oldest first. */
  function TimesOf(history: seq<Failure>, ip: Ip): seq<int> {
    if history == [] then []
    else
      var last := history[|history| - 1];
      TimesOf(history[..|history| - 1], ip) + (if last.ip == ip then [last.at] else [])
  }

  /** The members of `times` less than one window before `now`. */
  function Recent(times: seq<int>, now: int): seq<int> {
    if times == [] then []
    else
      var last := times[|times| - 1];
      Recent(times[..|times| - 1], now) + (if now - last < RATE_LIMIT_WINDOW then [last] else [])
  }

  /** How many of `times` lie in the half-open window `(end - 600s, end]`. */
  function InWindow(times: seq<int>, end: int): nat {
    if times == [] then 0
    else
      var last := times[|times| - 1];
      InWindow(times[..|times| - 1], end)
      + (if end - 600_000_000_000 < last <= end then 1 else 0)
  }

  /** Failure number `i` completed a group of five within one window. */
  predicate Triggers(times: seq<int>, i: nat)
    requires i < |times|
  {
    InWindow(times, times[i]) >= 5
  }

  /** The specification of "limited at `now`", from the full list of failure times. */
  predicate Limited(times: seq<int>, now: int) {
    exists i: nat :: i < |times| && Triggers(times, i) && now < times[i] + 600_000_000_000
  }

  // ----- what the program stores -----

  datatype Entry = Entry(failures: seq<int>, blockedUntil: Option<int>)

  /** `record_pairing_failure` on one entry. */
  function RecordOn(entry: Entry, now: int): Entry {
    var failures := Recent(entry.failures, now) + [now];
    Entry(failures,
          if |failures| >= RATE_LIMIT_MAX_FAILURES then Some(now + RATE_LIMIT_WINDOW)
          else entry.blockedUntil)
  }

  /** `is_rate_limited` on one entry. */
  predicate LimitedBy(entry: Entry, now: int) {
    entry.blockedUntil.Some? && now < entry.blockedUntil.value
  }

  /** The stored entry as a function of the full failure list. */
  function Stored(times: seq<int>): Entry {
    if times == [] then Entry([], None)
    else RecordOn(Stored(times[..|times| - 1]), times[|times| - 1])
  }

  // ----- the pruned entry refines the full history -----

  lemma {:induction false} RecentOfRecent(times: seq<int>, earlier: int, now: int)
    requires earlier <= now
    ensures Recent(Recent(times, earlier), now) == Recent(times, now)
  {
    if times != [] {
      var init, last := times[..|times| - 1], times[|times| - 1];
      RecentOfRecent(init, earlier, now);
      var r := Recent(init, earlier);
      if earlier - last < RATE_LIMIT_WINDOW {
        assert (r + [last])[..|r|] == r;
      } else {
        assert r + [] == r;
      }
    }
  }

  /** Pruning never loses a failure that a later decision needs. */
  lemma {:induction false} StoredFailures(times: seq<int>)
    requires Monotone(times)
    ensures times != [] ==> Stored(times).failures == Recent(times, times[|times| - 1])
  {
    if times != [] {
      var init, last := times[..|times| - 1], times[|times| - 1];
      StoredFailures(init);
      if init != [] {
        RecentOfRecent(init, init[|init| - 1], last);
      }
    }
  }

  lemma {:induction false} RecentCounts(times: seq<int>, end: int)
    requires forall i :: 0 <= i < |times| ==> times[i] <= end
    ensures |Recent(times, end)| == InWindow(times, end)
  {
    if times != [] {
      RecentCounts(times[..|times| - 1], end);
    }
  }

  lemma {:induction false} InWindowConcat(a: seq<int>, b: seq<int>, end: int)
    ensures InWindow(a + b, end) == InWindow(a, end) + InWindow(b, end)
  {
    if b == [] {
      assert a + b == a;
    } else {
      assert (a + b)[..|a + b| - 1] == a + b[..|b| - 1];
      InWindowConcat(a, b[..|b| - 1], end);
    }
  }

  lemma {:induction false} InWindowAtMost(times: seq<int>, end: int)
    ensures InWindow(times, end) <= |times|
  {
    if times != [] {
      InWindowAtMost(times[..|times| - 1], end);
    }
  }

  /** Only failures up to and including the last one decide whether the last one triggers. */
  lemma TriggersAtLast(times: seq<int>)
    requires times != [] && Monotone(times)
    ensures Triggers(times, |times| - 1)
            <==> |Stored(times).failures| >= RATE_LIMIT_MAX_FAILURES
  {
    StoredFailures(times);
    RecentCounts(times, times[|times| - 1]);
  }

  /** An earlier failure that triggers keeps triggering, and a new one can only join its group. */
  lemma TriggersExtends(times: seq<int>, next: int, i: nat)
    requires Monotone(times + [next]) && i < |times|
    ensures Triggers(times, i) ==> Triggers(times + [next], i)
    ensures Triggers(times + [next], i) && !Triggers(times, i) ==>
              times[i] == next && Triggers(times + [next], |times|)
  {
    var all := times + [next];
    InWindowConcat(times, [next], times[i]);
    InWindowOne(next, times[i]);
    assert all[i] == times[i] && all[|times|] == next;
  }

  lemma InWindowOne(t: int, end: int)
    ensures InWindow([t], end) == if end - RATE_LIMIT_WINDOW < t <= end then 1 else 0
  {
    assert [t][..0] == [];
  }

  /** One more failure limits `now` if it did already, or if it completes a group itself. */
  lemma LimitedSnoc(times: seq<int>, last: int, now: int)
    requires Monotone(times + [last])
    ensures Limited(times + [last], now)
            <==> Limited(times, now)
                 || (Triggers(times + [last], |times|) && now < last + RATE_LIMIT_WINDOW)
  {
    var all := times + [last];
    if Limited(times, now) {
      var i: nat :| i < |times| && Triggers(times, i) && now < times[i] + RATE_LIMIT_WINDOW;
      TriggersExtends(times, last, i);
      assert Triggers(all, i) && now < all[i] + RATE_LIMIT_WINDOW;
    }
    if Limited(all, now) {
      var i: nat :| i < |all| && Triggers(all, i) && now < all[i] + RATE_LIMIT_WINDOW;
      if i < |times| {
        TriggersExtends(times, last, i);
        assert Triggers(times, i) ==> Limited(times, now);
      }
    }
    if Triggers(all, |times|) && now < last + RATE_LIMIT_WINDOW {
      assert now < all[|times|] + RATE_LIMIT_WINDOW;
    }
  }

  lemma {:induction false} StoredDeadline(times: seq<int>)
    requires Monotone(times) && Stored(times).blockedUntil.Some?
    ensures times != [] && Stored(times).blockedUntil.value <= times[|times| - 1] + RATE_LIMIT_WINDOW
  {
    var init := times[..|times| - 1];
    if Stored(init).blockedUntil.Some? {
      StoredDeadline(init);
      assert init[|init| - 1] <= times[|times| - 1];
    }
  }

  /**
   * The stored deadline decides exactly what the full history decides: an IP is limited at
   * `now` iff some recorded failure has at least five failures in the window ending at it and
   * is less than a window old.
   */
  lemma {:induction false} StoredLimitIff(times: seq<int>, now: int)
    requires Monotone(times)
    ensures LimitedBy(Stored(times), now) <==> Limited(times, now)
  {
    if times != [] {
      var init, last := times[..|times| - 1], times[|times| - 1];
      assert times == init + [last];
      StoredLimitIff(init, now);
      LimitedSnoc(init, last, now);
      TriggersAtLast(times);
      if Stored(init).blockedUntil.Some? {
        StoredDeadline(init);
        assert init[|init| - 1] <= last;
      }
    }
  }

  // ----- the shared table -----

  lemma {:induction false} TimesOfSnoc(history: seq<Failure>, f: Failure, ip: Ip)
    ensures TimesOf(history + [f], ip)
            == TimesOf(history, ip) + (if f.ip == ip then [f.at] else [])
  {
    assert (history + [f])[..|history|] == history;
  }

  predicate MonotoneHistory(history: seq<Failure>) {
    forall i, j :: 0 <= i < j < |history| ==> history[i].at <= history[j].at
  }

  lemma {:induction false} TimesOfMonotone(history: seq<Failure>, ip: Ip)
    requires MonotoneHistory(history)
    ensures Monotone(TimesOf(history, ip))
    ensures history != [] ==>
              forall i :: 0 <= i < |TimesOf(history, ip)| ==>
                            TimesOf(history, ip)[i] <= history[|history| - 1].at
  {
    if history != [] {
      TimesOfMonotone(history[..|history| - 1], ip);
    }
  }

  /** The entry of `ip` is what `ip`'s own failures make it. */
  predicate EntryRefines(entries: map<Ip, Entry>, ip: Ip, times: seq<int>) {
    if ip in entries then times != [] && entries[ip] == Stored(times) else times == []
  }

  /** Every entry is what its own IP's failures make it, whatever the other IPs did. */
  ghost predicate Refines(entries: map<Ip, Entry>, history: seq<Failure>) {
    forall ip :: EntryRefines(entries, ip, TimesOf(history, ip))
  }

  function EntryOf(entries: map<Ip, Entry>, ip: Ip): Entry {
    if ip in entries then entries[ip] else Entry([], None)
  }

  lemma StoredSnoc(times: seq<int>, now: int)
    ensures Stored(times + [now]) == RecordOn(Stored(times), now)
  {
    assert (times + [now])[..|times|] == times;
  }

  /** Recording one failure in the table is recording it in the history. */
  lemma RecordRefines(entries: map<Ip, Entry>, history: seq<Failure>, ip: Ip, now: int)
    requires Refines(entries, history)
    ensures Refines(entries[ip := RecordOn(EntryOf(entries, ip), now)],
                    history + [Failure(ip, now)])
  {
    forall other
      ensures EntryRefines(entries[ip := RecordOn(EntryOf(entries, ip), now)], other,
                           TimesOf(history + [Failure(ip, now)], other))
    {
      var times := TimesOf(history, other);
      TimesOfSnoc(history, Failure(ip, now), other);
      assert EntryRefines(entries, other, times);
      if other == ip {
        StoredSnoc(times, now);
      } else {
        assert times + [] == times;
      }
    }
  }

  /** The `HashMap<IpAddr, RateLimitEntry>` behind its mutex. */
  class Limiter {
    var entries: map<Ip, Entry>
    ghost var history: seq<Failure>

    ghost predicate Valid()
      reads this
    {
      MonotoneHistory(history) && Refines(entries, history)
    }

    /** Valid, with a clock reading no earlier than the last recorded failure. */
    ghost predicate ReadyAt(now: int)
      reads this
    {
      Valid() && (history != [] ==> history[|history| - 1].at <= now)
    }

    constructor ()
      ensures Valid() && entries == map[] && history == []
    {
      entries := map[];
      history := [];
    }

    method IsRateLimited(ip: Ip, now: int) returns (limited: bool)
      requires Valid()
      ensures limited <==> Limited(TimesOf(history, ip), now)
    {
      TimesOfMonotone(history, ip);
      StoredLimitIff(TimesOf(history, ip), now);
      if ip in entries {
        var entry := entries[ip];
        if entry.blockedUntil.Some? {
          return now < entry.blockedUntil.value;
        }
      }
      return false;
    }

    method RecordPairingFailure(ip: Ip, now: int)
      requires ReadyAt(now)
      modifies this
      ensures Valid()
      ensures history == old(history) + [Failure(ip, now)]
      ensures forall other :: other != ip ==>
                (other in entries <==> other in old(entries))
                && (other in entries ==> entries[other] == old(entries)[other])
    {
      RecordRefines(entries, history, ip, now);
      var entry := if ip in entries then entries[ip] else Entry([], None);
      var failures := Recent(entry.failures, now) + [now];
      var blockedUntil := entry.blockedUntil;
      if |failures| >= RATE_LIMIT_MAX_FAILURES {
        blockedUntil := Some(now + RATE_LIMIT_WINDOW);
      }
      entries := entries[ip := Entry(failures, blockedUntil)];
      history := history + [Failure(ip, now)];
    }

    /** Failures recorded one after the other, by whichever handlers. */
    method RecordAll(failures: seq<Failure>)
      requires Valid() && MonotoneHistory(history + failures)
      modifies this
      ensures Valid() && history == old(history) + failures
    {
      for i := 0 to |failures|
        invariant Valid() && history == old(history) + failures[..i]
      {
        ghost var n := |history|;
        assert old(history) + failures == history + failures[i..];
        assert (history + failures[i..])[n] == failures[i];
        assert n > 0 ==> (history + failures[i..])[n - 1] == history[n - 1];
        RecordPairingFailure(failures[i].ip, failures[i].at);
        assert failures[..i + 1] == failures[..i] + [failures[i]];
      }
      assert failures[..|failures|] == failures;
    }
  }

  // ----- check and record as one step -----

  /** The failure list after every attempt in turn is checked and, unless limited, recorded. */
  function AtomicAttempts(attempts: seq<int>): seq<int> {
    if attempts == [] then []
    else
      var times := AtomicAttempts(attempts[..|attempts| - 1]);
      var now := attempts[|attempts| - 1];
      if Limited(times, now) then times else times + [now]
  }

  /** Five failures in the window ending at `end` block the IP at `end`. */
  lemma FullWindowIsLimited(times: seq<int>, end: int)
    requires Monotone(times) && (forall i :: 0 <= i < |times| ==> times[i] <= end)
    requires InWindow(times, end) >= RATE_LIMIT_MAX_FAILURES
    ensures Limited(times, end)
  {
    var last := times[|times| - 1];
    LaterWindowIsSmaller(times, last, end);
    assert Triggers(times, |times| - 1);
    EmptyIfOld(times, end);
  }

  /** Closing a window later over the same past can only drop members. */
  lemma {:induction false} LaterWindowIsSmaller(times: seq<int>, early: int, late: int)
    requires early <= late && (forall i :: 0 <= i < |times| ==> times[i] <= early)
    ensures InWindow(times, late) <= InWindow(times, early)
  {
    if times != [] {
      LaterWindowIsSmaller(times[..|times| - 1], early, late);
    }
  }

  lemma {:induction false} EmptyIfOld(times: seq<int>, end: int)
    requires Monotone(times)
    ensures times != [] && times[|times| - 1] <= end - RATE_LIMIT_WINDOW ==>
              InWindow(times, end) == 0
  {
    if times != [] {
      EmptyIfOld(times[..|times| - 1], end);
    }
  }

  /** An attempt that is not limited still fits in every window that contains it. */
  lemma UnlimitedHasRoom(times: seq<int>, now: int, end: int)
    requires Monotone(times) && (forall i :: 0 <= i < |times| ==> times[i] <= now)
    requires !Limited(times, now)
    ensures InWindow(times + [now], end)
            <= if now <= end then RATE_LIMIT_MAX_FAILURES else InWindow(times, end)
  {
    if InWindow(times, now) >= RATE_LIMIT_MAX_FAILURES {
      FullWindowIsLimited(times, now);
    }
    InWindowConcat(times, [now], end);
    InWindowOne(now, end);
    if now <= end {
      LaterWindowIsSmaller(times, now, end);
    }
  }

  lemma {:induction false} AtomicAttemptsMonotone(attempts: seq<int>)
    requires Monotone(attempts)
    ensures Monotone(AtomicAttempts(attempts))
    ensures forall i :: 0 <= i < |AtomicAttempts(attempts)| ==>
                          attempts != [] && AtomicAttempts(attempts)[i] <= attempts[|attempts| - 1]
  {
    if attempts != [] {
      AtomicAttemptsMonotone(attempts[..|attempts| - 1]);
    }
  }

  /**
   * If checking and recording are one step, no half-open window of 600 seconds ever holds
   * more than five recorded failures of an IP, whatever the attempts were.
   */
  lemma {:induction false} AtomicWindowBound(attempts: seq<int>, end: int)
    requires Monotone(attempts)
    ensures InWindow(AtomicAttempts(attempts), end) <= 5
  {
    if attempts != [] {
      var init, now := attempts[..|attempts| - 1], attempts[|attempts| - 1];
      AtomicWindowBound(init, end);
      var times := AtomicAttempts(init);
      if !Limited(times, now) {
        assert Monotone(times) && (forall i :: 0 <= i < |times| ==> times[i] <= now) by {
          AtomicAttemptsMonotone(init);
        }
        UnlimitedHasRoom(times, now, end);
      }
    }
  }
}
