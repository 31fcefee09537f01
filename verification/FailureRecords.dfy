/**
 * Recorded failures of handlers that check the limiter, do something else, and only then record:
 * what keeps such a list attributable, and how many failures a window can hold.
 *
 * The control channel and the SOCKS5 proxy both work this way, each with a limiter of its own.
 */
module FailureRecords {
  import opened Base
  import RL = RateLimiter

  type HandlerId = nat

  /** A passed limiter check: when it ran and how many failures were recorded before it. */
  datatype Check = Check(at: int, seen: nat)

  /**
   * A recorded failure with what is needed to say who recorded it: the handler, its check, and
   * the handlers that had passed their check when it was recorded.
   */
  datatype Record = Record(failure: RL.Failure, author: HandlerId, check: Check, pending: set<HandlerId>)

  function Failures(records: seq<Record>): seq<RL.Failure> {
    seq(|records|, i requires 0 <= i < |records| => records[i].failure)
  }

  function TimesOf(records: seq<Record>, ip: RL.Ip): seq<int> {
    RL.TimesOf(Failures(records), ip)
  }

  // ----- which lists arise -----

  /** The check saw `seen` records, all no later than itself, and was not limited by them. */
  ghost predicate CheckOk(records: seq<Record>, ip: RL.Ip, check: Check) {
    && check.seen <= |records|
    && (forall i :: 0 <= i < check.seen ==> records[i].failure.at <= check.at)
    && !RL.Limited(TimesOf(records[..check.seen], ip), check.at)
  }

  ghost predicate RecordOk(records: seq<Record>, j: nat)
    requires j < |records|
  {
    var r := records[j];
    && r.author in r.pending
    && r.check.seen <= j && r.check.at <= r.failure.at
    && CheckOk(records, r.failure.ip, r.check)
  }

  /** Records `i < j`: in time order, by different handlers, the later one pending at the earlier. */
  ghost predicate RecordPairOk(records: seq<Record>, i: nat, j: nat)
    requires i < j < |records|
  {
    && records[i].failure.at <= records[j].failure.at
    && records[i].author != records[j].author
    && (records[j].check.seen <= i ==> records[j].author in records[i].pending)
  }

  ghost predicate RecordsOk(records: seq<Record>) {
    && (forall j: nat :: j < |records| ==> RecordOk(records, j))
    && (forall i: nat, j: nat :: i < j < |records| ==> RecordPairOk(records, i, j))
  }

  lemma CheckOkExtends(records: seq<Record>, r: Record, ip: RL.Ip, check: Check)
    requires CheckOk(records, ip, check)
    ensures CheckOk(records + [r], ip, check)
  {
    assert (records + [r])[..check.seen] == records[..check.seen];
  }

  /** Appending the record of a handler that has been pending since its check keeps the invariant. */
  lemma AppendKeepsRecords(records: seq<Record>, r: Record)
    requires RecordsOk(records) && r.author in r.pending
    requires r.check.at <= r.failure.at && CheckOk(records, r.failure.ip, r.check)
    requires forall i :: 0 <= i < |records| ==>
               && records[i].failure.at <= r.failure.at && records[i].author != r.author
               && (r.check.seen <= i ==> r.author in records[i].pending)
    ensures RecordsOk(records + [r])
  {
    var all := records + [r];
    CheckOkExtends(records, r, r.failure.ip, r.check);
    forall j: nat | j < |records|
      ensures RecordOk(all, j)
    {
      assert RecordOk(records, j);
      CheckOkExtends(records, r, records[j].failure.ip, records[j].check);
    }
    forall i: nat, j: nat | i < j < |all|
      ensures RecordPairOk(all, i, j)
    {
      if j < |records| {
        assert RecordPairOk(records, i, j);
      }
    }
  }

  // ----- how many failures a window holds -----

  /** Record `i` is the fifth (or later) of its IP within the window ending at it. */
  ghost predicate Blocks(records: seq<Record>, i: nat)
    requires i < |records|
  {
    var f := records[i].failure;
    RL.InWindow(TimesOf(records[..i + 1], f.ip), f.at) >= RL.RATE_LIMIT_MAX_FAILURES
  }

  lemma FailuresConcat(a: seq<Record>, b: seq<Record>)
    ensures Failures(a + b) == Failures(a) + Failures(b)
  {
  }

  lemma {:induction false} TimesOfConcat(a: seq<RL.Failure>, b: seq<RL.Failure>, ip: RL.Ip)
    ensures RL.TimesOf(a + b, ip) == RL.TimesOf(a, ip) + RL.TimesOf(b, ip)
  {
    if b == [] {
      assert a + b == a;
    } else {
      assert (a + b)[..|a + b| - 1] == a + b[..|b| - 1];
      TimesOfConcat(a, b[..|b| - 1], ip);
    }
  }

  lemma TimesSplit(records: seq<Record>, n: nat, ip: RL.Ip)
    requires n <= |records|
    ensures TimesOf(records, ip) == TimesOf(records[..n], ip) + TimesOf(records[n..], ip)
  {
    assert records == records[..n] + records[n..];
    FailuresConcat(records[..n], records[n..]);
    TimesOfConcat(Failures(records[..n]), Failures(records[n..]), ip);
  }

  lemma TimesMonotone(records: seq<Record>, ip: RL.Ip)
    requires RecordsOk(records)
    ensures RL.Monotone(TimesOf(records, ip))
    ensures records != [] ==> forall i :: 0 <= i < |TimesOf(records, ip)| ==>
                                TimesOf(records, ip)[i] <= records[|records| - 1].failure.at
  {
    var fs := Failures(records);
    forall i, j | 0 <= i < j < |fs|
      ensures fs[i].at <= fs[j].at
    {
      assert RecordPairOk(records, i, j);
    }
    RL.TimesOfMonotone(Failures(records), ip);
  }

  lemma RecordsPrefixOk(records: seq<Record>, n: nat)
    requires RecordsOk(records) && n <= |records|
    ensures RecordsOk(records[..n])
  {
    var p := records[..n];
    forall j: nat | j < n
      ensures RecordOk(p, j)
    {
      assert RecordOk(records, j);
      assert p[..p[j].check.seen] == records[..p[j].check.seen];
    }
    forall i: nat, j: nat | i < j < n
      ensures RecordPairOk(p, i, j)
    {
      assert RecordPairOk(records, i, j);
    }
  }

  /** A check that saw a full window before it would have been limited. */
  lemma SeenWindowLimits(records: seq<Record>, ip: RL.Ip, end: int, n: nat, check: Check)
    requires RecordsOk(records) && n <= check.seen && CheckOk(records, ip, check)
    requires check.at <= end
    ensures RL.InWindow(TimesOf(records[..n], ip), end) < RL.RATE_LIMIT_MAX_FAILURES
  {
    var seen := records[..check.seen];
    RecordsPrefixOk(records, check.seen);
    TimesMonotone(seen, ip);
    TimesSplit(seen, n, ip);
    assert seen[..n] == records[..n];
    var times := TimesOf(seen, ip);
    RL.InWindowConcat(TimesOf(seen[..n], ip), TimesOf(seen[n..], ip), end);
    assert forall i :: 0 <= i < |times| ==> times[i] <= check.at by {
      RecordTimesBelow(seen, ip, check.at);
    }
    RL.LaterWindowIsSmaller(times, check.at, end);
    if RL.InWindow(times, check.at) >= RL.RATE_LIMIT_MAX_FAILURES {
      RL.FullWindowIsLimited(times, check.at);
    }
  }

  lemma {:induction false} RecordTimesBelow(records: seq<Record>, ip: RL.Ip, at: int)
    requires forall i :: 0 <= i < |records| ==> records[i].failure.at <= at
    ensures forall i :: 0 <= i < |TimesOf(records, ip)| ==> TimesOf(records, ip)[i] <= at
  {
    if records != [] {
      var n := |records| - 1;
      RecordTimesBelow(records[..n], ip, at);
      var fs := Failures(records);
      assert fs[..n] == Failures(records[..n]);
      assert fs[n] == records[n].failure;
      assert TimesOf(records, ip) == TimesOf(records[..n], ip) + (if fs[n].ip == ip then [fs[n].at] else []);
    }
  }

  /** Every failure recorded during a block comes from a handler whose check preceded the block. */
  lemma BlockedRecordsPrecede(records: seq<Record>, i: nat, j: nat)
    requires RecordsOk(records) && i < j < |records|
    requires Blocks(records, i) && records[j].failure.ip == records[i].failure.ip
    requires records[j].failure.at < records[i].failure.at + RL.RATE_LIMIT_WINDOW
    ensures records[j].check.seen <= i
    ensures records[j].author in records[i].pending - {records[i].author}
  {
    assert RecordOk(records, j) && RecordPairOk(records, i, j);
    var check := records[j].check;
    if i < check.seen {
      var seen := records[..check.seen];
      assert seen[..i + 1] == records[..i + 1];
      LimitedByPrefix(seen, i, records[i].failure.ip, check.at);
    }
  }

  /** A full window inside what was seen limits every later instant of the block. */
  lemma LimitedByPrefix(seen: seq<Record>, i: nat, ip: RL.Ip, now: int)
    requires i < |seen| && seen[i].failure.ip == ip
    requires RL.InWindow(TimesOf(seen[..i + 1], ip), seen[i].failure.at) >= RL.RATE_LIMIT_MAX_FAILURES
    requires now < seen[i].failure.at + RL.RATE_LIMIT_WINDOW
    ensures RL.Limited(TimesOf(seen, ip), now)
  {
    var head := TimesOf(seen[..i + 1], ip);
    var tail := TimesOf(seen[i + 1..], ip);
    TimesSplit(seen, i + 1, ip);
    RL.InWindowConcat(head, tail, seen[i].failure.at);
    var fs := Failures(seen[..i + 1]);
    assert fs[i] == seen[i].failure && |fs| == i + 1;
    assert head == RL.TimesOf(fs[..i], ip) + [fs[i].at];
    var n := |head| - 1;
    assert (head + tail)[n] == seen[i].failure.at;
    assert RL.Triggers(TimesOf(seen, ip), n);
  }

  /** The handlers that recorded a failure of `ip` inside the window ending at `end`, from record `i` on. */
  ghost function Authors(records: seq<Record>, ip: RL.Ip, end: int, i: nat): set<HandlerId>
    requires i <= |records|
  {
    set j | i <= j < |records| && Hits(records[j], ip, end) :: records[j].author
  }

  /** Record `j` is a failure of `ip` inside the window ending at `end`. */
  predicate Hits(r: Record, ip: RL.Ip, end: int) {
    r.failure.ip == ip && end - RL.RATE_LIMIT_WINDOW < r.failure.at <= end
  }

  lemma InWindowSingle(r: Record, ip: RL.Ip, end: int)
    ensures RL.InWindow(TimesOf([r], ip), end) == if Hits(r, ip, end) then 1 else 0
  {
    assert Failures([r]) == [] + [r.failure];
    RL.TimesOfSnoc([], r.failure, ip);
    RL.InWindowOne(r.failure.at, end);
  }

  lemma InWindowSplit(records: seq<Record>, n: nat, ip: RL.Ip, end: int)
    requires n <= |records|
    ensures RL.InWindow(TimesOf(records, ip), end)
            == RL.InWindow(TimesOf(records[..n], ip), end) + RL.InWindow(TimesOf(records[n..], ip), end)
  {
    TimesSplit(records, n, ip);
    RL.InWindowConcat(TimesOf(records[..n], ip), TimesOf(records[n..], ip), end);
  }

  lemma AuthorsStep(records: seq<Record>, ip: RL.Ip, end: int, i: nat)
    requires RecordsOk(records) && i < |records|
    ensures var rest := Authors(records, ip, end, i + 1);
            && records[i].author !in rest
            && Authors(records, ip, end, i)
               == if Hits(records[i], ip, end) then rest + {records[i].author} else rest
  {
    forall j: nat | i < j < |records|
      ensures records[j].author != records[i].author
    {
      assert RecordPairOk(records, i, j);
    }
  }

  /** Handlers record at most once, so counting records is counting handlers. */
  lemma {:induction false} CountAuthors(records: seq<Record>, ip: RL.Ip, end: int, i: nat)
    requires RecordsOk(records) && i <= |records|
    ensures RL.InWindow(TimesOf(records[i..], ip), end) == |Authors(records, ip, end, i)|
    decreases |records| - i
  {
    if i == |records| {
      assert Authors(records, ip, end, i) == {};
    } else {
      CountAuthors(records, ip, end, i + 1);
      InWindowSplit(records[i..], 1, ip, end);
      assert records[i..][..1] == [records[i]] && records[i..][1..] == records[i + 1..];
      InWindowSingle(records[i], ip, end);
      AuthorsStep(records, ip, end, i);
    }
  }

  lemma InWindowSnoc(records: seq<Record>, n: nat, ip: RL.Ip, end: int)
    requires 0 < n <= |records|
    ensures RL.InWindow(TimesOf(records[..n], ip), end)
            == RL.InWindow(TimesOf(records[..n - 1], ip), end) + if Hits(records[n - 1], ip, end) then 1 else 0
  {
    var head := records[..n];
    InWindowSplit(head, n - 1, ip, end);
    assert head[..n - 1] == records[..n - 1];
    assert head[n - 1..] == [records[n - 1]];
    InWindowSingle(records[n - 1], ip, end);
  }

  /** The record that brings the window's count to five. */
  lemma {:induction false} FifthRecord(records: seq<Record>, ip: RL.Ip, end: int, n: nat) returns (i: nat)
    requires n <= |records|
    requires RL.InWindow(TimesOf(records[..n], ip), end) >= RL.RATE_LIMIT_MAX_FAILURES
    ensures i < n && Hits(records[i], ip, end)
    ensures RL.InWindow(TimesOf(records[..i + 1], ip), end) == RL.RATE_LIMIT_MAX_FAILURES
  {
    assert n > 0;
    InWindowSnoc(records, n, ip, end);
    if RL.InWindow(TimesOf(records[..n - 1], ip), end) >= RL.RATE_LIMIT_MAX_FAILURES {
      i := FifthRecord(records, ip, end, n - 1);
    } else {
      i := n - 1;
    }
  }

  /** After the fifth record of a window, only handlers pending at it can add to that window. */
  lemma LateAuthorsWerePending(records: seq<Record>, ip: RL.Ip, end: int, i: nat)
    requires RecordsOk(records) && i < |records|
    requires RL.InWindow(TimesOf(records[..i + 1], ip), end) == RL.RATE_LIMIT_MAX_FAILURES
    ensures Authors(records, ip, end, i + 1) <= records[i].pending - {records[i].author}
  {
    forall j: nat | i < j < |records| && Hits(records[j], ip, end)
      ensures records[j].author in records[i].pending - {records[i].author}
    {
      assert RecordOk(records, j) && RecordPairOk(records, i, j);
      if i < records[j].check.seen {
        SeenWindowLimits(records, ip, end, i + 1, records[j].check);
      }
    }
  }

  /**
   * The exact count: a window that holds five failures of an IP or more holds the first five and
   * one for each handler that records inside it after the fifth, record `i`; all of those were
   * pending, past their check, when the fifth was recorded.
   */
  lemma WindowExact(records: seq<Record>, ip: RL.Ip, end: int) returns (i: nat)
    requires RecordsOk(records)
    requires RL.InWindow(TimesOf(records, ip), end) >= RL.RATE_LIMIT_MAX_FAILURES
    ensures i < |records| && Hits(records[i], ip, end) && records[i].author in records[i].pending
    ensures RL.InWindow(TimesOf(records[..i + 1], ip), end) == RL.RATE_LIMIT_MAX_FAILURES
    ensures RL.InWindow(TimesOf(records, ip), end)
            == RL.RATE_LIMIT_MAX_FAILURES + |Authors(records, ip, end, i + 1)|
    ensures Authors(records, ip, end, i + 1) <= records[i].pending - {records[i].author}
  {
    assert records[..|records|] == records;
    i := FifthRecord(records, ip, end, |records|);
    InWindowSplit(records, i + 1, ip, end);
    CountAuthors(records, ip, end, i + 1);
    LateAuthorsWerePending(records, ip, end, i);
    assert RecordOk(records, i);
  }

  /** A window exceeds five exactly when another handler pending at its fifth record records inside it too. */
  lemma ExceedsIff(records: seq<Record>, ip: RL.Ip, end: int, i: nat)
    requires RecordsOk(records) && i < |records|
    requires RL.InWindow(TimesOf(records[..i + 1], ip), end) == RL.RATE_LIMIT_MAX_FAILURES
    ensures RL.InWindow(TimesOf(records, ip), end) > RL.RATE_LIMIT_MAX_FAILURES
            <==> exists j :: i < j < |records| && Hits(records[j], ip, end)
                             && records[j].author in records[i].pending - {records[i].author}
  {
    InWindowSplit(records, i + 1, ip, end);
    CountAuthors(records, ip, end, i + 1);
    LateAuthorsWerePending(records, ip, end, i);
    var late := Authors(records, ip, end, i + 1);
    if late != {} {
      var a :| a in late;
      assert exists j :: i < j < |records| && Hits(records[j], ip, end) && records[j].author == a;
    }
    if j :| i < j < |records| && Hits(records[j], ip, end) {
      assert records[j].author in late;
    }
  }

  /** So it holds at most five plus one for each other handler that was pending at the fifth. */
  lemma WindowBound(records: seq<Record>, ip: RL.Ip, end: int) returns (i: nat)
    requires RecordsOk(records)
    ensures RL.InWindow(TimesOf(records, ip), end) > RL.RATE_LIMIT_MAX_FAILURES ==>
              && i < |records|
              && RL.InWindow(TimesOf(records[..i + 1], ip), end) == RL.RATE_LIMIT_MAX_FAILURES
              && records[i].author in records[i].pending
              && RL.InWindow(TimesOf(records, ip), end)
                 <= RL.RATE_LIMIT_MAX_FAILURES + |records[i].pending - {records[i].author}|
  {
    i := 0;
    if RL.InWindow(TimesOf(records, ip), end) > RL.RATE_LIMIT_MAX_FAILURES {
      i := WindowExact(records, ip, end);
      SubsetSize(Authors(records, ip, end, i + 1), records[i].pending - {records[i].author});
    }
  }

  // ----- failures at a single instant -----

  /** Every record is a failure of `ip` at instant 0. */
  predicate AllAtOnce(records: seq<Record>, ip: RL.Ip) {
    forall i :: 0 <= i < |records| ==> records[i].failure == RL.Failure(ip, 0)
  }

  lemma {:induction false} AllInWindow(records: seq<Record>, ip: RL.Ip)
    requires AllAtOnce(records, ip)
    ensures RL.InWindow(TimesOf(records, ip), 0) == |records|
  {
    if records != [] {
      var n := |records| - 1;
      AllInWindow(records[..n], ip);
      InWindowSplit(records, n, ip, 0);
      assert records[n..] == [records[n]];
      InWindowSingle(records[n], ip, 0);
    }
  }

  lemma {:induction false} FewTimes(records: seq<Record>, ip: RL.Ip)
    ensures |TimesOf(records, ip)| <= |records|
  {
    if records != [] {
      var n := |records| - 1;
      FewTimes(records[..n], ip);
      assert records == records[..n] + [records[n]];
      FailuresConcat(records[..n], [records[n]]);
      RL.TimesOfSnoc(Failures(records[..n]), records[n].failure, ip);
    }
  }

  /** Fewer than five records limit nobody. */
  lemma FewDoNotLimit(records: seq<Record>, ip: RL.Ip, now: int)
    requires |records| < RL.RATE_LIMIT_MAX_FAILURES
    ensures !RL.Limited(TimesOf(records, ip), now)
  {
    FewTimes(records, ip);
    var times := TimesOf(records, ip);
    forall end
      ensures RL.InWindow(times, end) <= |times|
    {
      RL.InWindowAtMost(times, end);
    }
  }
}
