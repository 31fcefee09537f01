/**
 * Resumable file transfer: the receiver `handle_transfer` and its peer `send_file`.
 *
 * The directory is a map from names to bytes and the hash is an arbitrary function, so nothing
 * below relies on SHA-256 being collision-free.
 */
module FileTransfer {
  import opened Base
  import opened FreeName

  type Hash = seq<byte> -> seq<byte>

  const CHUNK: nat := 65536

  /** The offer as the receiver uses it, with the sanitized name. */
  datatype Offer = Offer(name: string, size: nat, sha256: seq<byte>)

  /**
   * What may fail in one attempt: preparing the part file (the directory, its metadata, opening
   * or creating it), the connection or the disk during reception, anything from then up to the
   * rename, and deleting the part file, an error that the receiver ignores.
   */
  datatype Faults = Faults(open: bool, receive: bool, finish: bool, delete: bool)

  const NONE := Faults(false, false, false, false)

  /** The raw bytes that arrive and get written during one attempt, and what fails. */
  datatype Feed = Feed(data: seq<byte>, faults: Faults)

  datatype Outcome =
    | TooLarge
    | Incomplete
    | Mismatch
    | IoError
    | Complete(dest: string)

  function PartName(name: string): string {
    name + ".part"
  }

  predicate WithinLimit(limit: nat, size: nat) {
    limit == 0 || size <= limit
  }

  // ----- the receiver -----

  predicate Resumes(dir: Dir, offer: Offer) {
    PartName(offer.name) in dir && |dir[PartName(offer.name)]| < offer.size
  }

  /** The bytes kept from a leftover part file. */
  function Kept(dir: Dir, offer: Offer): (kept: seq<byte>)
    ensures |kept| <= offer.size
  {
    if Resumes(dir, offer) then dir[PartName(offer.name)] else []
  }

  function StartOffset(dir: Dir, offer: Offer): nat {
    |Kept(dir, offer)|
  }

  /** The bytes the receiver takes from the stream: at most what is missing. */
  function Taken(dir: Dir, offer: Offer, feed: Feed): seq<byte> {
    var remaining := offer.size - StartOffset(dir, offer);
    if |feed.data| < remaining then feed.data else feed.data[..remaining]
  }

  /** The directory after trying to delete the part file. */
  function Discard(dir: Dir, part: string, feed: Feed): Dir {
    if feed.faults.delete then dir else dir - {part}
  }

  ghost function Receive(hash: Hash, limit: nat, dir: Dir, offer: Offer, feed: Feed): (Dir, Outcome) {
    if !WithinLimit(limit, offer.size) then (dir, TooLarge)
    else if feed.faults.open then (dir, IoError)
    else
      var part := PartName(offer.name);
      var content := Kept(dir, offer) + Taken(dir, offer, feed);
      var dir1 := dir[part := content];
      if |content| < offer.size then
        if feed.faults.receive then (dir1, IoError) else (Discard(dir1, part, feed), Incomplete)
      else if feed.faults.finish then (dir1, IoError)
      else if hash(content) == offer.sha256 then
        var dest := Free(dir1, offer.name);
        ((dir1 - {part})[dest := content], Complete(dest))
      else (Discard(dir1, part, feed), Mismatch)
  }

  // ----- the sender -----

  function OfferOf(hash: Hash, name: string, file: seq<byte>): Offer {
    Offer(name, |file|, hash(file))
  }

  /** What the sender writes after `FileAccept`: the file from the accepted offset to its end. */
  function Sent(file: seq<byte>, startOffset: nat): seq<byte>
    requires startOffset <= |file|
  {
    file[startOffset..]
  }

  /** One attempt that nothing interrupts. */
  ghost function Attempt(hash: Hash, limit: nat, dir: Dir, name: string, file: seq<byte>): (Dir, Outcome) {
    var offer := OfferOf(hash, name, file);
    Receive(hash, limit, dir, offer, Feed(Sent(file, StartOffset(dir, offer)), NONE))
  }

  // ----- one attempt -----

  /** An offer is refused exactly when there is a limit and the offer exceeds it; nothing is touched then. */
  lemma TooLargeIff(hash: Hash, limit: nat, dir: Dir, offer: Offer, feed: Feed)
    ensures var (dir', o) := Receive(hash, limit, dir, offer, feed);
            && (o.TooLarge? <==> limit > 0 && offer.size > limit)
            && (o.TooLarge? ==> dir' == dir)
  {
  }

  /** The bytes of a usable leftover: a part file shorter than the offer. */
  function Leftover(dir: Dir, offer: Offer): seq<byte> {
    var part := offer.name + ".part";
    if part in dir && |dir[part]| < offer.size then dir[part] else []
  }

  /**
   * What decides the outcome of an offer within the limit: how far the leftover and the bytes that
   * arrive reach, the faults on the way, and the hash of the first `size` bytes. A part file is
   * left behind exactly by an I/O error after it was opened and by a deletion that fails.
   */
  lemma OutcomeMeans(hash: Hash, limit: nat, dir: Dir, offer: Offer, feed: Feed)
    requires !(limit > 0 && offer.size > limit)
    ensures var (dir', o) := Receive(hash, limit, dir, offer, feed);
            var all := Leftover(dir, offer) + feed.data;
            var full := |all| >= offer.size;
            var part, f := offer.name + ".part", feed.faults;
            && (o.IoError? <==> f.open || (!full && f.receive) || (full && f.finish))
            && (o.Incomplete? <==> !f.open && !full && !f.receive)
            && (o.Complete? <==> !f.open && full && !f.finish && hash(all[..offer.size]) == offer.sha256)
            && (o.Mismatch? <==> !f.open && full && !f.finish && hash(all[..offer.size]) != offer.sha256)
            && (!f.open ==>
                  (part in dir' <==> o.IoError? || (!o.Complete? && f.delete))
                  && (part in dir' ==> dir'[part] == if full then all[..offer.size] else all))
            && (o.Complete? ==> o.dest in dir' && dir'[o.dest] == all[..offer.size])
  {
    var kept := Kept(dir, offer);
    var all := kept + feed.data;
    assert kept == Leftover(dir, offer);
    assert kept + Taken(dir, offer, feed) == if |all| >= offer.size then all[..offer.size] else all;
    CompleteMeans(hash, limit, dir, offer, feed);
  }

  /** After a connection breaks, the next attempt is asked for exactly what is still missing. */
  lemma InterruptedResumes(hash: Hash, limit: nat, dir: Dir, offer: Offer, feed: Feed)
    requires !(limit > 0 && offer.size > limit) && !feed.faults.open && feed.faults.receive
    requires StartOffset(dir, offer) + |feed.data| < offer.size
    ensures var (dir', o) := Receive(hash, limit, dir, offer, feed);
            o.IoError? && StartOffset(dir', offer) == StartOffset(dir, offer) + |feed.data|
  {
    OutcomeMeans(hash, limit, dir, offer, feed);
  }

  /**
   * Completion means a new final file of the offered length and hash, under a name that was
   * free and is not the part file, and the part file is gone.
   */
  lemma CompleteMeans(hash: Hash, limit: nat, dir: Dir, offer: Offer, feed: Feed)
    ensures var (dir', o) := Receive(hash, limit, dir, offer, feed);
            o.Complete? ==>
              && o.dest !in dir && o.dest != PartName(offer.name)
              && o.dest in dir' && PartName(offer.name) !in dir'
              && |dir'[o.dest]| == offer.size && hash(dir'[o.dest]) == offer.sha256
              && StartOffset(dir, offer) + |Taken(dir, offer, feed)| == offer.size
  {
    var part := PartName(offer.name);
    var content := Kept(dir, offer) + Taken(dir, offer, feed);
    assert Free(dir[part := content], offer.name) !in dir[part := content];
  }

  /** Every entry except the part file keeps its name and bytes; only a completion adds one. */
  lemma OtherEntriesKept(hash: Hash, limit: nat, dir: Dir, offer: Offer, feed: Feed)
    ensures var (dir', o) := Receive(hash, limit, dir, offer, feed);
            var part := PartName(offer.name);
            && (forall n :: n in dir && n != part ==> n in dir' && dir'[n] == dir[n])
            && dir'.Keys - {part} == (dir.Keys - {part}) + (if o.Complete? then {o.dest} else {})
            && (o.Complete? ==> o.dest !in dir && o.dest != part)
  {
    DestIsNew(hash, limit, dir, offer, feed);
    OtherNames(hash, limit, dir, offer, feed);
    var (dir', o) := Receive(hash, limit, dir, offer, feed);
    NamesToKeys(dir, dir', PartName(offer.name), if o.Complete? then {o.dest} else {});
  }

  lemma DestIsNew(hash: Hash, limit: nat, dir: Dir, offer: Offer, feed: Feed)
    ensures var o := Receive(hash, limit, dir, offer, feed).1;
            o.Complete? ==> o.dest !in dir && o.dest != PartName(offer.name)
  {
    CompleteMeans(hash, limit, dir, offer, feed);
  }

  lemma NamesToKeys(dir: Dir, dir': Dir, part: string, added: set<string>)
    requires part !in added && forall n :: n != part ==> (n in dir' <==> n in dir || n in added)
    ensures dir'.Keys - {part} == (dir.Keys - {part}) + added
  {
  }

  lemma OtherNames(hash: Hash, limit: nat, dir: Dir, offer: Offer, feed: Feed)
    ensures var (dir', o) := Receive(hash, limit, dir, offer, feed);
            var part := PartName(offer.name);
            forall n :: n != part ==> (n in dir' <==> n in dir || (o.Complete? && n == o.dest))
  {
  }

  /** An uninterrupted attempt completes, or finds the leftover wrong and removes it. */
  lemma AttemptCompletesOrCleans(hash: Hash, limit: nat, dir: Dir, name: string, file: seq<byte>)
    requires WithinLimit(limit, |file|)
    ensures var (dir', o) := Attempt(hash, limit, dir, name, file);
            && (o.Complete? || (o.Mismatch? && PartName(name) !in dir'))
            && (o.Mismatch? ==> Resumes(dir, OfferOf(hash, name, file)))
  {
    var offer := OfferOf(hash, name, file);
    if !Resumes(dir, offer) {
      assert Kept(dir, offer) + Taken(dir, offer, Feed(Sent(file, 0), NONE)) == file;
    }
  }

  /** Without a usable leftover, the final file is the sent file itself. */
  lemma FreshAttemptDelivers(hash: Hash, limit: nat, dir: Dir, name: string, file: seq<byte>)
    requires WithinLimit(limit, |file|) && !Resumes(dir, OfferOf(hash, name, file))
    ensures var (dir', o) := Attempt(hash, limit, dir, name, file);
            o.Complete? && o.dest in dir' && dir'[o.dest] == file
  {
    var offer := OfferOf(hash, name, file);
    assert Kept(dir, offer) + Taken(dir, offer, Feed(Sent(file, 0), NONE)) == file;
  }

  /**
   * For any starting directory and any file within the limit, at most two uninterrupted attempts
   * complete the transfer, however wrong the leftover part file was.
   */
  lemma TwoAttemptsSuffice(hash: Hash, limit: nat, dir: Dir, name: string, file: seq<byte>)
    requires limit == 0 || |file| <= limit
    ensures var (dir1, o1) := Attempt(hash, limit, dir, name, file);
            var (dir2, o2) := Attempt(hash, limit, dir1, name, file);
            || (o1.Complete? && o1.dest in dir1
                && |dir1[o1.dest]| == |file| && hash(dir1[o1.dest]) == hash(file))
            || (o1.Mismatch? && o2.Complete? && o2.dest in dir2 && dir2[o2.dest] == file)
  {
    var offer := OfferOf(hash, name, file);
    CompleteMeans(hash, limit, dir, offer, Feed(Sent(file, StartOffset(dir, offer)), NONE));
    AttemptCompletesOrCleans(hash, limit, dir, name, file);
    var (dir1, o1) := Attempt(hash, limit, dir, name, file);
    if o1.Mismatch? {
      FreshAttemptDelivers(hash, limit, dir1, name, file);
    }
  }

  // ----- interrupted attempts of one file -----

  /** The leftover, if any, is a beginning of the file. */
  predicate HonestPart(dir: Dir, name: string, file: seq<byte>) {
    PartName(name) in dir ==> dir[PartName(name)] <= file
  }

  /** An attempt that received some beginning of what it asked for, whatever failed. */
  predicate InterruptedFeed(hash: Hash, dir: Dir, name: string, file: seq<byte>, feed: Feed) {
    feed.data <= Sent(file, StartOffset(dir, OfferOf(hash, name, file)))
  }

  lemma KeptIsPrefix(hash: Hash, dir: Dir, name: string, file: seq<byte>, feed: Feed)
    requires HonestPart(dir, name, file) && InterruptedFeed(hash, dir, name, file, feed)
    ensures var offer := OfferOf(hash, name, file);
            Kept(dir, offer) + Taken(dir, offer, feed) <= file
  {
    var offer := OfferOf(hash, name, file);
    var kept := Kept(dir, offer);
    assert kept + Sent(file, |kept|) == file;
  }

  /** Whatever an attempt's outcome, an honest leftover stays honest. */
  lemma AttemptKeepsHonest(hash: Hash, limit: nat, dir: Dir, name: string, file: seq<byte>, feed: Feed)
    requires HonestPart(dir, name, file) && InterruptedFeed(hash, dir, name, file, feed)
    ensures HonestPart(Receive(hash, limit, dir, OfferOf(hash, name, file), feed).0, name, file)
  {
    var offer := OfferOf(hash, name, file);
    KeptIsPrefix(hash, dir, name, file, feed);
    CompleteMeans(hash, limit, dir, offer, feed);
  }

  /** The directory after a sequence of attempts of one file, each interrupted somewhere. */
  ghost function AfterAttempts(
    hash: Hash, limit: nat, dir: Dir, name: string, file: seq<byte>, feeds: seq<Feed>): Dir
  {
    if feeds == [] then dir
    else
      var d := AfterAttempts(hash, limit, dir, name, file, feeds[..|feeds| - 1]);
      Receive(hash, limit, d, OfferOf(hash, name, file), feeds[|feeds| - 1]).0
  }

  /** Each attempt of the sequence feeds a beginning of what it was asked for. */
  ghost predicate AllInterrupted(
    hash: Hash, limit: nat, dir: Dir, name: string, file: seq<byte>, feeds: seq<Feed>)
  {
    forall i :: 0 <= i < |feeds| ==>
      InterruptedFeed(hash, AfterAttempts(hash, limit, dir, name, file, feeds[..i]), name, file, feeds[i])
  }

  lemma {:induction false} AttemptsKeepHonest(
    hash: Hash, limit: nat, dir: Dir, name: string, file: seq<byte>, feeds: seq<Feed>)
    requires HonestPart(dir, name, file) && AllInterrupted(hash, limit, dir, name, file, feeds)
    ensures HonestPart(AfterAttempts(hash, limit, dir, name, file, feeds), name, file)
  {
    if feeds != [] {
      var n := |feeds| - 1;
      assert AllInterrupted(hash, limit, dir, name, file, feeds[..n]) by {
        forall i | 0 <= i < n
          ensures InterruptedFeed(hash, AfterAttempts(hash, limit, dir, name, file, feeds[..n][..i]),
                                  name, file, feeds[i])
        {
          assert feeds[..n][..i] == feeds[..i];
        }
      }
      AttemptsKeepHonest(hash, limit, dir, name, file, feeds[..n]);
      AttemptKeepsHonest(hash, limit, AfterAttempts(hash, limit, dir, name, file, feeds[..n]),
                         name, file, feeds[n]);
    }
  }

  /** From an honest leftover one uninterrupted attempt delivers exactly the file. */
  lemma HonestAttemptDelivers(hash: Hash, limit: nat, dir: Dir, name: string, file: seq<byte>)
    requires WithinLimit(limit, |file|) && HonestPart(dir, name, file)
    ensures var (dir', o) := Attempt(hash, limit, dir, name, file);
            o.Complete? && o.dest in dir' && dir'[o.dest] == file
  {
    var offer := OfferOf(hash, name, file);
    var kept := Kept(dir, offer);
    assert kept <= file;
    assert kept + Taken(dir, offer, Feed(Sent(file, |kept|), NONE)) == file;
  }

  /**
   * Resuming is exact: after any number of interrupted attempts of the same file, starting
   * without a leftover, one uninterrupted attempt completes and delivers exactly the file.
   */
  lemma ResumeDeliversExactly(
    hash: Hash, limit: nat, dir: Dir, name: string, file: seq<byte>, feeds: seq<Feed>)
    requires limit == 0 || |file| <= limit
    requires PartName(name) !in dir
    requires AllInterrupted(hash, limit, dir, name, file, feeds)
    ensures var d := AfterAttempts(hash, limit, dir, name, file, feeds);
            var (d', o) := Attempt(hash, limit, d, name, file);
            o.Complete? && o.dest in d' && d'[o.dest] == file
  {
    AttemptsKeepHonest(hash, limit, dir, name, file, feeds);
    HonestAttemptDelivers(hash, limit, AfterAttempts(hash, limit, dir, name, file, feeds), name, file);
  }

  // ----- sequences of transfers -----

  datatype Transfer = Transfer(offer: Offer, feed: Feed)

  ghost function AfterAll(hash: Hash, limit: nat, dir: Dir, transfers: seq<Transfer>): Dir {
    if transfers == [] then dir
    else
      var d := AfterAll(hash, limit, dir, transfers[..|transfers| - 1]);
      var t := transfers[|transfers| - 1];
      Receive(hash, limit, d, t.offer, t.feed).0
  }

  /**
   * The transfer leaves entry `n` holding `bytes` alone: `n` is not its part file, the offer is
   * refused, the part file cannot be opened, or it fails with the entry's bytes back in place.
   */
  predicate Spares(hash: Hash, limit: nat, n: string, bytes: seq<byte>, t: Transfer) {
    || PartName(t.offer.name) != n
    || !WithinLimit(limit, t.offer.size)
    || t.feed.faults.open
    || if |bytes| < t.offer.size then
         t.feed.data == [] && (t.feed.faults.receive || t.feed.faults.delete)
       else
         && |bytes| == t.offer.size && bytes <= t.feed.data
         && (t.feed.faults.finish || (t.feed.faults.delete && hash(bytes) != t.offer.sha256))
  }

  ghost predicate Holds(dir: Dir, n: string, bytes: seq<byte>) {
    n in dir && dir[n] == bytes
  }

  /** One transfer keeps an entry's bytes exactly when it spares it. */
  lemma EntryKeptIff(hash: Hash, limit: nat, dir: Dir, t: Transfer, n: string)
    requires n in dir
    ensures Holds(Receive(hash, limit, dir, t.offer, t.feed).0, n, dir[n]) <==> Spares(hash, limit, n, dir[n], t)
  {
    OtherEntriesKept(hash, limit, dir, t.offer, t.feed);
    var taken := Taken(dir, t.offer, t.feed);
    if PartName(t.offer.name) == n {
      if Resumes(dir, t.offer) {
        assert dir[n] + taken == dir[n] <==> taken == [];
      } else {
        assert [] + taken == taken;
        assert |dir[n]| == t.offer.size ==> (taken == dir[n] <==> dir[n] <= t.feed.data);
      }
    }
  }

  /** Entry `n` holds `bytes` after every transfer of the sequence. */
  ghost predicate HoldsThroughout(
    hash: Hash, limit: nat, dir: Dir, transfers: seq<Transfer>, n: string, bytes: seq<byte>)
  {
    forall k :: 0 <= k <= |transfers| ==> Holds(AfterAll(hash, limit, dir, transfers[..k]), n, bytes)
  }

  predicate AllSpare(hash: Hash, limit: nat, n: string, bytes: seq<byte>, transfers: seq<Transfer>) {
    forall i :: 0 <= i < |transfers| ==> Spares(hash, limit, n, bytes, transfers[i])
  }

  lemma AfterOneMore(hash: Hash, limit: nat, dir: Dir, transfers: seq<Transfer>, k: nat)
    requires k < |transfers|
    ensures AfterAll(hash, limit, dir, transfers[..k + 1])
            == Receive(hash, limit, AfterAll(hash, limit, dir, transfers[..k]),
                       transfers[k].offer, transfers[k].feed).0
  {
    assert transfers[..k + 1][..k] == transfers[..k];
  }

  lemma {:induction false} SparedUpTo(hash: Hash, limit: nat, dir: Dir, transfers: seq<Transfer>, n: string, k: nat)
    requires n in dir && AllSpare(hash, limit, n, dir[n], transfers) && k <= |transfers|
    ensures Holds(AfterAll(hash, limit, dir, transfers[..k]), n, dir[n])
  {
    if k > 0 {
      SparedUpTo(hash, limit, dir, transfers, n, k - 1);
      AfterOneMore(hash, limit, dir, transfers, k - 1);
      EntryKeptIff(hash, limit, AfterAll(hash, limit, dir, transfers[..k - 1]), transfers[k - 1], n);
    }
  }

  /** Over every sequence of transfers and outcomes, an entry keeps its bytes throughout exactly when each spares it. */
  lemma EntryKeptThroughoutIff(hash: Hash, limit: nat, dir: Dir, transfers: seq<Transfer>, n: string)
    requires n in dir
    ensures HoldsThroughout(hash, limit, dir, transfers, n, dir[n]) <==> AllSpare(hash, limit, n, dir[n], transfers)
  {
    if AllSpare(hash, limit, n, dir[n], transfers) {
      forall k | 0 <= k <= |transfers|
        ensures Holds(AfterAll(hash, limit, dir, transfers[..k]), n, dir[n])
      {
        SparedUpTo(hash, limit, dir, transfers, n, k);
      }
    }
    if HoldsThroughout(hash, limit, dir, transfers, n, dir[n]) {
      forall i | 0 <= i < |transfers|
        ensures Spares(hash, limit, n, dir[n], transfers[i])
      {
        assert Holds(AfterAll(hash, limit, dir, transfers[..i + 1]), n, dir[n]);
        AfterOneMore(hash, limit, dir, transfers, i);
        EntryKeptIff(hash, limit, AfterAll(hash, limit, dir, transfers[..i]), transfers[i], n);
      }
    }
  }

  predicate UsesPart(transfers: seq<Transfer>, n: string) {
    exists i :: 0 <= i < |transfers| && PartName(transfers[i].offer.name) == n
  }

  /** In particular an entry that is no transfer's part file is kept, whatever happens. */
  lemma TransfersKeepEntries(hash: Hash, limit: nat, dir: Dir, transfers: seq<Transfer>, n: string)
    requires n in dir && !UsesPart(transfers, n)
    ensures Holds(AfterAll(hash, limit, dir, transfers), n, dir[n])
  {
    EntryKeptThroughoutIff(hash, limit, dir, transfers, n);
    assert transfers[..|transfers|] == transfers;
  }

  /**
   * A completed file, of the offered length and hash, survives the transfers after it exactly
   * when each of them spares it; those that do not are transfers whose part file has its name.
   */
  lemma CompletedFileSurvivesIff(
    hash: Hash, limit: nat, dir: Dir, offer: Offer, feed: Feed, later: seq<Transfer>)
    requires Receive(hash, limit, dir, offer, feed).1.Complete?
    ensures var (dir', o) := Receive(hash, limit, dir, offer, feed);
            && o.dest in dir' && |dir'[o.dest]| == offer.size && hash(dir'[o.dest]) == offer.sha256
            && (HoldsThroughout(hash, limit, dir', later, o.dest, dir'[o.dest])
                <==> AllSpare(hash, limit, o.dest, dir'[o.dest], later))
  {
    CompleteMeans(hash, limit, dir, offer, feed);
    var (dir', o) := Receive(hash, limit, dir, offer, feed);
    EntryKeptThroughoutIff(hash, limit, dir', later, o.dest);
  }

  lemma FirstFileKeepsItsName(hash: Hash, name: string, content: seq<byte>)
    requires PartName(name) != name
    ensures Receive(hash, 0, map[], OfferOf(hash, name, content), Feed(content, NONE))
            == (map[name := content], Complete(name))
  {
    var part := PartName(name);
    var dir1: Dir := map[part := content];
    assert IsLeastFree(dir1, name, 0);
    LeastFreeUnique(dir1, name, 0, FreeFrom(dir1, name, 0));
    var offer := OfferOf(hash, name, content);
    assert Kept(map[], offer) + Taken(map[], offer, Feed(content, NONE)) == content;
    assert (dir1 - {part})[name := content] == map[name := content];
  }

  /**
   * Losing a completed file takes no bad luck: when it is called `<name>.part`, any offer of
   * `<name>` with more bytes whose stream ends cleanly before its first byte deletes it.
   */
  lemma CompletedPartFileCanBeLost(hash: Hash, name: string, content: seq<byte>, size: nat, sha256: seq<byte>)
    requires |content| < size
    ensures var first := Receive(hash, 0, map[], OfferOf(hash, PartName(name), content), Feed(content, NONE));
            && first == (map[PartName(name) := content], Complete(PartName(name)))
            && Receive(hash, 0, first.0, Offer(name, size, sha256), Feed([], NONE)) == (map[], Incomplete)
  {
    var part := PartName(name);
    assert |PartName(part)| > |part|;
    FirstFileKeepsItsName(hash, part, content);
    var dir: Dir := map[part := content];
    assert content + [] == content;
    assert dir[part := content] - {part} == map[];
  }

  // ----- the loops -----

  /** The receiver's state: the download directory. */
  class Downloads {
    var entries: Dir

    constructor (initial: Dir)
      ensures entries == initial
    {
      entries := initial;
    }

    /** `let _ = remove_file(..)`: a failing deletion goes unnoticed. */
    method DeletePart(part: string, feed: Feed)
      modifies this
      ensures entries == Discard(old(entries), part, feed)
    {
      if !feed.faults.delete {
        entries := entries - {part};
      }
    }

    /**
     * `handle_transfer` from the size check on. Reads may return any non-empty piece up to the
     * chunk size; `unread` is what the receiver left in the stream.
     */
    method HandleTransfer(hash: Hash, limit: nat, offer: Offer, feed: Feed)
      returns (outcome: Outcome, startOffset: nat, unread: seq<byte>)
      modifies this
      ensures (entries, outcome) == Receive(hash, limit, old(entries), offer, feed)
      ensures outcome.TooLarge? <==> limit > 0 && offer.size > limit
      ensures outcome.TooLarge? || feed.faults.open ==> entries == old(entries)
      ensures var refused := outcome.TooLarge? || feed.faults.open;
              if refused then unread == feed.data && startOffset == 0
              else
                startOffset == StartOffset(old(entries), offer) == |Leftover(old(entries), offer)| <= offer.size
                && Taken(old(entries), offer, feed) + unread == feed.data
      ensures outcome.Complete? ==> |feed.data| - |unread| == offer.size - startOffset
    {
      startOffset, unread := 0, feed.data;
      if limit != 0 && offer.size > limit {
        return TooLarge, startOffset, unread;
      }
      if feed.faults.open {
        return IoError, startOffset, unread;
      }
      var part := PartName(offer.name);
      if part in entries && |entries[part]| < offer.size {
        startOffset := |entries[part]|;
      } else {
        entries := entries[part := []];
      }
      ghost var dir := old(entries);
      ghost var kept := Kept(dir, offer);
      var received := startOffset;
      ghost var taken: seq<byte> := [];
      assert kept + taken == kept && entries == dir[part := kept];
      // Nothing left to read means that the next read returns zero bytes or an error.
      while received < offer.size && unread != []
        invariant startOffset == |kept| && received == startOffset + |taken| <= offer.size
        invariant taken + unread == feed.data
        invariant entries == dir[part := kept + taken]
        decreases |unread|
      {
        var n :| 0 < n <= CHUNK && n <= |unread| && n <= offer.size - received;
        assert kept + (taken + unread[..n]) == (kept + taken) + unread[..n];
        entries := entries[part := entries[part] + unread[..n]];
        taken := taken + unread[..n];
        unread := unread[n..];
        received := received + n;
      }
      assert taken == Taken(dir, offer, feed);
      if received != offer.size {
        if feed.faults.receive {
          return IoError, startOffset, unread;
        }
        DeletePart(part, feed);
        return Incomplete, startOffset, unread;
      }
      outcome := VerifyAndPromote(hash, offer, feed);
    }

    /** Everything is there: check the hash, then rename the part file or delete it. */
    method VerifyAndPromote(hash: Hash, offer: Offer, feed: Feed) returns (outcome: Outcome)
      requires PartName(offer.name) in entries
      modifies this
      ensures var part, dir := PartName(offer.name), old(entries);
              if feed.faults.finish then outcome == IoError && entries == dir
              else if hash(dir[part]) == offer.sha256 then
                var dest := Free(dir, offer.name);
                outcome == Complete(dest) && entries == (dir - {part})[dest := dir[part]]
              else outcome == Mismatch && entries == Discard(dir, part, feed)
    {
      if feed.faults.finish {
        return IoError;
      }
      var part := PartName(offer.name);
      if hash(entries[part]) == offer.sha256 {
        var dest, tries := UniqueDestPath(entries, offer.name);
        entries := (entries - {part})[dest := entries[part]];
        outcome := Complete(dest);
      } else {
        DeletePart(part, feed);
        outcome := Mismatch;
      }
    }
  }

  /** `send_file` after the accept: seek, then read and write chunks to the end of the file. */
  method SendFrom(file: seq<byte>, startOffset: nat) returns (stream: seq<byte>, sentBytes: nat)
    requires startOffset <= |file|
    ensures stream == Sent(file, startOffset) && sentBytes == |file|
  {
    var position := startOffset;
    stream := [];
    sentBytes := startOffset;
    while position < |file|
      invariant startOffset <= position <= |file|
      invariant stream == file[startOffset..position] && sentBytes == position
    {
      var n :| 0 < n <= CHUNK && n <= |file| - position;
      stream := stream + file[position..position + n];
      position := position + n;
      sentBytes := sentBytes + n;
    }
  }
}
