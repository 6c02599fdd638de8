/**
 * The replication engine (core/internal/devicesync/replication.go): local writes, change-log
 * retention, last-write-wins on incoming changes, and catch-up sync with a peer.
 *
 * The reference for everything here is the engine that never prunes: its log is the full
 * history of the device, and pruning may change nothing but the length of the log.
 */
module Replication {
  import opened Common
  import opened DeviceStore

  type int64 = x: int | -0x8000_0000_0000_0000 <= x < 0x8000_0000_0000_0000

  datatype Policy = Policy(timeBased: bool, maxAge: int64, maxCount: int64)

  const DEFAULT_MAX_AGE: int64 := 30 * 24 * 3600 * 1_000_000_000
  const DEFAULT_MAX_COUNT: int64 := 10_000

  function Cutoff(p: Policy, now: int): int {
    now - Milliseconds(if p.maxAge == 0 then DEFAULT_MAX_AGE else p.maxAge)
  }

  /** The count limit after its conversion to an unsigned 64-bit number. */
  function Cap(p: Policy): (cap: nat)
    ensures cap > 0
  {
    var m := if p.maxCount == 0 then DEFAULT_MAX_COUNT else p.maxCount;
    if m >= 0 then m else m + 0x1_0000_0000_0000_0000
  }

  function DropOlder(log: seq<Change>, cutoff: int): seq<Change> {
    if log == [] || log[0].timestamp >= cutoff then log else DropOlder(log[1..], cutoff)
  }

  function Retain(s: State, policy: Option<Policy>, now: int): State {
    match policy
    case None => s
    case Some(p) =>
      if p.timeBased then
        var kept := DropOlder(s.log, Cutoff(p, now));
        if kept == [] then s else s.(log := kept)
      else
        var cap := Cap(p);
        if |s.log| > cap then s.(log := s.log[|s.log| - cap..]) else s
  }

  /** A newer change is applied and logged under the receiver's own next number; others are skipped. */
  function Receive(s: State, e: Change): State {
    if e.timestamp <= TimestampOf(s.records, e.key) then s
    else
      match e.op
      case OpPut => PutIn(s, e.key, e.body, e.timestamp)
      case OpDelete => DeleteIn(s, e.key, e.timestamp)
      case OpUnknown => s
  }

  function ReceiveAll(s: State, es: seq<Change>): State
    decreases |es|
  {
    if es == [] then s else ReceiveAll(Receive(s, es[0]), es[1..])
  }

  datatype Plan = Increment(entries: seq<Change>) | Dump

  function SyncPlan(s: State, peerLatest: nat): Plan {
    if peerLatest >= s.latest then Increment([])
    else if FirstSeq(s.log) > 0 && peerLatest < FirstSeq(s.log) then Dump
    else Increment(After(s.log, peerLatest))
  }

  datatype Request =
    | DoPut(key: Key, body: Bytes, now: int)
    | DoDelete(key: Key, now: int)
    | DoReceive(change: Change)
    | DoRestore(records: seq<Record>)

  /** Only a local put enforces retention. */
  function Serve(policy: Option<Policy>, s: State, q: Request): State {
    match q
    case DoPut(key, body, now) => Retain(PutIn(s, key, body, now), policy, now)
    case DoDelete(key, now) => DeleteIn(s, key, now)
    case DoReceive(e) => Receive(s, e)
    case DoRestore(records) => RestoreIn(s, records)
  }

  function Run(policy: Option<Policy>, s: State, qs: seq<Request>): State
    decreases |qs|
  {
    if qs == [] then s else Run(policy, Serve(policy, s, qs[0]), qs[1..])
  }

  /** What a history means: the records left by its puts and deletes, in order. */
  function Replay(log: seq<Change>): map<Key, Record> {
    if log == [] then map[]
    else
      var before, e := Replay(log[..|log| - 1]), log[|log| - 1];
      match e.op
      case OpPut => before[e.key := Record(e.key, e.body, e.timestamp)]
      case OpDelete => before - {e.key}
      case OpUnknown => before
  }

  lemma ReplayAppend(log: seq<Change>, e: Change)
    ensures Replay(log + [e]) ==
            match e.op
            case OpPut => Replay(log)[e.key := Record(e.key, e.body, e.timestamp)]
            case OpDelete => Replay(log) - {e.key}
            case OpUnknown => Replay(log)
  {
    assert (log + [e])[..|log|] == log;
  }

  // ---------------------------------------------------------------------------------------
  // Retention
  // ---------------------------------------------------------------------------------------

  /** `full` holds its whole history: numbered 1, 2, ... without a gap, and replaying to its records. */
  ghost predicate Complete(full: State) {
    && GapFree(full)
    && |full.log| == full.latest
    && full.records == Replay(full.log)
    && Keyed(full.records)
    && forall e :: e in full.log ==> e.op != OpUnknown
  }

  /** `s` is `full` with some proper prefix of the log forgotten and nothing else different. */
  ghost predicate Prunes(s: State, full: State) {
    && s.records == full.records
    && s.latest == full.latest
    && GapFree(s)
    && |s.log| <= |full.log|
    && s.log == full.log[|full.log| - |s.log|..]
  }

  lemma {:induction false} DropOlderSlices(log: seq<Change>, cutoff: int)
    ensures var kept := DropOlder(log, cutoff); var d := |log| - |kept|;
            && d >= 0
            && kept == log[d..]
            && (forall i :: 0 <= i < d ==> log[i].timestamp < cutoff)
            && (kept != [] ==> kept[0].timestamp >= cutoff)
  {
    if log != [] && log[0].timestamp < cutoff {
      DropOlderSlices(log[1..], cutoff);
      var d := |log[1..]| - |DropOlder(log[1..], cutoff)|;
      assert log[1..][d..] == log[d + 1..];
      assert forall i :: 0 < i < d + 1 ==> log[i] == log[1..][i - 1];
    }
  }

  /** Truncating at the first recent entry's number keeps exactly the recent suffix. */
  lemma TruncateByAge(s: State, cutoff: int)
    requires GapFree(s) && DropOlder(s.log, cutoff) != []
    ensures DropBelow(s.log, FirstSeq(DropOlder(s.log, cutoff))) == DropOlder(s.log, cutoff)
  {
    DropOlderSlices(s.log, cutoff);
    DropBelowSlices(s.log, FirstSeq(s.log), FirstSeq(DropOlder(s.log, cutoff)));
  }

  /** Asking for all changes, and cutting at the first recent one's number, if there is one. */
  lemma AgeCut(s: State, cutoff: int)
    requires GapFree(s)
    ensures After(s.log, 0) == s.log && forall e :: e in s.log ==> e.number > 0
    ensures var kept := DropOlder(s.log, cutoff);
            if FirstSeq(kept) > 0 then kept != [] && DropBelow(s.log, FirstSeq(kept)) == kept else kept == []
  {
    AfterAll(s.log, 0);
    DropOlderSlices(s.log, cutoff);
    if DropOlder(s.log, cutoff) != [] {
      TruncateByAge(s, cutoff);
    }
  }

  /** Truncating at latest - cap + 1 keeps exactly the last cap entries. */
  lemma TruncateByCount(s: State, cap: nat)
    requires GapFree(s) && 0 < cap < |s.log|
    ensures DropBelow(s.log, s.latest - cap + 1) == s.log[|s.log| - cap..]
  {
    DropBelowSlices(s.log, FirstSeq(s.log), s.latest - cap + 1);
  }

  lemma RetainIsGapFree(s: State, policy: Option<Policy>, now: int)
    requires GapFree(s)
    ensures GapFree(Retain(s, policy, now))
  {
    if policy.Some? && policy.value.timeBased {
      DropOlderSlices(s.log, Cutoff(policy.value, now));
    }
  }

  lemma RetainPrunes(s: State, full: State, policy: Option<Policy>, now: int)
    requires Prunes(s, full)
    ensures Prunes(Retain(s, policy, now), full)
  {
    if policy.Some? && policy.value.timeBased {
      DropOlderSlices(s.log, Cutoff(policy.value, now));
    }
  }

  /** Appending the next entry to both logs keeps one a suffix of the other. */
  lemma AppendPrunes(s: State, full: State, s': State, full': State, e: Change)
    requires Prunes(s, full) && e.number == full.latest + 1
    requires s'.log == s.log + [e] && full'.log == full.log + [e]
    requires s'.latest == s.latest + 1 && full'.latest == full.latest + 1 && s'.records == full'.records
    ensures Prunes(s', full')
  {
    assert full'.log[|full'.log| - |s'.log|..] == full.log[|full.log| - |s.log|..] + [e];
  }

  lemma PutCompletes(full: State, key: Key, body: Bytes, now: int)
    requires Complete(full)
    ensures Complete(PutIn(full, key, body, now))
  {
    ReplayAppend(full.log, Change(full.latest + 1, now, key, OpPut, body));
  }

  lemma DeleteCompletes(full: State, key: Key, now: int)
    requires Complete(full)
    ensures Complete(DeleteIn(full, key, now))
  {
    ReplayAppend(full.log, Change(full.latest + 1, now, key, OpDelete, []));
  }

  lemma PutPrunes(s: State, full: State, key: Key, body: Bytes, now: int)
    requires Complete(full) && Prunes(s, full)
    ensures Complete(PutIn(full, key, body, now)) && Prunes(PutIn(s, key, body, now), PutIn(full, key, body, now))
  {
    PutCompletes(full, key, body, now);
    AppendPrunes(s, full, PutIn(s, key, body, now), PutIn(full, key, body, now),
                 Change(full.latest + 1, now, key, OpPut, body));
  }

  lemma DeletePrunes(s: State, full: State, key: Key, now: int)
    requires Complete(full) && Prunes(s, full)
    ensures Complete(DeleteIn(full, key, now)) && Prunes(DeleteIn(s, key, now), DeleteIn(full, key, now))
  {
    DeleteCompletes(full, key, now);
    AppendPrunes(s, full, DeleteIn(s, key, now), DeleteIn(full, key, now),
                 Change(full.latest + 1, now, key, OpDelete, []));
  }

  lemma ReceivePrunes(s: State, full: State, e: Change)
    requires Complete(full) && Prunes(s, full)
    ensures Complete(Receive(full, e)) && Prunes(Receive(s, e), Receive(full, e))
  {
    if e.timestamp > TimestampOf(s.records, e.key) {
      match e.op
      case OpPut => PutPrunes(s, full, e.key, e.body, e.timestamp);
      case OpDelete => DeletePrunes(s, full, e.key, e.timestamp);
      case OpUnknown =>
    }
  }

  lemma {:induction false} RestorePrunes(s: State, full: State, records: seq<Record>)
    requires Complete(full) && Prunes(s, full)
    ensures Complete(RestoreIn(full, records)) && Prunes(RestoreIn(s, records), RestoreIn(full, records))
    decreases |records|
  {
    if records != [] {
      var r := records[0];
      if r.timestamp > TimestampOf(s.records, r.key) {
        PutPrunes(s, full, r.key, r.body, r.timestamp);
        RestorePrunes(PutIn(s, r.key, r.body, r.timestamp), PutIn(full, r.key, r.body, r.timestamp), records[1..]);
      } else {
        RestorePrunes(s, full, records[1..]);
      }
    }
  }

  lemma ServePrunes(policy: Option<Policy>, s: State, full: State, q: Request)
    requires Complete(full) && Prunes(s, full)
    ensures Complete(Serve(None, full, q)) && Prunes(Serve(policy, s, q), Serve(None, full, q))
  {
    match q
    case DoPut(key, body, now) =>
      PutPrunes(s, full, key, body, now);
      RetainPrunes(PutIn(s, key, body, now), PutIn(full, key, body, now), policy, now);
    case DoDelete(key, now) =>
      DeletePrunes(s, full, key, now);
    case DoReceive(e) =>
      ReceivePrunes(s, full, e);
    case DoRestore(records) =>
      RestorePrunes(s, full, records);
  }

  lemma {:induction false} RunPrunes(policy: Option<Policy>, s: State, full: State, qs: seq<Request>)
    requires Complete(full) && Prunes(s, full)
    ensures Complete(Run(None, full, qs)) && Prunes(Run(policy, s, qs), Run(None, full, qs))
    decreases |qs|
  {
    if qs != [] {
      ServePrunes(policy, s, full, qs[0]);
      RunPrunes(policy, Serve(policy, s, qs[0]), Serve(None, full, qs[0]), qs[1..]);
    }
  }

  /**
   * Retention over every run: whatever the policy and the requests, the records and the latest
   * number are those of the never-pruning engine, the stored log is a gap-free suffix of the
   * full history, it is not empty once anything was written, and the records replay that history.
   */
  lemma RetentionForgetsOnlyHistory(policy: Option<Policy>, qs: seq<Request>)
    ensures var s, full := Run(policy, EMPTY, qs), Run(None, EMPTY, qs);
            && Complete(full)
            && Prunes(s, full)
            && (full.log != [] ==> s.log != [] && s.log[|s.log| - 1] == full.log[|full.log| - 1])
  {
    RunPrunes(policy, EMPTY, EMPTY, qs);
  }

  /** What one put leaves of the log, for either kind of policy. */
  lemma PutTrimsExactly(p: Policy, s: State, key: Key, body: Bytes, now: int)
    ensures var whole, left := PutIn(s, key, body, now).log, Serve(Some(p), s, DoPut(key, body, now)).log;
            var dropped := |whole| - |left|;
            && dropped >= 0
            && left == whole[dropped..]
            && (!p.timeBased ==> |left| <= Cap(p) && (dropped > 0 ==> |left| == Cap(p)))
            && (p.timeBased && (exists e :: e in whole && e.timestamp >= Cutoff(p, now)) ==>
                  && (forall i :: 0 <= i < dropped ==> whole[i].timestamp < Cutoff(p, now))
                  && left[0].timestamp >= Cutoff(p, now))
            && (p.timeBased && (forall e :: e in whole ==> e.timestamp < Cutoff(p, now)) ==> dropped == 0)
  {
    DropOlderSlices(PutIn(s, key, body, now).log, Cutoff(p, now));
  }

  /** With a nonnegative age the new entry itself is recent, so an age limit always trims. */
  lemma PutTrimsByAge(p: Policy, s: State, key: Key, body: Bytes, now: int)
    requires p.timeBased && p.maxAge >= 0
    ensures var left := Serve(Some(p), s, DoPut(key, body, now)).log;
            left != [] && left[0].timestamp >= Cutoff(p, now)
  {
    PutTrimsExactly(p, s, key, body, now);
    var whole := PutIn(s, key, body, now).log;
    assert whole[|whole| - 1] in whole && whole[|whole| - 1].timestamp >= Cutoff(p, now);
  }

  /** The number of entries a count policy keeps: its own limit, 10000 for 0, and modulo 2^64 below 0. */
  lemma PutKeepsCount(p: Policy, s: State, key: Key, body: Bytes, now: int)
    requires !p.timeBased
    ensures var whole, left := PutIn(s, key, body, now).log, Serve(Some(p), s, DoPut(key, body, now)).log;
            var limit := if p.maxCount > 0 then p.maxCount
                         else if p.maxCount == 0 then 10_000
                         else p.maxCount + 18_446_744_073_709_551_616;
            && |left| == (if |whole| < limit then |whole| else limit)
            && left == whole[|whole| - |left|..]
  {
  }

  /** Older than an age policy allows, in its own nanoseconds; 30 days for 0. */
  predicate TooOld(p: Policy, now: int, e: Change) {
    var age := now - e.timestamp;
    if p.maxAge > 0 then age * 1_000_000 > p.maxAge
    else if p.maxAge == 0 then age > 2_592_000_000
    else (age - 1) * 1_000_000 >= p.maxAge
  }

  lemma TooOldIff(p: Policy, now: int, e: Change)
    ensures TooOld(p, now, e) <==> e.timestamp < Cutoff(p, now)
  {
    MillisecondsTruncates(p.maxAge);
    MillisecondsTruncates(2_592_000_000_000_000);
  }

  /** An age policy drops the longest prefix that is too old, or nothing if everything is. */
  lemma PutKeepsRecent(p: Policy, s: State, key: Key, body: Bytes, now: int)
    requires p.timeBased
    ensures var whole, left := PutIn(s, key, body, now).log, Serve(Some(p), s, DoPut(key, body, now)).log;
            var dropped := |whole| - |left|;
            && dropped >= 0 && left == whole[dropped..]
            && ((forall e :: e in whole ==> TooOld(p, now, e)) ==> dropped == 0)
            && ((exists e :: e in whole && !TooOld(p, now, e)) ==>
                  && (forall i :: 0 <= i < dropped ==> TooOld(p, now, whole[i]))
                  && left != [] && !TooOld(p, now, left[0]))
            && (p.maxAge >= 0 ==> left != [] && !TooOld(p, now, left[0]))
  {
    forall e
      ensures TooOld(p, now, e) <==> e.timestamp < Cutoff(p, now)
    {
      TooOldIff(p, now, e);
    }
    var whole := PutIn(s, key, body, now).log;
    PutTrimsExactly(p, s, key, body, now);
    assert whole[|whole| - 1] in whole && whole[|whole| - 1].timestamp == now;
  }

  /** Nothing but a local put trims: deletes, arrivals and restores only add to the log. */
  lemma OnlyPutsTrim(policy: Option<Policy>, s: State, q: Request)
    requires !q.DoPut?
    ensures s.log <= Serve(policy, s, q).log
    ensures Serve(policy, s, q) == Serve(None, s, q)
  {
    if q.DoRestore? {
      RestoreOnlyAdds(s, q.records);
    }
  }

  lemma {:induction false} RestoreOnlyAdds(s: State, records: seq<Record>)
    ensures s.log <= RestoreIn(s, records).log
    decreases |records|
  {
    if records != [] {
      var r := records[0];
      RestoreOnlyAdds(if r.timestamp > TimestampOf(s.records, r.key) then PutIn(s, r.key, r.body, r.timestamp) else s,
                      records[1..]);
    }
  }

  // ---------------------------------------------------------------------------------------
  // Catch-up
  // ---------------------------------------------------------------------------------------

  /** When entry i was written, its timestamp was above the one stored under its key. */
  ghost predicate Fresh(history: seq<Change>, i: nat)
    requires i < |history|
  {
    history[i].timestamp > TimestampOf(Replay(history[..i]), history[i].key)
  }

  /** The peer stands exactly where this device stood after its first `peer.latest` writes. */
  ghost predicate Mirrors(peer: State, history: seq<Change>) {
    && peer.latest <= |history|
    && peer.records == Replay(history[..peer.latest])
  }

  lemma SliceTwice(log: seq<Change>, i: nat, j: nat)
    requires i + j <= |log|
    ensures log[i..][j..] == log[i + j..]
  {
  }

  /**
   * The incremental branch is taken exactly when the peer's number lies between the first
   * stored entry's and the latest (an up-to-date peer is sent the empty increment), and then
   * nothing the peer misses has been pruned.
   */
  lemma IncrementIsComplete(s: State, full: State, p: nat)
    requires Complete(full) && Prunes(s, full)
    ensures SyncPlan(s, p).Increment? <==> p >= s.latest || p >= FirstSeq(s.log)
    ensures SyncPlan(s, p).Increment? && p <= s.latest ==> SyncPlan(s, p).entries == full.log[p..]
  {
    if s.log != [] && FirstSeq(s.log) <= p < s.latest {
      AfterSlices(s.log, FirstSeq(s.log), p);
      SliceTwice(full.log, |full.log| - |s.log|, p + 1 - FirstSeq(s.log));
    }
  }

  /**
   * A peer that is behind is dumped to without need, having missed nothing that was pruned, exactly
   * if it is one short of the first stored entry: there the gap test is one too strict.
   */
  lemma GapTestIsOneTooStrict(s: State, full: State, p: nat)
    requires Complete(full) && Prunes(s, full) && p < s.latest
    ensures SyncPlan(s, p) == Dump && After(s.log, p) == full.log[p..] <==> p == FirstSeq(s.log) - 1
  {
    if p < FirstSeq(s.log) {
      AfterAll(s.log, p);
    }
  }

  /** So a fresh peer is always dumped to, and without need exactly while nothing has been pruned. */
  lemma FreshPeerIsDumped(s: State, full: State)
    requires Complete(full) && Prunes(s, full) && s.latest > 0
    ensures SyncPlan(s, 0) == Dump
    ensures After(s.log, 0) == full.log <==> s.log == full.log
  {
    AfterAll(s.log, 0);
  }

  lemma {:induction false} ReceiveCountsApplied(t: State, es: seq<Change>)
    ensures t.latest <= ReceiveAll(t, es).latest <= t.latest + |es|
    decreases |es|
  {
    if es != [] {
      ReceiveCountsApplied(Receive(t, es[0]), es[1..]);
    }
  }

  /** A fresh write of the history moves a mirroring peer exactly one write ahead. */
  lemma ReceiveFresh(t: State, history: seq<Change>)
    requires Mirrors(t, history) && t.latest < |history| && Fresh(history, t.latest)
    requires history[t.latest].op != OpUnknown
    ensures var t' := Receive(t, history[t.latest]);
            Mirrors(t', history) && t'.latest == t.latest + 1
  {
    assert history[..t.latest + 1] == history[..t.latest] + [history[t.latest]];
    ReplayAppend(history[..t.latest], history[t.latest]);
  }

  lemma {:induction false} ReceiveRest(t: State, history: seq<Change>)
    requires Mirrors(t, history)
    requires forall i :: 0 <= i < |history| ==> history[i].op != OpUnknown
    ensures var u := ReceiveAll(t, history[t.latest..]);
            && (u.latest == |history| <==> forall i :: t.latest <= i < |history| ==> Fresh(history, i))
            && (u.latest == |history| ==> u.records == Replay(history))
    decreases |history| - t.latest
  {
    var p := t.latest;
    if p == |history| {
      assert history[..p] == history;
    } else {
      assert history[p..][1..] == history[p + 1..];
      if Fresh(history, p) {
        ReceiveFresh(t, history);
        ReceiveRest(Receive(t, history[p]), history);
      } else {
        ReceiveCountsApplied(t, history[p + 1..]);
      }
    }
  }

  /**
   * Catch-up is exact, deletes included: to a peer that mirrors our first writes an increment
   * carries exactly the writes it misses, and applying them makes its records and its number
   * ours, so that a second sync sends nothing, if and only if each of those writes was stamped
   * above the record it replaced. A write in the same millisecond as the one before it breaks
   * the condition, and the peer then stays behind.
   */
  lemma CatchUpIsExact(s: State, full: State, peer: State)
    requires Complete(full) && Prunes(s, full) && Mirrors(peer, full.log)
    requires SyncPlan(s, peer.latest).Increment?
    ensures var entries := SyncPlan(s, peer.latest).entries; var caught := ReceiveAll(peer, entries);
            && entries == full.log[peer.latest..]
            && (caught.latest == s.latest <==>
                  forall i :: peer.latest <= i < |full.log| ==> Fresh(full.log, i))
            && (caught.latest == s.latest ==>
                  caught.records == s.records && SyncPlan(s, caught.latest) == Increment([]))
  {
    IncrementIsComplete(s, full, peer.latest);
    ReceiveRest(peer, full.log);
  }

  /**
   * The mirror condition matters, since numbers count a device's own log: two devices exchange
   * nothing, whatever they hold, exactly when their numbers are equal.
   */
  lemma EqualNumbersHideDifferences(a: State, b: State)
    requires GapFree(a) && GapFree(b)
    ensures SyncPlan(a, b.latest) == Increment([]) && SyncPlan(b, a.latest) == Increment([]) <==> a.latest == b.latest
  {
    if a.latest > b.latest {
      BehindIsSentSomething(a, b.latest);
    } else if b.latest > a.latest {
      BehindIsSentSomething(b, a.latest);
    }
  }

  lemma BehindIsSentSomething(s: State, p: nat)
    requires GapFree(s) && p < s.latest
    ensures SyncPlan(s, p) != Increment([])
  {
    if FirstSeq(s.log) <= p {
      AfterSlices(s.log, FirstSeq(s.log), p);
    }
  }

  lemma RunOne(s: State, q: Request)
    ensures Run(None, s, [q]) == Serve(None, s, q)
  {
    assert [q][1..] == [];
    assert Run(None, Serve(None, s, q), []) == Serve(None, s, q);
  }

  /** And equal numbers say nothing of equal records: two devices that write once differ unless the writes agree. */
  lemma OneWriteEachIff(x: Record, y: Record)
    ensures var a := Run(None, EMPTY, [DoPut(x.key, x.body, x.timestamp)]);
            var b := Run(None, EMPTY, [DoPut(y.key, y.body, y.timestamp)]);
            a.latest == b.latest && (a.records == b.records <==> x == y)
  {
    var a := Run(None, EMPTY, [DoPut(x.key, x.body, x.timestamp)]);
    var b := Run(None, EMPTY, [DoPut(y.key, y.body, y.timestamp)]);
    RunOne(EMPTY, DoPut(x.key, x.body, x.timestamp));
    RunOne(EMPTY, DoPut(y.key, y.body, y.timestamp));
    assert a.records[x.key] == x && b.records[y.key] == y;
    assert a.records.Keys == {x.key} && b.records.Keys == {y.key};
  }

  // ---------------------------------------------------------------------------------------
  // The engine
  // ---------------------------------------------------------------------------------------

  /** What the peer provider answers; `NotConfigured` also stands for a missing send function. */
  datatype Peers = NotConfigured | ProviderFailed | Known(peers: seq<string>)

  datatype Delivery = Entries(entries: seq<Change>) | FullDump(records: seq<Record>)

  /** What the peer answers when asked for its number, the handlers it has, and whether a send succeeds. */
  datatype SyncPeer = SyncPeer(latest: Option<nat>, takesEntries: bool, takesDump: bool, sendSucceeds: bool)

  datatype SyncEnd = Done | Failed | NilCall

  /** The number of the first entry at or after the cutoff; 0 if there is none. */
  method FirstRecent(entries: seq<Change>, cutoff: int) returns (minSeq: nat)
    requires forall e :: e in entries ==> e.number > 0
    ensures minSeq == FirstSeq(DropOlder(entries, cutoff))
  {
    minSeq := 0;
    for i := 0 to |entries|
      invariant DropOlder(entries, cutoff) == DropOlder(entries[i..], cutoff)
    {
      if entries[i].timestamp >= cutoff {
        return entries[i].number;
      }
    }
  }

  class ReplicationEngine {
    const storage: MemStorage
    const retention: Option<Policy>
    /** Every send attempted so far; a failing send is skipped and does not stop the others. */
    var attempts: seq<(string, Change)>

    ghost predicate Valid()
      reads this, storage
    {
      GapFree(storage.S()) && Keyed(storage.records)
    }

    constructor (storage: MemStorage, retention: Option<Policy>)
      ensures this.storage == storage && this.retention == retention && attempts == []
    {
      this.storage, this.retention, attempts := storage, retention, [];
    }

    method Put(key: Key, body: Bytes, now: int, peers: Peers) returns (ok: bool)
      requires Valid()
      modifies this, storage
      ensures Valid()
      ensures storage.S() == Serve(retention, old(storage.S()), DoPut(key, body, now))
      ensures ok == !peers.ProviderFailed?
      ensures |attempts| == old(|attempts|) + if peers.Known? then |peers.peers| else 0
      ensures attempts[..old(|attempts|)] == old(attempts)
      ensures peers.Known? ==> forall i :: 0 <= i < |peers.peers| ==>
                attempts[old(|attempts|) + i] ==
                (peers.peers[i], Change(old(storage.latest) + 1, now, key, OpPut, body))
    {
      var given := storage.Put(key, body, now);
      EnforceRetention(now);
      ok := Broadcast(Change(given, now, key, OpPut, body), peers);
    }

    method EnforceRetention(now: int)
      requires Valid()
      modifies storage
      ensures Valid()
      ensures storage.S() == Retain(old(storage.S()), retention, now)
    {
      RetainIsGapFree(storage.S(), retention, now);
      if retention.None? {
        return;
      }
      var p := retention.value;
      if p.timeBased {
        EnforceAge(p, now);
      } else {
        EnforceCount(p, now);
      }
    }

    method EnforceAge(p: Policy, now: int)
      requires GapFree(storage.S()) && p.timeBased
      modifies storage
      ensures storage.S() == Retain(old(storage.S()), Some(p), now)
    {
      var maxAge := if p.maxAge == 0 then DEFAULT_MAX_AGE else p.maxAge;
      var cutoff := now - Milliseconds(maxAge);
      AgeCut(storage.S(), cutoff);
      var entries := storage.ChangesSince(0);
      assert entries == storage.log;
      var minSeq := FirstRecent(entries, cutoff);
      if minSeq > 0 {
        storage.TruncateChangeLog(minSeq);
      }
    }

    method EnforceCount(p: Policy, now: int)
      requires GapFree(storage.S()) && !p.timeBased
      modifies storage
      ensures storage.S() == Retain(old(storage.S()), Some(p), now)
    {
      var maxCount := Cap(p);
      var latest := storage.LatestSeq();
      if latest == 0 {
        return;
      }
      var minSeq := storage.MinSeq();
      if minSeq == 0 {
        return;
      }
      var total := latest - minSeq + 1;
      if total > maxCount {
        var cutSeq := latest - maxCount + 1;
        TruncateByCount(storage.S(), maxCount);
        storage.TruncateChangeLog(cutSeq);
      }
    }

    method Delete(key: Key, now: int, peers: Peers) returns (ok: bool)
      requires Valid()
      modifies this, storage
      ensures Valid()
      ensures storage.S() == Serve(retention, old(storage.S()), DoDelete(key, now))
      ensures ok == !peers.ProviderFailed?
      ensures |attempts| == old(|attempts|) + if peers.Known? then |peers.peers| else 0
      ensures attempts[..old(|attempts|)] == old(attempts)
      ensures peers.Known? ==> forall i :: 0 <= i < |peers.peers| ==>
                attempts[old(|attempts|) + i] ==
                (peers.peers[i], Change(old(storage.latest) + 1, now, key, OpDelete, []))
    {
      var given := storage.Delete(key, now);
      ok := Broadcast(Change(given, now, key, OpDelete, []), peers);
    }

    method HandleIncoming(e: Change)
      requires Valid()
      modifies storage
      ensures Valid()
      ensures storage.S() == Serve(retention, old(storage.S()), DoReceive(e))
    {
      var existing := storage.GetTimestamp(e.key);
      if e.timestamp <= existing {
        return;
      }
      match e.op
      case OpPut => var _ := storage.Put(e.key, e.body, e.timestamp);
      case OpDelete => var _ := storage.Delete(e.key, e.timestamp);
      case OpUnknown =>
    }

    /**
     * A peer that cannot be asked, a gap without a dump handler, and a failing send are errors; an
     * increment for a peer without an entries handler is a call through nil.
     */
    method SyncWith(peer: SyncPeer) returns (sent: Option<Delivery>, end: SyncEnd)
      requires Valid()
      ensures peer.latest.None? ==> sent == None && end == Failed
      ensures peer.latest.Some? ==>
                match SyncPlan(storage.S(), peer.latest.value)
                case Increment(entries) =>
                  if peer.takesEntries then sent == Some(Entries(entries))
                  else sent == None && end == if peer.latest.value >= storage.latest then Done else NilCall
                case Dump =>
                  if peer.takesDump
                  then sent.Some? && sent.value.FullDump? && ListsOnce(storage.records.Values, sent.value.records)
                  else sent == None && end == Failed
      ensures sent.Some? ==> end == if peer.sendSucceeds then Done else Failed
    {
      if peer.latest.None? {
        return None, Failed;
      }
      var peerSeq := peer.latest.value;
      var sendEnd := if peer.sendSucceeds then Done else Failed;
      var ourLatest := storage.LatestSeq();
      if peerSeq >= ourLatest {
        if peer.takesEntries {
          return Some(Entries([])), sendEnd;
        }
        return None, Done;
      }
      var ourMin := storage.MinSeq();
      if ourMin > 0 && peerSeq < ourMin {
        if !peer.takesDump {
          return None, Failed;
        }
        var all := CollectRecords(storage);
        return Some(FullDump(all)), sendEnd;
      }
      var entries := storage.ChangesSince(peerSeq);
      if !peer.takesEntries {
        return None, NilCall;
      }
      return Some(Entries(entries)), sendEnd;
    }

    method Broadcast(e: Change, peers: Peers) returns (ok: bool)
      modifies this
      ensures ok == !peers.ProviderFailed?
      ensures |attempts| == old(|attempts|) + if peers.Known? then |peers.peers| else 0
      ensures attempts[..old(|attempts|)] == old(attempts)
      ensures peers.Known? ==> forall i :: 0 <= i < |peers.peers| ==>
                attempts[old(|attempts|) + i] == (peers.peers[i], e)
    {
      match peers
      case NotConfigured => ok := true;
      case ProviderFailed => ok := false;
      case Known(ps) =>
        for i := 0 to |ps|
          invariant |attempts| == old(|attempts|) + i && attempts[..old(|attempts|)] == old(attempts)
          invariant forall k :: 0 <= k < i ==> attempts[old(|attempts|) + k] == (ps[k], e)
        {
          attempts := attempts + [(ps[i], e)];
        }
        ok := true;
    }
  }

  /** All records, table by table, as both the full dump and the application's dump collect them. */
  method CollectRecords(storage: MemStorage) returns (all: seq<Record>)
    requires Keyed(storage.records)
    ensures ListsOnce(storage.records.Values, all)
  {
    var tables := storage.ListTables();
    all := [];
    for i := 0 to |tables|
      invariant forall x :: x in all <==> x in storage.records.Values && x.key.table in tables[..i]
      invariant forall a, b :: 0 <= a < b < |all| ==> all[a] != all[b]
    {
      var recs := storage.List(tables[i]);
      assert forall x :: x in recs ==> x.key.table == tables[i];
      assert forall x :: x in recs <==> x in storage.records.Values && x.key.table == tables[i];
      all := all + recs;
    }
    assert forall x :: x in storage.records.Values ==> x.key.table in Tables(storage.records);
  }
}
