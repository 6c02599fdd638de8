/**
 * Several devices of one identity (core/internal/devicesync): every write and delete is broadcast,
 * a broadcast may reach a device late, out of order, repeatedly or never, and devices catch up with
 * one another. Each device runs its own engine with its own retention policy.
 */
module Convergence {
  import opened Common
  import opened DeviceStore
  import opened Replication
  import opened MyDb

  type Device = string

  /** A write as it travels; the sender's number plays no part in receiving it. */
  datatype Entry = Entry(key: Key, op: Op, body: Bytes, timestamp: int)

  /** A delete carries no body that matters. */
  function EntryOf(c: Change): Entry {
    Entry(c.key, c.op, if c.op == OpDelete then [] else c.body, c.timestamp)
  }

  function PutEntry(r: Record): Entry {
    Entry(r.key, OpPut, r.body, r.timestamp)
  }

  function Entries(cs: seq<Change>): set<Entry> {
    set c | c in cs :: EntryOf(c)
  }

  // ---------------------------------------------------------------------------------------
  // One device: the newest entry decides, and a newest delete means absence
  // ---------------------------------------------------------------------------------------

  ghost predicate Deletes(d: Entry, key: Key) {
    d.op == OpDelete && d.key == key
  }

  /** Some seen delete of the key is at least as new. */
  ghost predicate Buried(seen: set<Entry>, key: Key, timestamp: int) {
    exists d :: d in seen && Deletes(d, key) && d.timestamp >= timestamp
  }

  /** A stored record is a newest seen entry; where none is stored, nothing seen outlives the deletes. */
  ghost predicate NewestFor(records: map<Key, Record>, seen: set<Entry>, key: Key) {
    if key in records then
      && records[key].key == key
      && PutEntry(records[key]) in seen
      && forall e :: e in seen && e.key == key ==> e.timestamp <= records[key].timestamp
    else
      forall e :: e in seen && e.key == key ==> Buried(seen, key, e.timestamp)
  }

  ghost predicate Newest(records: map<Key, Record>, seen: set<Entry>) {
    forall k :: NewestFor(records, seen, k)
  }

  /** A put of an absent key of which a newer delete has been seen: the stores keep no tombstone. */
  ghost predicate Revives(records: map<Key, Record>, seen: set<Entry>, e: Entry) {
    e.op == OpPut && e.key !in records && exists d :: d in seen && Deletes(d, e.key) && d.timestamp > e.timestamp
  }

  lemma BuriedIff(seen: set<Entry>, e: Entry, key: Key, timestamp: int)
    ensures Buried(seen + {e}, key, timestamp) <==>
            Buried(seen, key, timestamp) || (Deletes(e, key) && e.timestamp >= timestamp)
  {
    if Buried(seen, key, timestamp) {
      var d :| d in seen && Deletes(d, key) && d.timestamp >= timestamp;
      assert d in seen + {e};
    }
    assert e in seen + {e};
  }

  /** An entry of one key leaves every other key as it was. */
  lemma OtherKeysStay(a: map<Key, Record>, b: map<Key, Record>, seen: set<Entry>, e: Entry, k: Key)
    requires NewestFor(a, seen, k) && k != e.key
    requires k in a <==> k in b
    requires k in a ==> a[k] == b[k]
    ensures NewestFor(b, seen + {e}, k)
  {
    if k !in b {
      forall x | x in seen + {e} && x.key == k
        ensures Buried(seen + {e}, k, x.timestamp)
      {
        BuriedIff(seen, e, k, x.timestamp);
      }
    }
  }

  /** So only the entry's own key decides. */
  lemma OwnKeyDecides(a: map<Key, Record>, b: map<Key, Record>, seen: set<Entry>, e: Entry)
    requires Newest(a, seen)
    requires forall k :: k != e.key ==> (k in a <==> k in b) && (k in a ==> a[k] == b[k])
    ensures Newest(b, seen + {e}) <==> NewestFor(b, seen + {e}, e.key)
  {
    forall k | k != e.key
      ensures NewestFor(b, seen + {e}, k)
    {
      OtherKeysStay(a, b, seen, e, k);
    }
  }

  /** A delete in view buries what was seen before, if it is at least as new or the key was buried already. */
  lemma DeleteBuries(seen: set<Entry>, d: Entry, records: map<Key, Record>)
    requires d.op == OpDelete && NewestFor(records, seen, d.key)
    requires d.key in records ==> d.timestamp >= records[d.key].timestamp
    ensures forall e :: e in seen + {d} && e.key == d.key ==> Buried(seen + {d}, d.key, e.timestamp)
  {
    forall e | e in seen + {d} && e.key == d.key
      ensures Buried(seen + {d}, d.key, e.timestamp)
    {
      BuriedIff(seen, d, d.key, e.timestamp);
    }
  }

  /** Storing a put keeps a device on newest entries exactly when nothing newer of its key was seen. */
  lemma StoreKeepsNewestIff(records: map<Key, Record>, seen: set<Entry>, r: Record)
    requires Newest(records, seen)
    ensures Newest(records[r.key := r], seen + {PutEntry(r)}) <==>
            if r.key in records then r.timestamp >= records[r.key].timestamp
            else forall d :: d in seen && Deletes(d, r.key) ==> d.timestamp <= r.timestamp
  {
    OwnKeyDecides(records, records[r.key := r], seen, PutEntry(r));
    assert NewestFor(records, seen, r.key);
    if r.key in records {
      assert PutEntry(records[r.key]) in seen + {PutEntry(r)};
    } else if forall d :: d in seen && Deletes(d, r.key) ==> d.timestamp <= r.timestamp {
      forall e | e in seen && e.key == r.key
        ensures e.timestamp <= r.timestamp
      {
        assert Buried(seen, r.key, e.timestamp);
      }
    } else {
      var d :| d in seen && Deletes(d, r.key) && d.timestamp > r.timestamp;
      assert d in seen + {PutEntry(r)};
    }
  }

  /** A local write keeps the device on newest entries exactly when its clock is not behind what was seen. */
  lemma WriteKeepsNewestIff(s: State, seen: set<Entry>, key: Key, body: Bytes, now: int)
    requires Newest(s.records, seen)
    ensures Newest(PutIn(s, key, body, now).records, seen + {Entry(key, OpPut, body, now)}) <==>
            if key in s.records then now >= s.records[key].timestamp
            else forall d :: d in seen && Deletes(d, key) ==> d.timestamp <= now
  {
    StoreKeepsNewestIff(s.records, seen, Record(key, body, now));
  }

  /** A local delete keeps it so exactly when the clock is not behind the record, or a delete ties with the record. */
  lemma DeleteKeepsNewestIff(s: State, seen: set<Entry>, key: Key, now: int)
    requires Newest(s.records, seen)
    ensures Newest(DeleteIn(s, key, now).records, seen + {Entry(key, OpDelete, [], now)}) <==>
            (key in s.records && now < s.records[key].timestamp ==> Buried(seen, key, s.records[key].timestamp))
  {
    var d, after := Entry(key, OpDelete, [], now), DeleteIn(s, key, now).records;
    OwnKeyDecides(s.records, after, seen, d);
    assert NewestFor(s.records, seen, key);
    if key in s.records && now < s.records[key].timestamp {
      BehindDelete(s.records, seen, d);
    } else {
      DeleteBuries(seen, d, s.records);
    }
  }

  lemma BehindDelete(records: map<Key, Record>, seen: set<Entry>, d: Entry)
    requires d.op == OpDelete && d.key in records && d.timestamp < records[d.key].timestamp
    requires NewestFor(records, seen, d.key)
    ensures NewestFor(records - {d.key}, seen + {d}, d.key) <==> Buried(seen, d.key, records[d.key].timestamp)
  {
    var r := PutEntry(records[d.key]);
    assert r in seen + {d};
    BuriedIff(seen, d, d.key, r.timestamp);
    if Buried(seen, d.key, r.timestamp) {
      var x :| x in seen && Deletes(x, d.key) && x.timestamp >= r.timestamp;
      assert x in seen + {d};
      assert forall e :: e in seen + {d} && e.key == d.key ==> e.timestamp <= x.timestamp;
    }
  }

  /**
   * What receiving does: a delete always keeps the device on newest entries, and so does a put of
   * a stored key; a put of an absent key does exactly when no newer delete was seen, or, stamped at
   * most 0 and so ignored, when a delete at least as new was.
   */
  lemma ReceiveKeepsNewestIff(s: State, seen: set<Entry>, c: Change)
    requires Newest(s.records, seen) && c.op != OpUnknown
    ensures Newest(Receive(s, c).records, seen + {EntryOf(c)}) <==>
            || c.op == OpDelete
            || c.key in s.records
            || (if c.timestamp > 0 then !Revives(s.records, seen, EntryOf(c)) else Buried(seen, c.key, c.timestamp))
  {
    var e, after := EntryOf(c), Receive(s, c).records;
    OwnKeyDecides(s.records, after, seen, e);
    assert NewestFor(s.records, seen, c.key);
    if c.timestamp > TimestampOf(s.records, c.key) {
      if c.op == OpPut {
        StoreKeepsNewestIff(s.records, seen, Record(c.key, c.body, c.timestamp));
      } else {
        DeleteBuries(seen, e, s.records);
      }
    } else if c.key !in s.records {
      IgnoredKeepsNewestIff(s.records, seen, e);
    }
  }

  lemma IgnoredKeepsNewestIff(records: map<Key, Record>, seen: set<Entry>, e: Entry)
    requires NewestFor(records, seen, e.key) && e.key !in records && e.op != OpUnknown
    ensures NewestFor(records, seen + {e}, e.key) <==> e.op == OpDelete || Buried(seen, e.key, e.timestamp)
  {
    assert e in seen + {e};
    forall x | x in seen + {e} && x.key == e.key
      ensures Buried(seen + {e}, e.key, x.timestamp) <==> e.op == OpDelete || x != e || Buried(seen, e.key, e.timestamp)
    {
      BuriedIff(seen, e, e.key, x.timestamp);
    }
  }

  /**
   * A put and a delete commute exactly if they concern different keys, the delete is not newer than
   * what is stored, or the put is both new enough to be stored at all and at least as new as the
   * delete, or neither. An older put stamped above 0 is the case that fails: arriving after the
   * delete it brings the record back.
   */
  lemma PutDeleteCommuteIff(s: State, put: Change, del: Change)
    requires put.op == OpPut && del.op == OpDelete
    ensures Receive(Receive(s, put), del).records == Receive(Receive(s, del), put).records <==>
            || put.key != del.key
            || del.timestamp <= TimestampOf(s.records, del.key)
            || (put.timestamp > 0 <==> put.timestamp >= del.timestamp)
  {
    var k := put.key;
    var a, b := Receive(Receive(s, put), del).records, Receive(Receive(s, del), put).records;
    if put.key != del.key {
      assert a == b;
    } else if del.timestamp > TimestampOf(s.records, k) {
      assert k in a <==> put.timestamp >= del.timestamp;
      assert k in b <==> put.timestamp > 0;
      assert a - {k} == s.records - {k} == b - {k};
      assert k in a && k in b ==> a[k] == b[k] == Record(k, put.body, put.timestamp);
      assert a == b <==> (k in a <==> k in b) by {
        SameButOne(a, b, k);
      }
    } else {
      assert a == b;
    }
  }

  lemma SameButOne(a: map<Key, Record>, b: map<Key, Record>, k: Key)
    requires a - {k} == b - {k}
    ensures a == b <==> (k in a <==> k in b) && (k in a && k in b ==> a[k] == b[k])
  {
    if (k in a <==> k in b) && (k in a && k in b ==> a[k] == b[k]) {
      forall x | x in a || x in b
        ensures x in a && x in b && a[x] == b[x]
      {
        if x != k {
          assert x in a - {k} <==> x in a;
          assert x in b - {k} <==> x in b;
          assert x in a - {k} ==> (a - {k})[x] == a[x];
          assert x in b - {k} ==> (b - {k})[x] == b[x];
        }
      }
    }
  }

  /** The failing family: an older put that arrives after the delete is back for good. */
  lemma DeleteDoesNotConverge(put: Change, del: Change)
    requires put.op == OpPut && del.op == OpDelete && put.key == del.key
    requires 0 < put.timestamp < del.timestamp
    ensures ReceiveAll(EMPTY, [put, del]).records != ReceiveAll(EMPTY, [del, put]).records
  {
    PutDeleteCommuteIff(EMPTY, put, del);
    ReceiveTwo(EMPTY, put, del);
    ReceiveTwo(EMPTY, del, put);
  }

  lemma ReceiveTwo(s: State, c: Change, d: Change)
    ensures ReceiveAll(s, [c, d]) == Receive(Receive(s, c), d)
  {
    assert [c, d][1..] == [d] && [d][1..] == [];
    assert ReceiveAll(Receive(s, c), [d]) == ReceiveAll(Receive(Receive(s, c), d), []);
  }

  // ---------------------------------------------------------------------------------------
  // Several devices
  // ---------------------------------------------------------------------------------------

  /** `seen[d]`: the entries device d has written or received; `sent`: the entries ever broadcast. */
  datatype World = World(devices: map<Device, State>, seen: map<Device, set<Entry>>, sent: set<Entry>)

  /** `dump` is the order in which a full dump, should the peer send one, happens to list its records. */
  datatype Event =
    | Write(device: Device, key: Key, body: Bytes, now: int)
    | Erase(device: Device, key: Key, now: int)
    | Deliver(device: Device, change: Change)
    | Sync(device: Device, peer: Device, dump: seq<Record>)

  function AsPuts(records: seq<Record>): (cs: seq<Change>)
    ensures |cs| == |records|
    ensures forall i :: 0 <= i < |cs| ==>
              cs[i] == Change(0, records[i].timestamp, records[i].key, OpPut, records[i].body)
  {
    seq(|records|, i requires 0 <= i < |records| =>
      Change(0, records[i].timestamp, records[i].key, OpPut, records[i].body))
  }

  /** Restoring a dump is receiving its records as puts. */
  lemma {:induction false} DumpIsPuts(s: State, records: seq<Record>)
    ensures RestoreIn(s, records) == ReceiveAll(s, AsPuts(records))
    decreases |records|
  {
    if records != [] {
      assert AsPuts(records)[1..] == AsPuts(records[1..]);
      DumpIsPuts(Receive(s, AsPuts(records)[0]), records[1..]);
    }
  }

  /** The local write of an event, if it is one. */
  function Written(e: Event): Entry
    requires e.Write? || e.Erase?
  {
    if e.Write? then Entry(e.key, OpPut, e.body, e.now) else Entry(e.key, OpDelete, [], e.now)
  }

  /** What reaches the device: one broadcast, or what the peer's `SyncWith` sends for our number. */
  function Arrivals(w: World, e: Event): seq<Change>
    requires e.device in w.devices && (e.Deliver? || (e.Sync? && e.peer in w.devices))
  {
    match e
    case Deliver(_, c) => [c]
    case Sync(d, p, dump) =>
      match SyncPlan(w.devices[p], w.devices[d].latest)
      case Increment(entries) => entries
      case Dump => AsPuts(dump)
  }

  function PolicyOf(policies: map<Device, Policy>, d: Device): Option<Policy> {
    if d in policies then Some(policies[d]) else None
  }

  ghost predicate Known(w: World, e: Event) {
    e.device in w.devices && e.device in w.seen && (e.Sync? ==> e.peer in w.devices && e.peer in w.seen)
  }

  ghost function Next(policies: map<Device, Policy>, w: World, e: Event): World
    requires Known(w, e)
  {
    var d, s, seen := e.device, w.devices[e.device], w.seen[e.device];
    match e
    case Write(_, key, body, now) =>
      World(w.devices[d := Serve(PolicyOf(policies, d), s, DoPut(key, body, now))],
            w.seen[d := seen + {Written(e)}], w.sent + {Written(e)})
    case Erase(_, key, now) =>
      World(w.devices[d := Serve(PolicyOf(policies, d), s, DoDelete(key, now))],
            w.seen[d := seen + {Written(e)}], w.sent + {Written(e)})
    case _ =>
      World(w.devices[d := ReceiveAll(s, Arrivals(w, e))], w.seen[d := seen + Entries(Arrivals(w, e))], w.sent)
  }

  function Start(names: set<Device>): World {
    World(map d | d in names :: EMPTY, map d | d in names :: {}, {})
  }

  /** None of the arriving entries, at the moment it is received, is a put older than a seen delete of an absent key. */
  ghost predicate NoneRevives(s: State, seen: set<Entry>, cs: seq<Change>)
    decreases |cs|
  {
    cs == [] || (!Revives(s.records, seen, EntryOf(cs[0]))
                 && NoneRevives(Receive(s, cs[0]), seen + {EntryOf(cs[0])}, cs[1..]))
  }

  /** A local write is stamped above the stored record, above 0, and differently from other writes of the key. */
  ghost predicate WellStamped(w: World, e: Event)
    requires Known(w, e) && (e.Write? || e.Erase?)
  {
    && Written(e).timestamp > TimestampOf(w.devices[e.device].records, e.key)
    && Written(e).timestamp > 0
    && forall x :: x in w.sent && x.key == e.key ==> x.timestamp != Written(e).timestamp
  }

  /** Only broadcast entries are delivered, a dump lists the peer's records, and local writes are well stamped. */
  ghost predicate Fair(w: World, e: Event) {
    && Known(w, e)
    && match e
       case Write(_, _, _, _) => WellStamped(w, e)
       case Erase(_, _, _) => WellStamped(w, e)
       case Deliver(_, c) => EntryOf(c) in w.sent
       case Sync(_, p, dump) => ListsOnce(w.devices[p].records.Values, dump)
  }

  /** No old put comes after a newer delete of an absent key. */
  ghost predicate RevivesNothing(w: World, e: Event)
    requires Known(w, e)
  {
    var s, seen := w.devices[e.device], w.seen[e.device];
    match e
    case Write(_, _, _, _) => !Revives(s.records, seen, Written(e))
    case Erase(_, _, _) => true
    case _ => NoneRevives(s, seen, Arrivals(w, e))
  }

  ghost predicate Legal(w: World, e: Event) {
    Fair(w, e) && RevivesNothing(w, e)
  }

  ghost predicate FairRun(policies: map<Device, Policy>, w: World, es: seq<Event>)
    decreases |es|
  {
    es == [] || (Fair(w, es[0]) && FairRun(policies, Next(policies, w, es[0]), es[1..]))
  }

  ghost predicate LegalRun(policies: map<Device, Policy>, w: World, es: seq<Event>)
    decreases |es|
  {
    es == [] || (Legal(w, es[0]) && LegalRun(policies, Next(policies, w, es[0]), es[1..]))
  }

  ghost function RunAll(policies: map<Device, Policy>, w: World, es: seq<Event>): World
    requires LegalRun(policies, w, es)
    decreases |es|
  {
    if es == [] then w else RunAll(policies, Next(policies, w, es[0]), es[1..])
  }

  /** No two different entries of a key share a timestamp. */
  ghost predicate UniqueStamps(seen: set<Entry>) {
    forall x, y :: x in seen && y in seen && x.key == y.key && x.timestamp == y.timestamp ==> x == y
  }

  /** Entries are puts and deletes stamped above 0. */
  ghost predicate Proper(sent: set<Entry>) {
    forall e :: e in sent ==> e.timestamp > 0 && e.op != OpUnknown
  }

  /** What a device holds, it has seen: its records are newest entries, and its log is part of what it saw. */
  ghost predicate DeviceInv(s: State, seen: set<Entry>, sent: set<Entry>) {
    seen <= sent && Newest(s.records, seen) && Entries(s.log) <= seen
  }

  ghost predicate AllDevices(devices: map<Device, State>, seen: map<Device, set<Entry>>, sent: set<Entry>)
    requires devices.Keys == seen.Keys
  {
    forall d :: d in devices ==> DeviceInv(devices[d], seen[d], sent)
  }

  ghost predicate Inv(w: World) {
    && w.devices.Keys == w.seen.Keys
    && AllDevices(w.devices, w.seen, w.sent)
    && Proper(w.sent)
    && UniqueStamps(w.sent)
  }

  /** What the engine attempts to send to each peer for a local write, under the number it was given. */
  function Announced(w: World, e: Event): Change
    requires e.device in w.devices && (e.Write? || e.Erase?)
  {
    var number := w.devices[e.device].latest + 1;
    if e.Write? then Change(number, e.now, e.key, OpPut, e.body) else Change(number, e.now, e.key, OpDelete, [])
  }

  /** Every announced write, and nothing else new, may then be delivered to any device. */
  lemma AnnouncedMayArrive(policies: map<Device, Policy>, w: World, e: Event, d: Device, c: Change)
    requires Known(w, e) && (e.Write? || e.Erase?) && d in w.devices && d in w.seen
    ensures EntryOf(Announced(w, e)) == Written(e)
    ensures Fair(Next(policies, w, e), Deliver(d, c)) <==>
            Fair(w, Deliver(d, c)) || EntryOf(c) == EntryOf(Announced(w, e))
  {
  }

  /** The announced number is the one the device logs the write under. */
  lemma AnnouncedIsLogged(policies: map<Device, Policy>, w: World, e: Event)
    requires Known(w, e) && (e.Write? || e.Erase?)
    requires e.Write? ==> PolicyOf(policies, e.device) == None
    ensures Next(policies, w, e).devices[e.device].log == w.devices[e.device].log + [Announced(w, e)]
  {
  }

  /** Every device prunes by its own policy, and one without a policy not at all. */
  lemma WritesFollowOwnPolicy(policies: map<Device, Policy>, w: World, e: Event)
    requires Known(w, e) && e.Write?
    ensures var before, after := w.devices[e.device].log, Next(policies, w, e).devices[e.device].log;
            && (e.device !in policies ==> |after| == |before| + 1)
            && (e.device in policies && !policies[e.device].timeBased && policies[e.device].maxCount > 0 ==>
                  var limit := policies[e.device].maxCount;
                  |after| == if |before| + 1 < limit then |before| + 1 else limit)
  {
    if e.device in policies && !policies[e.device].timeBased {
      PutKeepsCount(policies[e.device], w.devices[e.device], e.key, e.body, e.now);
    }
  }

  /** After a sync the device has seen all that the peer's log holds beyond its number, or all the peer's records. */
  lemma SyncDelivers(policies: map<Device, Policy>, w: World, e: Event)
    requires Fair(w, e) && e.Sync?
    ensures var p, seen := w.devices[e.peer], Next(policies, w, e).seen[e.device];
            if SyncPlan(p, w.devices[e.device].latest).Dump?
            then forall r :: r in p.records.Values ==> PutEntry(r) in seen
            else Entries(SyncPlan(p, w.devices[e.device].latest).entries) <= seen
  {
    var p := w.devices[e.peer];
    if SyncPlan(p, w.devices[e.device].latest).Dump? {
      var cs := Arrivals(w, e);
      forall r | r in p.records.Values
        ensures PutEntry(r) in Entries(cs)
      {
        assert r in e.dump;
        var i :| 0 <= i < |e.dump| && e.dump[i] == r;
        assert cs[i] in cs && EntryOf(cs[i]) == PutEntry(r);
      }
    }
  }

  lemma SentGrows(sent: set<Entry>, e: Entry)
    requires UniqueStamps(sent) && Proper(sent) && e.timestamp > 0 && e.op != OpUnknown
    requires forall x :: x in sent && x.key == e.key ==> x.timestamp != e.timestamp
    ensures UniqueStamps(sent + {e}) && Proper(sent + {e})
  {
  }

  /** One device moving on leaves the others as they were. */
  lemma DevicesGrow(w: World, d: Device, s: State, seen: set<Entry>, sent: set<Entry>)
    requires w.devices.Keys == w.seen.Keys && d in w.devices && w.sent <= sent
    requires AllDevices(w.devices, w.seen, w.sent) && DeviceInv(s, seen, sent)
    ensures AllDevices(w.devices[d := s], w.seen[d := seen], sent)
  {
    forall x | x in w.devices && x != d
      ensures DeviceInv(w.devices[x], w.seen[x], sent)
    {
      assert DeviceInv(w.devices[x], w.seen[x], w.sent);
    }
  }

  lemma EntriesAppend(log: seq<Change>, c: Change)
    ensures Entries(log + [c]) == Entries(log) + {EntryOf(c)}
  {
    assert forall x :: x in log + [c] <==> x in log || x == c;
  }

  /** Pruning touches no record and adds no entry. */
  lemma RetainForgets(s: State, policy: Option<Policy>, now: int)
    ensures Retain(s, policy, now).records == s.records
    ensures Entries(Retain(s, policy, now).log) <= Entries(s.log)
  {
    if policy.Some? {
      if policy.value.timeBased {
        DropOlderSlices(s.log, Cutoff(policy.value, now));
      }
      assert forall c :: c in Retain(s, policy, now).log ==> c in s.log;
    }
  }

  lemma PutKeepsDevice(s: State, seen: set<Entry>, sent: set<Entry>, key: Key, body: Bytes, now: int, p: Option<Policy>)
    requires DeviceInv(s, seen, sent) && now > TimestampOf(s.records, key)
    requires !Revives(s.records, seen, Entry(key, OpPut, body, now))
    ensures var e := Entry(key, OpPut, body, now);
            DeviceInv(Serve(p, s, DoPut(key, body, now)), seen + {e}, sent + {e})
  {
    WriteKeepsNewestIff(s, seen, key, body, now);
    RetainForgets(PutIn(s, key, body, now), p, now);
    EntriesAppend(s.log, Change(s.latest + 1, now, key, OpPut, body));
  }

  lemma DeleteKeepsDevice(s: State, seen: set<Entry>, sent: set<Entry>, key: Key, now: int)
    requires DeviceInv(s, seen, sent) && now > TimestampOf(s.records, key)
    ensures var e := Entry(key, OpDelete, [], now); DeviceInv(DeleteIn(s, key, now), seen + {e}, sent + {e})
  {
    DeleteKeepsNewestIff(s, seen, key, now);
    EntriesAppend(s.log, Change(s.latest + 1, now, key, OpDelete, []));
  }

  lemma ReceiveKeepsDevice(s: State, seen: set<Entry>, sent: set<Entry>, c: Change)
    requires DeviceInv(s, seen, sent) && Proper(sent) && EntryOf(c) in sent
    requires !Revives(s.records, seen, EntryOf(c))
    ensures DeviceInv(Receive(s, c), seen + {EntryOf(c)}, sent)
  {
    assert EntryOf(c).timestamp > 0 && EntryOf(c).op != OpUnknown;
    ReceiveKeepsNewestIff(s, seen, c);
    EntriesAppend(s.log, Change(s.latest + 1, c.timestamp, c.key, c.op, if c.op == OpDelete then [] else c.body));
  }

  lemma {:induction false} ReceiveAllKeepsDevice(s: State, seen: set<Entry>, sent: set<Entry>, cs: seq<Change>)
    requires DeviceInv(s, seen, sent) && Proper(sent) && Entries(cs) <= sent && NoneRevives(s, seen, cs)
    ensures DeviceInv(ReceiveAll(s, cs), seen + Entries(cs), sent)
    decreases |cs|
  {
    if cs == [] {
      assert seen + Entries(cs) == seen;
    } else {
      assert cs == [cs[0]] + cs[1..];
      assert EntryOf(cs[0]) in Entries(cs) && Entries(cs[1..]) <= Entries(cs);
      ReceiveKeepsDevice(s, seen, sent, cs[0]);
      ReceiveAllKeepsDevice(Receive(s, cs[0]), seen + {EntryOf(cs[0])}, sent, cs[1..]);
      assert Entries(cs) == {EntryOf(cs[0])} + Entries(cs[1..]);
      assert seen + {EntryOf(cs[0])} + Entries(cs[1..]) == seen + Entries(cs);
    }
  }

  lemma {:induction false} AfterIsPart(log: seq<Change>, since: nat)
    ensures forall c :: c in After(log, since) ==> c in log
  {
    if log != [] {
      AfterIsPart(log[1..], since);
    }
  }

  /** Whatever reaches a device has been broadcast by somebody. */
  lemma ArrivalsWereSent(w: World, e: Event)
    requires Inv(w) && Fair(w, e) && (e.Deliver? || e.Sync?)
    ensures Entries(Arrivals(w, e)) <= w.sent
  {
    if e.Sync? {
      var p, our := w.devices[e.peer], w.devices[e.device].latest;
      assert DeviceInv(p, w.seen[e.peer], w.sent);
      AfterIsPart(p.log, our);
      forall c | c in Arrivals(w, e)
        ensures EntryOf(c) in w.sent
      {
        if SyncPlan(p, our).Dump? {
          var i :| 0 <= i < |Arrivals(w, e)| && Arrivals(w, e)[i] == c;
          assert e.dump[i] in e.dump && e.dump[i] in p.records.Values;
          assert NewestFor(p.records, w.seen[e.peer], c.key);
          var k :| k in p.records && p.records[k] == e.dump[i];
          assert NewestFor(p.records, w.seen[e.peer], k);
          assert EntryOf(c) == PutEntry(e.dump[i]);
        } else {
          assert c in p.log && EntryOf(c) in Entries(p.log);
        }
      }
    }
  }

  lemma NextKeepsInv(policies: map<Device, Policy>, w: World, e: Event)
    requires Inv(w) && Legal(w, e)
    ensures Inv(Next(policies, w, e))
  {
    var d, s, seen := e.device, w.devices[e.device], w.seen[e.device];
    var w' := Next(policies, w, e);
    assert DeviceInv(s, seen, w.sent);
    match e
    case Write(_, key, body, now) =>
      PutKeepsDevice(s, seen, w.sent, key, body, now, PolicyOf(policies, d));
      SentGrows(w.sent, Written(e));
      DevicesGrow(w, d, w'.devices[d], w'.seen[d], w'.sent);
    case Erase(_, key, now) =>
      DeleteKeepsDevice(s, seen, w.sent, key, now);
      SentGrows(w.sent, Written(e));
      DevicesGrow(w, d, w'.devices[d], w'.seen[d], w'.sent);
    case _ =>
      ArrivalsWereSent(w, e);
      ReceiveAllKeepsDevice(s, seen, w.sent, Arrivals(w, e));
      DevicesGrow(w, d, w'.devices[d], w'.seen[d], w'.sent);
  }

  lemma {:induction false} RunKeepsInv(policies: map<Device, Policy>, w: World, es: seq<Event>)
    requires Inv(w) && LegalRun(policies, w, es)
    ensures Inv(RunAll(policies, w, es))
    decreases |es|
  {
    if es != [] {
      NextKeepsInv(policies, w, es[0]);
      RunKeepsInv(policies, Next(policies, w, es[0]), es[1..]);
    }
  }

  lemma NewestIsUnique(a: map<Key, Record>, b: map<Key, Record>, seen: set<Entry>)
    requires Newest(a, seen) && Newest(b, seen) && UniqueStamps(seen)
    ensures a == b
  {
    forall k
      ensures k in a ==> k in b && a[k] == b[k]
      ensures k in b ==> k in a
    {
      if k in a {
        NewestForAgrees(a, b, seen, k);
      }
      if k in b {
        NewestForAgrees(b, a, seen, k);
      }
    }
  }

  lemma NewestForAgrees(a: map<Key, Record>, b: map<Key, Record>, seen: set<Entry>, k: Key)
    requires NewestFor(a, seen, k) && NewestFor(b, seen, k) && UniqueStamps(seen) && k in a
    ensures k in b && a[k] == b[k]
  {
    var x := PutEntry(a[k]);
    assert x in seen && (k !in b ==> Buried(seen, k, x.timestamp));
    if k in b {
      var y := PutEntry(b[k]);
      assert x in seen && y in seen && x.timestamp == y.timestamp;
    }
  }

  /**
   * Convergence, deletes and catch-up included: along every legal run each device is, for every
   * key, on the newest entry it has written or received, where a newest delete means absence,
   * whatever the order and repetition of deliveries, whatever is pruned, and whoever syncs with
   * whom; so devices that have seen the same entries, in particular all devices once everything is
   * delivered, hold the same records.
   */
  lemma DevicesConverge(policies: map<Device, Policy>, names: set<Device>, es: seq<Event>)
    requires LegalRun(policies, Start(names), es)
    ensures var w := RunAll(policies, Start(names), es);
            && Inv(w)
            && (forall d :: d in w.devices ==> Newest(w.devices[d].records, w.seen[d]))
            && (forall a, b :: a in w.devices && b in w.devices && w.seen[a] == w.seen[b] ==>
                  w.devices[a].records == w.devices[b].records)
  {
    RunKeepsInv(policies, Start(names), es);
    var w := RunAll(policies, Start(names), es);
    forall d | d in w.devices
      ensures Newest(w.devices[d].records, w.seen[d]) && UniqueStamps(w.seen[d])
    {
      assert DeviceInv(w.devices[d], w.seen[d], w.sent);
    }
    forall a, b | a in w.devices && b in w.devices && w.seen[a] == w.seen[b]
      ensures w.devices[a].records == w.devices[b].records
    {
      NewestIsUnique(w.devices[a].records, w.devices[b].records, w.seen[a]);
    }
  }

  /** The device is on newest entries before the first arrival and after each of them. */
  ghost predicate NewestAtEach(s: State, seen: set<Entry>, cs: seq<Change>)
    decreases |cs|
  {
    Newest(s.records, seen) && (cs != [] ==> NewestAtEach(Receive(s, cs[0]), seen + {EntryOf(cs[0])}, cs[1..]))
  }

  ghost predicate StepStaysNewest(w: World, e: Event)
    requires Known(w, e)
  {
    var s, seen := w.devices[e.device], w.seen[e.device];
    match e
    case Write(_, key, body, now) => Newest(PutIn(s, key, body, now).records, seen + {Written(e)})
    case Erase(_, key, now) => Newest(DeleteIn(s, key, now).records, seen + {Written(e)})
    case _ => NewestAtEach(s, seen, Arrivals(w, e))
  }

  /** At no moment of the run, not even between two arrivals of one sync, is the acting device off a newest entry. */
  ghost predicate StaysNewest(policies: map<Device, Policy>, w: World, es: seq<Event>)
    requires FairRun(policies, w, es)
    decreases |es|
  {
    es == [] || (StepStaysNewest(w, es[0]) && StaysNewest(policies, Next(policies, w, es[0]), es[1..]))
  }

  lemma {:induction false} ArrivalsKeepNewestIff(s: State, seen: set<Entry>, cs: seq<Change>)
    requires Newest(s.records, seen) && Proper(Entries(cs))
    ensures NewestAtEach(s, seen, cs) <==> NoneRevives(s, seen, cs)
    decreases |cs|
  {
    if cs != [] {
      assert EntryOf(cs[0]) in Entries(cs) && Entries(cs[1..]) <= Entries(cs);
      ReceiveKeepsNewestIff(s, seen, cs[0]);
      if !Revives(s.records, seen, EntryOf(cs[0])) {
        ArrivalsKeepNewestIff(Receive(s, cs[0]), seen + {EntryOf(cs[0])}, cs[1..]);
      }
    }
  }

  lemma StepStaysNewestIff(w: World, e: Event)
    requires Inv(w) && Fair(w, e)
    ensures StepStaysNewest(w, e) <==> RevivesNothing(w, e)
  {
    var s, seen := w.devices[e.device], w.seen[e.device];
    assert DeviceInv(s, seen, w.sent);
    match e
    case Write(_, key, body, now) =>
      WriteKeepsNewestIff(s, seen, key, body, now);
    case Erase(_, key, now) =>
      DeleteKeepsNewestIff(s, seen, key, now);
    case _ =>
      ArrivalsWereSent(w, e);
      ArrivalsKeepNewestIff(s, seen, Arrivals(w, e));
  }

  /**
   * The delivery condition is exact: in a run that is fair but otherwise arbitrary every device is
   * on newest entries at every moment if and only if no put older than a seen delete of an absent
   * key is ever written or received.
   */
  lemma {:induction false} StaysNewestIff(policies: map<Device, Policy>, w: World, es: seq<Event>)
    requires Inv(w) && FairRun(policies, w, es)
    ensures StaysNewest(policies, w, es) <==> LegalRun(policies, w, es)
    decreases |es|
  {
    if es != [] {
      StepStaysNewestIff(w, es[0]);
      if RevivesNothing(w, es[0]) {
        NextKeepsInv(policies, w, es[0]);
        StaysNewestIff(policies, Next(policies, w, es[0]), es[1..]);
      }
    }
  }

  /** Without deletes the condition on deliveries never bites. */
  lemma {:induction false} PutsNeverRevive(s: State, seen: set<Entry>, cs: seq<Change>)
    requires forall e :: e in seen ==> e.op == OpPut
    requires forall c :: c in cs ==> c.op == OpPut
    ensures NoneRevives(s, seen, cs)
    decreases |cs|
  {
    if cs != [] {
      PutsNeverRevive(Receive(s, cs[0]), seen + {EntryOf(cs[0])}, cs[1..]);
    }
  }

  // ---------------------------------------------------------------------------------------
  // Ties and clocks
  // ---------------------------------------------------------------------------------------

  /** Two different entries of one key share its highest timestamp. */
  ghost predicate TopTie(seen: set<Entry>) {
    exists x, y :: x in seen && y in seen && x != y && x.key == y.key && x.timestamp == y.timestamp && IsTop(x, seen)
  }

  ghost predicate IsTop(x: Entry, seen: set<Entry>) {
    forall y :: y in seen && y.key == x.key ==> y.timestamp <= x.timestamp
  }

  /** Deletes of one key and time do not differ. */
  ghost predicate Normal(seen: set<Entry>) {
    forall e :: e in seen ==> e.op == OpPut || (e.op == OpDelete && e.body == [])
  }

  /** Without the distinctness assumption: `seen` fixes the newest records exactly when no key has a tie at its top. */
  lemma NewestIsFixedIff(a: map<Key, Record>, seen: set<Entry>)
    requires Newest(a, seen) && Normal(seen)
    ensures (forall b :: Newest(b, seen) ==> b == a) <==> !TopTie(seen)
  {
    if TopTie(seen) {
      var b := TieLeavesChoice(a, seen);
    } else {
      forall b | Newest(b, seen)
        ensures b == a
      {
        forall k
          ensures k in a ==> k in b && a[k] == b[k]
          ensures k in b ==> k in a
        {
          if k in a {
            UntiedAgrees(a, b, seen, k);
          }
          if k in b {
            UntiedAgrees(b, a, seen, k);
          }
        }
      }
    }
  }

  lemma UntiedAgrees(a: map<Key, Record>, b: map<Key, Record>, seen: set<Entry>, k: Key)
    requires Newest(a, seen) && Newest(b, seen) && !TopTie(seen) && k in a
    ensures k in b && a[k] == b[k]
  {
    assert NewestFor(a, seen, k) && NewestFor(b, seen, k);
    var x := PutEntry(a[k]);
    assert x in seen && (k !in b ==> Buried(seen, k, x.timestamp));
    assert IsTop(x, seen);
    if k in b {
      assert PutEntry(b[k]) in seen && PutEntry(b[k]) == x;
    }
  }

  lemma TieLeavesChoice(a: map<Key, Record>, seen: set<Entry>) returns (b: map<Key, Record>)
    requires Newest(a, seen) && Normal(seen) && TopTie(seen)
    ensures Newest(b, seen) && b != a
  {
    var x, y :| x in seen && y in seen && x != y && x.key == y.key && x.timestamp == y.timestamp && IsTop(x, seen);
    var k := x.key;
    assert NewestFor(a, seen, k);
    var put, other := if x.op == OpPut then x else y, if x.op == OpPut then y else x;
    if k in a && PutEntry(a[k]) == put {
      b := if other.op == OpPut then a[k := Record(k, other.body, other.timestamp)] else a - {k};
      assert other.op == OpDelete ==> Deletes(other, k);
    } else {
      b := a[k := Record(k, put.body, put.timestamp)];
    }
    forall j
      ensures NewestFor(b, seen, j)
    {
      assert NewestFor(a, seen, j);
    }
  }

  // Each assumption is needed: without it two devices can see every change and still differ.

  /**
   * Two puts of one key commute, from any state, exactly if their stamps differ, they are the same
   * put, or neither is newer than what is stored.
   */
  lemma PutsCommuteIff(s: State, c: Change, d: Change)
    requires c.op == OpPut && d.op == OpPut && c.key == d.key
    ensures Receive(Receive(s, c), d).records == Receive(Receive(s, d), c).records <==>
            c.timestamp != d.timestamp || c.body == d.body || c.timestamp <= TimestampOf(s.records, c.key)
  {
    var a, b := Receive(Receive(s, c), d).records, Receive(Receive(s, d), c).records;
    assert a - {c.key} == s.records - {c.key} == b - {c.key};
    SameButOne(a, b, c.key);
  }

  /** So two devices that write a key differently in the same millisecond each skip the other's entry. */
  lemma TieDiverges(s: State, t: State, key: Key, x: Bytes, y: Bytes, now: int)
    requires x != y
    ensures var a, b := PutIn(s, key, x, now), PutIn(t, key, y, now);
            && Receive(a, b.log[|t.log|]).records[key] == a.records[key] != b.records[key]
            && Receive(b, a.log[|s.log|]).records[key] == b.records[key]
  {
  }

  /** A device that overwrites a record is followed by its sender exactly if it is stamped later, or is the same. */
  lemma SlowClockDivergesIff(s: State, t: State, key: Key, x: Bytes, late: int, y: Bytes, early: int)
    requires late > TimestampOf(t.records, key)
    ensures var a := PutIn(s, key, x, late);
            var b := PutIn(Receive(t, a.log[|s.log|]), key, y, early);
            Receive(a, b.log[|t.log| + 1]).records[key] == b.records[key] <==>
            early > late || (early == late && x == y)
  {
  }
}
