/**
 * Shared records of a group with logical expiry and physical purge
 * (core/internal/groupshare/layer.go, mem_storage.go; ts/linkself/src/groupshare.ts).
 */
module GroupShare {
  import opened Common

  datatype SharedKey = SharedKey(channel: string, id: string)

  datatype SharedRecord = SharedRecord(id: string, channel: string, topic: string, groupId: string, did: string,
                                       timestamp: int, body: Bytes, deleted: bool)
  {
    function Key(): SharedKey {
      SharedKey(channel, id)
    }
  }

  datatype Access = Access(canWrite: string -> bool, canRead: string -> bool)

  /** `retention` is in nanoseconds, 0 for permanent. */
  datatype Channel = Channel(name: string, groupId: string, retention: int,
                             access: Option<Access>, schema: Option<Bytes -> bool>)

  type Channels = map<string, Channel>
  type Records = map<SharedKey, SharedRecord>

  /** The answer of the role check, which depends on a member-role resolver outside this model. */
  datatype RoleCheck = Allowed | Denied | ResolverFailed

  datatype Error = ChannelExists | ChannelNotFound | AccessDenied | SchemaValidation | ResolverError

  datatype Op =
    | RegisterChannel(ch: Channel)
    | Put(channel: string, topic: string, id: string, body: Bytes, role: RoleCheck)
    | Delete(channel: string, topic: string, id: string)
    | Incoming(rec: SharedRecord, role: RoleCheck)
    | Restore(recs: seq<SharedRecord>)
    | Get(channel: string, id: string)
    | List(channel: string)
    | Dump(groupId: string)
    | Purge(channel: string)

  /** What a caller sees; `Broadcast` is the record handed to the group members. */
  datatype Out =
    | Done
    | Failed(error: Error)
    | Broadcast(rec: SharedRecord)
    | Found(found: Option<SharedRecord>)
    | Listing(recs: set<SharedRecord>)
    | Count(count: nat)

  datatype Layer = Layer(self: string, channels: Channels, records: Records)

  function IsExpired(channels: Channels, rec: SharedRecord, now: int): bool {
    && rec.channel in channels
    && channels[rec.channel].retention != 0
    && now >= rec.timestamp + Milliseconds(channels[rec.channel].retention)
  }

  function TimestampOf(records: Records, key: SharedKey): int {
    if key in records then records[key].timestamp else 0
  }

  function Accepts(records: Records, rec: SharedRecord): bool {
    rec.timestamp > TimestampOf(records, rec.Key())
  }

  function RestoreOne(records: Records, rec: SharedRecord): Records {
    if Accepts(records, rec) then records[rec.Key() := rec] else records
  }

  function RestoreAll(records: Records, recs: seq<SharedRecord>): (Records, nat)
    decreases |recs|
  {
    if recs == [] then (records, 0)
    else
      var (rest, n) := RestoreAll(RestoreOne(records, recs[0]), recs[1..]);
      (rest, if Accepts(records, recs[0]) then n + 1 else n)
  }

  function WithoutOlder(records: Records, channel: string, before: int): Records {
    map k | k in records && !(k.channel == channel && records[k].timestamp < before) :: records[k]
  }

  function Removed(records: Records, channel: string, before: int): set<SharedKey> {
    set k | k in records && k.channel == channel && records[k].timestamp < before
  }

  function InChannel(records: Records, channel: string): set<SharedRecord> {
    set k | k in records && k.channel == channel :: records[k]
  }

  function InGroup(records: Records, groupId: string): set<SharedRecord> {
    set k | k in records && records[k].groupId == groupId :: records[k]
  }

  function Live(channels: Channels, recs: set<SharedRecord>, now: int): set<SharedRecord> {
    set r | r in recs && !IsExpired(channels, r, now)
  }

  function CheckIncoming(channels: Channels, rec: SharedRecord, role: RoleCheck): Option<Error>
    requires rec.channel in channels
  {
    var ch := channels[rec.channel];
    if ch.access.Some? && !ch.access.value.canRead(rec.did) then Some(AccessDenied)
    else if role == ResolverFailed then Some(ResolverError)
    else if role == Denied then Some(AccessDenied)
    else if !rec.deleted && ch.schema.Some? && !ch.schema.value(rec.body) then Some(SchemaValidation)
    else None
  }

  function CheckPut(l: Layer, channel: string, role: RoleCheck): Option<Error> {
    if channel !in l.channels then Some(ChannelNotFound)
    else
      var ch := l.channels[channel];
      if ch.access.Some? && !ch.access.value.canWrite(l.self) then Some(AccessDenied)
      else if role == ResolverFailed then Some(ResolverError)
      else if role == Denied then Some(AccessDenied)
      else None
  }

  function Exec(l: Layer, op: Op, now: int): (Layer, Out) {
    match op
    case RegisterChannel(ch) =>
      if ch.name in l.channels then (l, Failed(ChannelExists))
      else (l.(channels := l.channels[ch.name := ch]), Done)
    case Put(channel, topic, id, body, role) =>
      var e := CheckPut(l, channel, role);
      if e.Some? then (l, Failed(e.value))
      else
        var rec := SharedRecord(id, channel, topic, l.channels[channel].groupId, l.self, now, body, false);
        (l.(records := l.records[rec.Key() := rec]), Broadcast(rec))
    case Delete(channel, topic, id) =>
      if channel !in l.channels then (l, Failed(ChannelNotFound))
      else
        var rec := SharedRecord(id, channel, topic, l.channels[channel].groupId, l.self, now, [], true);
        (l.(records := l.records - {rec.Key()}), Broadcast(rec))
    case Incoming(rec, role) =>
      if rec.channel !in l.channels then (l, Done)
      else
        var e := CheckIncoming(l.channels, rec, role);
        if e.Some? then (l, Failed(e.value))
        else if IsExpired(l.channels, rec, now) || !Accepts(l.records, rec) then (l, Done)
        else if rec.deleted then (l.(records := l.records - {rec.Key()}), Done)
        else (l.(records := l.records[rec.Key() := rec]), Done)
    case Restore(recs) =>
      var (records, n) := RestoreAll(l.records, recs);
      (l.(records := records), Count(n))
    case Get(channel, id) =>
      var k := SharedKey(channel, id);
      if k in l.records && !IsExpired(l.channels, l.records[k], now) then (l, Found(Some(l.records[k])))
      else (l, Found(None))
    case List(channel) => (l, Listing(Live(l.channels, InChannel(l.records, channel), now)))
    case Dump(groupId) => (l, Listing(Live(l.channels, InGroup(l.records, groupId), now)))
    case Purge(channel) =>
      if channel !in l.channels then (l, Failed(ChannelNotFound))
      else if l.channels[channel].retention == 0 then (l, Count(0))
      else
        var before := now - Milliseconds(l.channels[channel].retention);
        (l.(records := WithoutOlder(l.records, channel, before)), Count(|Removed(l.records, channel, before)|))
  }

  // ---------------------------------------------------------------------------------------
  // Purge is unobservable
  // ---------------------------------------------------------------------------------------

  /** Every record lies under its own key. */
  ghost predicate Keyed(records: Records) {
    forall k :: k in records ==> records[k].Key() == k
  }

  /** In addition, none is stamped below 0: so it is while the clock is nonnegative. */
  ghost predicate Sound(records: Records) {
    Keyed(records) && forall k :: k in records ==> records[k].timestamp >= 0
  }

  ghost predicate LiveAt(channels: Channels, records: Records, k: SharedKey, now: int) {
    k in records && !IsExpired(channels, records[k], now)
  }

  /** Equal on the records that have not expired; expired ones may be present on either side. */
  ghost predicate Similar(channels: Channels, a: Records, b: Records, now: int) {
    && Sound(a) && Sound(b)
    && forall k :: (LiveAt(channels, a, k, now) <==> LiveAt(channels, b, k, now))
                && (LiveAt(channels, a, k, now) ==> a[k] == b[k])
  }

  lemma SimilarLater(channels: Channels, a: Records, b: Records, now: int, later: int)
    requires Similar(channels, a, b, now) && now <= later
    ensures Similar(channels, a, b, later)
  {
    forall k
      ensures LiveAt(channels, a, k, later) <==> LiveAt(channels, b, k, later)
      ensures LiveAt(channels, a, k, later) ==> a[k] == b[k]
    {
      assert LiveAt(channels, a, k, later) ==> LiveAt(channels, a, k, now);
      assert LiveAt(channels, b, k, later) ==> LiveAt(channels, b, k, now);
    }
  }

  /** Last-write-wins decides alike on similar stores, unless the record itself is expired and stamped above 0. */
  lemma AcceptsAlike(channels: Channels, a: Records, b: Records, rec: SharedRecord, now: int)
    requires Similar(channels, a, b, now)
    requires !IsExpired(channels, rec, now) || rec.timestamp <= 0
    ensures Accepts(a, rec) == Accepts(b, rec)
  {
    var k := rec.Key();
    assert LiveAt(channels, a, k, now) <==> LiveAt(channels, b, k, now);
  }

  /** That is the exact condition for a last-write-wins decision to be blind to purges. */
  lemma AcceptanceIsBlindIff(channels: Channels, rec: SharedRecord, now: int)
    ensures (forall a, b :: Similar(channels, a, b, now) ==> Accepts(a, rec) == Accepts(b, rec)) <==>
            (!IsExpired(channels, rec, now) || rec.timestamp <= 0)
  {
    if !IsExpired(channels, rec, now) || rec.timestamp <= 0 {
      forall a, b | Similar(channels, a, b, now)
        ensures Accepts(a, rec) == Accepts(b, rec)
      {
        AcceptsAlike(channels, a, b, rec, now);
      }
    } else {
      var a: Records, b: Records := map[rec.Key() := rec], map[];
      assert Similar(channels, a, b, now);
      assert !Accepts(a, rec) && Accepts(b, rec);
    }
  }

  lemma PutAlike(channels: Channels, a: Records, b: Records, rec: SharedRecord, now: int)
    requires Similar(channels, a, b, now) && rec.timestamp >= 0
    ensures Similar(channels, a[rec.Key() := rec], b[rec.Key() := rec], now)
  {
    forall k | k != rec.Key()
      ensures LiveAt(channels, a[rec.Key() := rec], k, now) == LiveAt(channels, a, k, now)
      ensures LiveAt(channels, b[rec.Key() := rec], k, now) == LiveAt(channels, b, k, now)
    {
    }
  }

  lemma DeleteAlike(channels: Channels, a: Records, b: Records, key: SharedKey, now: int)
    requires Similar(channels, a, b, now)
    ensures Similar(channels, a - {key}, b - {key}, now)
  {
    forall k | k != key
      ensures LiveAt(channels, a - {key}, k, now) == LiveAt(channels, a, k, now)
      ensures LiveAt(channels, b - {key}, k, now) == LiveAt(channels, b, k, now)
    {
    }
  }

  /** Writing an expired record over an absent or older one shows in no view. */
  lemma RestoreExpired(channels: Channels, a: Records, b: Records, rec: SharedRecord, now: int)
    requires Similar(channels, a, b, now) && IsExpired(channels, rec, now)
    ensures Similar(channels, RestoreOne(a, rec), b, now)
  {
    forall k
      ensures LiveAt(channels, RestoreOne(a, rec), k, now) == LiveAt(channels, a, k, now)
    {
    }
  }

  lemma SimilarSwaps(channels: Channels, a: Records, b: Records, now: int)
    requires Similar(channels, a, b, now)
    ensures Similar(channels, b, a, now)
  {
  }

  lemma RestoreOneAlike(channels: Channels, a: Records, b: Records, rec: SharedRecord, now: int)
    requires Similar(channels, a, b, now)
    ensures Similar(channels, RestoreOne(a, rec), RestoreOne(b, rec), now)
  {
    if IsExpired(channels, rec, now) {
      RestoreExpired(channels, a, b, rec, now);
      SimilarSwaps(channels, RestoreOne(a, rec), b, now);
      RestoreExpired(channels, b, RestoreOne(a, rec), rec, now);
      SimilarSwaps(channels, RestoreOne(b, rec), RestoreOne(a, rec), now);
    } else {
      AcceptsAlike(channels, a, b, rec, now);
      if Accepts(a, rec) {
        assert rec.timestamp >= 0;
        PutAlike(channels, a, b, rec, now);
      }
    }
  }

  ghost predicate NoneExpired(channels: Channels, recs: seq<SharedRecord>, now: int) {
    forall r :: r in recs ==> !IsExpired(channels, r, now)
  }

  lemma {:induction false} RestoreAlike(channels: Channels, a: Records, b: Records, recs: seq<SharedRecord>, now: int)
    requires Similar(channels, a, b, now)
    ensures Similar(channels, RestoreAll(a, recs).0, RestoreAll(b, recs).0, now)
    ensures NoneExpired(channels, recs, now) ==> RestoreAll(a, recs).1 == RestoreAll(b, recs).1
    decreases |recs|
  {
    if recs != [] {
      RestoreOneAlike(channels, a, b, recs[0], now);
      RestoreAlike(channels, RestoreOne(a, recs[0]), RestoreOne(b, recs[0]), recs[1..], now);
      if NoneExpired(channels, recs, now) {
        AcceptsAlike(channels, a, b, recs[0], now);
      }
    }
  }

  lemma ReadsAlike(channels: Channels, a: Records, b: Records, now: int)
    requires Similar(channels, a, b, now)
    ensures forall c :: Live(channels, InChannel(a, c), now) == Live(channels, InChannel(b, c), now)
    ensures forall g :: Live(channels, InGroup(a, g), now) == Live(channels, InGroup(b, g), now)
  {
    assert forall k :: LiveAt(channels, a, k, now) <==> LiveAt(channels, b, k, now);
  }

  lemma PurgeKeepsSimilar(channels: Channels, a: Records, b: Records, channel: string, now: int)
    requires Similar(channels, a, b, now)
    requires channel in channels && channels[channel].retention != 0
    ensures Similar(channels, a, WithoutOlder(b, channel, now - Milliseconds(channels[channel].retention)), now)
  {
    var c := WithoutOlder(b, channel, now - Milliseconds(channels[channel].retention));
    forall k
      ensures LiveAt(channels, c, k, now) == LiveAt(channels, b, k, now)
    {
    }
  }

  /** A channel registered later can only let more records expire. */
  lemma RegisterAlike(channels: Channels, a: Records, b: Records, ch: Channel, now: int)
    requires Similar(channels, a, b, now) && ch.name !in channels
    ensures Similar(channels[ch.name := ch], a, b, now)
  {
    var more := channels[ch.name := ch];
    forall k
      ensures LiveAt(more, a, k, now) <==> LiveAt(more, b, k, now)
      ensures LiveAt(more, a, k, now) ==> a[k] == b[k]
    {
      assert LiveAt(more, a, k, now) ==> LiveAt(channels, a, k, now);
      assert LiveAt(more, b, k, now) ==> LiveAt(channels, b, k, now);
    }
  }

  ghost predicate SimilarLayers(a: Layer, b: Layer, now: int) {
    a.self == b.self && a.channels == b.channels && Similar(a.channels, a.records, b.records, now)
  }

  /** Outputs as seen by a caller who does not read the number a restore reports. */
  function Visible(op: Op, out: Out): Out {
    if op.Restore? then Done else out
  }

  lemma ExecAlike(a: Layer, b: Layer, op: Op, now: int)
    requires SimilarLayers(a, b, now) && now >= 0 && !op.Purge?
    ensures SimilarLayers(Exec(a, op, now).0, Exec(b, op, now).0, now)
    ensures Visible(op, Exec(a, op, now).1) == Visible(op, Exec(b, op, now).1)
    ensures (op.Restore? ==> NoneExpired(a.channels, op.recs, now)) ==> Exec(a, op, now).1 == Exec(b, op, now).1
  {
    match op
    case RegisterChannel(ch) =>
      if ch.name !in a.channels {
        RegisterAlike(a.channels, a.records, b.records, ch, now);
      }
    case Put(channel, topic, id, body, role) =>
      if CheckPut(a, channel, role).None? {
        var rec := SharedRecord(id, channel, topic, a.channels[channel].groupId, a.self, now, body, false);
        PutAlike(a.channels, a.records, b.records, rec, now);
      }
    case Delete(channel, topic, id) =>
      DeleteAlike(a.channels, a.records, b.records, SharedKey(channel, id), now);
    case Incoming(rec, role) =>
      if !IsExpired(a.channels, rec, now) {
        AcceptsAlike(a.channels, a.records, b.records, rec, now);
        DeleteAlike(a.channels, a.records, b.records, rec.Key(), now);
        RestoreOneAlike(a.channels, a.records, b.records, rec, now);
      }
    case Restore(recs) =>
      RestoreAlike(a.channels, a.records, b.records, recs, now);
    case Get(channel, id) =>
      var k := SharedKey(channel, id);
      assert LiveAt(a.channels, a.records, k, now) <==> LiveAt(b.channels, b.records, k, now);
    case List(channel) =>
      ReadsAlike(a.channels, a.records, b.records, now);
    case Dump(groupId) =>
      ReadsAlike(a.channels, a.records, b.records, now);
  }

  datatype Call = Call(op: Op, now: int)

  function WithoutPurges(calls: seq<Call>): seq<Call> {
    if calls == [] then []
    else if calls[0].op.Purge? then WithoutPurges(calls[1..])
    else [calls[0]] + WithoutPurges(calls[1..])
  }

  /** The outputs of all calls but the purges, in order. */
  function Observe(l: Layer, calls: seq<Call>): seq<Out>
    decreases |calls|
  {
    if calls == [] then []
    else
      var (l', out) := Exec(l, calls[0].op, calls[0].now);
      (if calls[0].op.Purge? then [] else [out]) + Observe(l', calls[1..])
  }

  function ObserveVisible(l: Layer, calls: seq<Call>): seq<Out>
    decreases |calls|
  {
    if calls == [] then []
    else
      var (l', out) := Exec(l, calls[0].op, calls[0].now);
      (if calls[0].op.Purge? then [] else [Visible(calls[0].op, out)]) + ObserveVisible(l', calls[1..])
  }

  /** What a caller sees is every output but a restore's count. */
  lemma {:induction false} VisibleMeans(l: Layer, calls: seq<Call>)
    ensures |ObserveVisible(l, calls)| == |Observe(l, calls)|
    ensures forall i :: 0 <= i < |Observe(l, calls)| ==>
              ObserveVisible(l, calls)[i] == if Observe(l, calls)[i].Count? then Done else Observe(l, calls)[i]
    decreases |calls|
  {
    if calls != [] {
      var (l', out) := Exec(l, calls[0].op, calls[0].now);
      VisibleMeans(l', calls[1..]);
      if !calls[0].op.Purge? {
        assert out.Count? <==> calls[0].op.Restore?;
        assert Observe(l, calls) == [out] + Observe(l', calls[1..]);
        assert ObserveVisible(l, calls) == [Visible(calls[0].op, out)] + ObserveVisible(l', calls[1..]);
      }
    }
  }

  /** The outputs come in the order of the calls, those of purges left out. */
  lemma {:induction false} ObserveAppend(l: Layer, calls: seq<Call>, c: Call)
    ensures Observe(l, calls + [c]) ==
            Observe(l, calls) + if c.op.Purge? then [] else [Exec(Run(l, calls), c.op, c.now).1]
    ensures Run(l, calls + [c]) == Exec(Run(l, calls), c.op, c.now).0
    decreases |calls|
  {
    if calls == [] {
      assert calls + [c] == [c] && [c][1..] == [];
      assert Observe(Exec(l, c.op, c.now).0, []) == [] && Run(Exec(l, c.op, c.now).0, []) == Exec(l, c.op, c.now).0;
    } else {
      assert (calls + [c])[0] == calls[0] && (calls + [c])[1..] == calls[1..] + [c];
      ObserveAppend(Exec(l, calls[0].op, calls[0].now).0, calls[1..], c);
    }
  }

  /** The clock starts at `from` or later and never runs backwards. */
  ghost predicate ClockRuns(calls: seq<Call>, from: int) {
    calls == [] || (calls[0].now >= from && ClockRuns(calls[1..], calls[0].now))
  }

  /** No restore hands in a record that has already expired. */
  ghost predicate RestoresLive(l: Layer, calls: seq<Call>)
    decreases |calls|
  {
    calls == [] ||
    (&& (calls[0].op.Restore? ==> NoneExpired(l.channels, calls[0].op.recs, calls[0].now))
     && RestoresLive(Exec(l, calls[0].op, calls[0].now).0, calls[1..]))
  }

  lemma {:induction false} RunsAlike(a: Layer, b: Layer, calls: seq<Call>, from: int)
    requires SimilarLayers(a, b, from) && from >= 0 && ClockRuns(calls, from)
    ensures ObserveVisible(a, WithoutPurges(calls)) == ObserveVisible(b, calls)
    ensures RestoresLive(b, calls) ==> Observe(a, WithoutPurges(calls)) == Observe(b, calls)
    decreases |calls|
  {
    if calls != [] {
      var op, now := calls[0].op, calls[0].now;
      SimilarLater(a.channels, a.records, b.records, from, now);
      var b' := Exec(b, op, now).0;
      if op.Purge? {
        if op.channel in b.channels && b.channels[op.channel].retention != 0 {
          PurgeKeepsSimilar(a.channels, a.records, b.records, op.channel, now);
        }
        RunsAlike(a, b', calls[1..], now);
      } else {
        ExecAlike(a, b, op, now);
        assert ([calls[0]] + WithoutPurges(calls[1..]))[1..] == WithoutPurges(calls[1..]);
        RunsAlike(Exec(a, op, now).0, b', calls[1..], now);
      }
    }
  }

  /**
   * Purge is unobservable: take any run of registrations, writes, deletes, incoming records,
   * restores, reads and purges whose clock is nonnegative and never runs backwards, and drop the
   * purges. Every output stays the same, error and broadcast included, except that a restore may
   * count differently; and that too stays the same if no restore hands in an expired record.
   */
  lemma PurgeIsUnobservable(l: Layer, calls: seq<Call>, from: int)
    requires Sound(l.records) && from >= 0 && ClockRuns(calls, from)
    ensures ObserveVisible(l, WithoutPurges(calls)) == ObserveVisible(l, calls)
    ensures RestoresLive(l, calls) ==> Observe(l, WithoutPurges(calls)) == Observe(l, calls)
  {
    RunsAlike(l, l, calls, from);
  }

  // The one exception, exactly: when a restore counts differently.

  /** Every key is stamped at most as high in `b`; so it is when `b` has been purged and `a` has not. */
  ghost predicate Behind(a: Records, b: Records) {
    forall k :: TimestampOf(b, k) <= TimestampOf(a, k)
  }

  /** Record i is new to `b` and not to `a`, and no earlier one of the list forestalls it. */
  ghost predicate Tells(a: Records, b: Records, recs: seq<SharedRecord>, i: int) {
    && 0 <= i < |recs|
    && TimestampOf(b, recs[i].Key()) < recs[i].timestamp <= TimestampOf(a, recs[i].Key())
    && forall j :: 0 <= j < i && recs[j].Key() == recs[i].Key() ==> recs[j].timestamp < recs[i].timestamp
  }

  lemma RestoreOneBehind(a: Records, b: Records, rec: SharedRecord)
    requires Behind(a, b)
    ensures Behind(RestoreOne(a, rec), RestoreOne(b, rec))
    ensures Accepts(a, rec) ==> Accepts(b, rec)
  {
    forall k
      ensures TimestampOf(RestoreOne(b, rec), k) <= TimestampOf(RestoreOne(a, rec), k)
    {
      assert TimestampOf(b, k) <= TimestampOf(a, k) && TimestampOf(b, rec.Key()) <= TimestampOf(a, rec.Key());
    }
  }

  /** Unless the first record tells, what tells after it told before. */
  lemma TellsLater(a: Records, b: Records, recs: seq<SharedRecord>, i: int)
    requires recs != [] && Behind(a, b) && Accepts(a, recs[0]) == Accepts(b, recs[0])
    ensures Tells(RestoreOne(a, recs[0]), RestoreOne(b, recs[0]), recs[1..], i) <==> i != -1 && Tells(a, b, recs, i + 1)
    ensures !Tells(a, b, recs, 0)
  {
    var rest := recs[1..];
    assert TimestampOf(b, recs[0].Key()) <= TimestampOf(a, recs[0].Key());
    if 0 <= i < |rest| {
      assert rest[i] == recs[i + 1];
      assert forall j :: 0 <= j < i ==> rest[j] == recs[j + 1];
      assert forall j :: 0 < j < i + 1 ==> recs[j] == rest[j - 1];
    }
  }

  /**
   * A restore into the store that is behind never counts less, and counts more exactly if some
   * record of the list tells the two stores apart.
   */
  lemma {:induction false} RestoreCountsDifferIff(a: Records, b: Records, recs: seq<SharedRecord>)
    requires Behind(a, b)
    ensures Behind(RestoreAll(a, recs).0, RestoreAll(b, recs).0)
    ensures RestoreAll(b, recs).1 >= RestoreAll(a, recs).1
    ensures RestoreAll(b, recs).1 != RestoreAll(a, recs).1 <==> exists i :: Tells(a, b, recs, i)
    decreases |recs|
  {
    if recs != [] {
      var a', b', rest := RestoreOne(a, recs[0]), RestoreOne(b, recs[0]), recs[1..];
      RestoreOneBehind(a, b, recs[0]);
      RestoreCountsDifferIff(a', b', rest);
      if Accepts(b, recs[0]) && !Accepts(a, recs[0]) {
        assert Tells(a, b, recs, 0);
      } else {
        TellsFromRest(a, b, recs);
      }
    }
  }

  lemma TellsFromRest(a: Records, b: Records, recs: seq<SharedRecord>)
    requires recs != [] && Behind(a, b) && Accepts(a, recs[0]) == Accepts(b, recs[0])
    ensures (exists i :: Tells(RestoreOne(a, recs[0]), RestoreOne(b, recs[0]), recs[1..], i)) <==>
            exists i :: Tells(a, b, recs, i)
  {
    var a', b', rest := RestoreOne(a, recs[0]), RestoreOne(b, recs[0]), recs[1..];
    if i :| Tells(a', b', rest, i) {
      TellsLater(a, b, recs, i);
      assert Tells(a, b, recs, i + 1);
    }
    if i :| Tells(a, b, recs, i) {
      TellsLater(a, b, recs, i - 1);
      assert Tells(a', b', rest, i - 1);
    }
  }

  /** Of two stores that agree on unexpired records, the one behind stays behind. */
  lemma ExecKeepsBehind(a: Layer, b: Layer, op: Op, now: int)
    requires SimilarLayers(a, b, now) && Behind(a.records, b.records) && !op.Purge?
    ensures Behind(Exec(a, op, now).0.records, Exec(b, op, now).0.records)
  {
    match op
    case Restore(recs) =>
      RestoreCountsDifferIff(a.records, b.records, recs);
    case Incoming(rec, _) =>
      if !IsExpired(a.channels, rec, now) {
        AcceptsAlike(a.channels, a.records, b.records, rec, now);
        ChangeKeepsBehind(a.records, b.records, rec);
      }
    case Put(channel, topic, id, body, role) =>
      if CheckPut(a, channel, role).None? {
        ChangeKeepsBehind(a.records, b.records,
                          SharedRecord(id, channel, topic, a.channels[channel].groupId, a.self, now, body, false));
      }
    case Delete(channel, topic, id) =>
      ChangeKeepsBehind(a.records, b.records, SharedRecord(id, channel, topic, "", "", now, [], true));
    case _ =>
  }

  lemma ChangeKeepsBehind(a: Records, b: Records, rec: SharedRecord)
    requires Behind(a, b)
    ensures Behind(a[rec.Key() := rec], b[rec.Key() := rec])
    ensures Behind(a - {rec.Key()}, b - {rec.Key()})
  {
    var a1, b1, a2, b2 := a[rec.Key() := rec], b[rec.Key() := rec], a - {rec.Key()}, b - {rec.Key()};
    forall k
      ensures TimestampOf(b1, k) <= TimestampOf(a1, k) && TimestampOf(b2, k) <= TimestampOf(a2, k)
    {
      assert TimestampOf(b, k) <= TimestampOf(a, k);
    }
  }

  lemma PurgeKeepsBehind(a: Records, b: Records, channel: string, before: int)
    requires Behind(a, b) && Sound(a)
    ensures Behind(a, WithoutOlder(b, channel, before))
  {
    forall k
      ensures TimestampOf(WithoutOlder(b, channel, before), k) <= TimestampOf(a, k)
    {
      assert TimestampOf(b, k) <= TimestampOf(a, k);
    }
  }

  /** Along the run with its purges (`b`) and without them (`a`), no restored list tells the two apart. */
  ghost predicate RestoresAgree(a: Layer, b: Layer, calls: seq<Call>)
    decreases |calls|
  {
    calls == [] ||
    var op, now, rest := calls[0].op, calls[0].now, calls[1..];
    if op.Purge? then RestoresAgree(a, Exec(b, op, now).0, rest)
    else
      && (op.Restore? ==> forall i :: !Tells(a.records, b.records, op.recs, i))
      && RestoresAgree(Exec(a, op, now).0, Exec(b, op, now).0, rest)
  }

  lemma OutputsAgreeIff(a: Layer, b: Layer, op: Op, now: int)
    requires SimilarLayers(a, b, now) && Behind(a.records, b.records) && now >= 0 && !op.Purge?
    ensures Exec(a, op, now).1 == Exec(b, op, now).1 <==>
            (op.Restore? ==> forall i :: !Tells(a.records, b.records, op.recs, i))
  {
    if op.Restore? {
      RestoreCountsDifferIff(a.records, b.records, op.recs);
    } else {
      ExecAlike(a, b, op, now);
    }
  }

  lemma ConsAgree(x: Out, y: Out, xs: seq<Out>, ys: seq<Out>)
    ensures [x] + xs == [y] + ys <==> x == y && xs == ys
  {
    assert ([x] + xs)[0] == x && ([x] + xs)[1..] == xs;
    assert ([y] + ys)[0] == y && ([y] + ys)[1..] == ys;
  }

  lemma {:induction false} RunsAgreeIff(a: Layer, b: Layer, calls: seq<Call>, from: int)
    requires SimilarLayers(a, b, from) && Behind(a.records, b.records) && from >= 0 && ClockRuns(calls, from)
    ensures Observe(a, WithoutPurges(calls)) == Observe(b, calls) <==> RestoresAgree(a, b, calls)
    decreases |calls|
  {
    if calls != [] {
      var op, now, rest := calls[0].op, calls[0].now, calls[1..];
      SimilarLater(a.channels, a.records, b.records, from, now);
      var a', b' := Exec(a, op, now).0, Exec(b, op, now).0;
      if op.Purge? {
        if op.channel in b.channels && b.channels[op.channel].retention != 0 {
          PurgeKeepsSimilar(a.channels, a.records, b.records, op.channel, now);
          PurgeKeepsBehind(a.records, b.records, op.channel, now - Milliseconds(b.channels[op.channel].retention));
        }
        RunsAgreeIff(a, b', rest, now);
      } else {
        ExecAlike(a, b, op, now);
        ExecKeepsBehind(a, b, op, now);
        OutputsAgreeIff(a, b, op, now);
        RunsAgreeIff(a', b', rest, now);
        assert ([calls[0]] + WithoutPurges(rest))[1..] == WithoutPurges(rest);
        ConsAgree(Exec(a, op, now).1, Exec(b, op, now).1, Observe(a', WithoutPurges(rest)), Observe(b', rest));
      }
    }
  }

  /** Over whole runs: dropping the purges changes no output at all exactly if no restore along the way tells. */
  lemma PurgesShowInCountsIff(l: Layer, calls: seq<Call>, from: int)
    requires Sound(l.records) && from >= 0 && ClockRuns(calls, from)
    ensures Observe(l, WithoutPurges(calls)) == Observe(l, calls) <==> RestoresAgree(l, l, calls)
  {
    RunsAgreeIff(l, l, calls, from);
  }

  // When a purge shows after all: a clock that runs backwards, or times below 0.

  /** Stored, and old enough for a purge at `late` to remove it. */
  ghost predicate Purged(l: Layer, channel: string, late: int, k: SharedKey)
    requires channel in l.channels
  {
    && k in l.records && k.channel == channel
    && l.records[k].timestamp + Milliseconds(l.channels[channel].retention) < late
  }

  /** Purged at `late`, yet not expired at `read`. */
  ghost predicate Lost(l: Layer, channel: string, late: int, read: int, k: SharedKey)
    requires channel in l.channels
  {
    && Purged(l, channel, late, k)
    && read < l.records[k].timestamp + Milliseconds(l.channels[channel].retention)
  }

  lemma PurgedIff(l: Layer, channel: string, late: int, k: SharedKey)
    requires Keyed(l.records) && channel in l.channels && l.channels[channel].retention != 0
    ensures var after := Exec(l, Op.Purge(channel), late).0;
            && after.channels == l.channels
            && (k in after.records <==> k in l.records && !Purged(l, channel, late, k))
            && (k in after.records ==> after.records[k] == l.records[k])
  {
  }

  /**
   * A read after a purge differs from the same read without it exactly when a record it covers was
   * old enough to be purged but, at the time of the read, would not have expired; so only if the
   * clock has gone back.
   */
  lemma PurgeShowsInGetIff(l: Layer, channel: string, id: string, late: int, read: int)
    requires Keyed(l.records) && channel in l.channels && l.channels[channel].retention != 0
    ensures var after := Exec(l, Op.Purge(channel), late).0; var op := Op.Get(channel, id);
            Exec(after, op, read).1 != Exec(l, op, read).1 <==> Lost(l, channel, late, read, SharedKey(channel, id))
  {
    PurgedIff(l, channel, late, SharedKey(channel, id));
  }

  /**
   * The count of a restore after a purge is never the smaller one, and differs exactly if some
   * record of the list is stamped above 0 and not above the purged record of its key, and above all
   * earlier ones of that key in the list.
   */
  lemma PurgeShowsInCountIff(l: Layer, channel: string, late: int, recs: seq<SharedRecord>, now: int)
    requires Sound(l.records) && channel in l.channels && l.channels[channel].retention != 0
    ensures var after := Exec(l, Op.Purge(channel), late).0; var op := Op.Restore(recs);
            && Exec(after, op, now).1.count >= Exec(l, op, now).1.count
            && (Exec(after, op, now).1 != Exec(l, op, now).1 <==>
                  exists i :: 0 <= i < |recs| && RestoresPurged(l, channel, late, recs, i))
  {
    var after := Exec(l, Op.Purge(channel), late).0;
    PurgeKeepsBehind(l.records, l.records, channel, late - Milliseconds(l.channels[channel].retention));
    RestoreCountsDifferIff(l.records, after.records, recs);
    forall i
      ensures Tells(l.records, after.records, recs, i) <==> 0 <= i < |recs| && RestoresPurged(l, channel, late, recs, i)
    {
      if 0 <= i < |recs| {
        PurgedIff(l, channel, late, recs[i].Key());
      }
    }
  }

  ghost predicate RestoresPurged(l: Layer, channel: string, late: int, recs: seq<SharedRecord>, i: nat)
    requires channel in l.channels && i < |recs|
  {
    var k := recs[i].Key();
    && Purged(l, channel, late, k)
    && 0 < recs[i].timestamp <= l.records[k].timestamp
    && forall j :: 0 <= j < i && recs[j].Key() == k ==> recs[j].timestamp < recs[i].timestamp
  }

  lemma PurgeShowsInListIff(l: Layer, channel: string, late: int, read: int)
    requires Keyed(l.records) && channel in l.channels && l.channels[channel].retention != 0
    ensures var after := Exec(l, Op.Purge(channel), late).0; var op := Op.List(channel);
            Exec(after, op, read).1 != Exec(l, op, read).1 <==> exists k :: Lost(l, channel, late, read, k)
  {
    var after := Exec(l, Op.Purge(channel), late).0;
    var full := Live(l.channels, InChannel(l.records, channel), read);
    var left := Live(l.channels, InChannel(after.records, channel), read);
    forall k
      ensures k in after.records ==> k in l.records && after.records[k] == l.records[k]
      ensures k in l.records && k !in after.records && l.records[k] in full ==> Lost(l, channel, late, read, k)
      ensures Lost(l, channel, late, read, k) ==> l.records[k] in full && l.records[k] !in left
    {
      PurgedIff(l, channel, late, k);
      if Lost(l, channel, late, read, k) {
        LostShows(l, channel, late, read, k);
      }
    }
    if full != left {
      var r :| r in full && r !in left;
      assert Lost(l, channel, late, read, r.Key());
    }
  }

  lemma PurgeShowsInDumpIff(l: Layer, channel: string, groupId: string, late: int, read: int)
    requires Keyed(l.records) && channel in l.channels && l.channels[channel].retention != 0
    ensures var after := Exec(l, Op.Purge(channel), late).0; var op := Op.Dump(groupId);
            Exec(after, op, read).1 != Exec(l, op, read).1 <==>
            exists k :: Lost(l, channel, late, read, k) && l.records[k].groupId == groupId
  {
    var after := Exec(l, Op.Purge(channel), late).0;
    var full := Live(l.channels, InGroup(l.records, groupId), read);
    var left := Live(l.channels, InGroup(after.records, groupId), read);
    forall k
      ensures k in after.records ==> k in l.records && after.records[k] == l.records[k]
      ensures k in l.records && k !in after.records && l.records[k] in full ==> Lost(l, channel, late, read, k)
      ensures Lost(l, channel, late, read, k) && l.records[k].groupId == groupId ==>
                l.records[k] in full && l.records[k] !in left
    {
      PurgedIff(l, channel, late, k);
      if Lost(l, channel, late, read, k) {
        LostShows(l, channel, late, read, k);
      }
    }
    if full != left {
      var r :| r in full && r !in left;
      assert Lost(l, channel, late, read, r.Key());
    }
  }

  /** A lost record is live before the purge, and stored under no key after it. */
  lemma LostShows(l: Layer, channel: string, late: int, read: int, k: SharedKey)
    requires Keyed(l.records) && channel in l.channels && l.channels[channel].retention != 0
    requires Lost(l, channel, late, read, k)
    ensures !IsExpired(l.channels, l.records[k], read)
    ensures l.records[k] !in Exec(l, Op.Purge(channel), late).0.records.Values
  {
    var after := Exec(l, Op.Purge(channel), late).0;
    forall j | j in after.records
      ensures after.records[j] != l.records[k]
    {
      PurgedIff(l, channel, late, j);
      PurgedIff(l, channel, late, k);
      assert l.records[j].Key() == j && l.records[k].Key() == k;
    }
  }

  /** The simplest case: one record, and a clock that goes back by no more than it had run over. */
  lemma BackwardClockShowsPurge(l: Layer, rec: SharedRecord, late: int, read: int)
    requires Keyed(l.records) && rec.channel in l.channels && l.channels[rec.channel].retention != 0
    requires rec.Key() in l.records && l.records[rec.Key()] == rec
    requires var expiry := rec.timestamp + Milliseconds(l.channels[rec.channel].retention); read < expiry < late
    ensures var purge, get := Call(Purge(rec.channel), late), Call(Get(rec.channel, rec.id), read);
            Observe(l, [purge, get]) == [Found(None)] && Observe(l, [get]) == [Found(Some(rec))]
  {
    var purge, get := Call(Purge(rec.channel), late), Call(Get(rec.channel, rec.id), read);
    var after := Exec(l, purge.op, late).0;
    PurgedIff(l, rec.channel, late, rec.Key());
    assert [purge, get][1..] == [get] && [get][1..] == [];
    assert Observe(after, [get]) == [Exec(after, get.op, read).1] + Observe(Exec(after, get.op, read).0, []);
    assert Observe(l, [get]) == [Exec(l, get.op, read).1] + Observe(Exec(l, get.op, read).0, []);
    assert Observe(l, [purge, get]) == [] + Observe(after, [get]);
  }

  /**
   * A purge flips a last-write-wins decision exactly when it removes the stored record and 0, which
   * an absent record counts as, lies on the other side of the arriving stamp than the stored one.
   */
  lemma PurgeFlipsAcceptanceIff(l: Layer, channel: string, late: int, rec: SharedRecord)
    requires Keyed(l.records) && channel in l.channels && l.channels[channel].retention != 0
    ensures var after := Exec(l, Op.Purge(channel), late).0; var k := rec.Key();
            Accepts(after.records, rec) != Accepts(l.records, rec) <==>
            && Purged(l, channel, late, k)
            && (l.records[k].timestamp < rec.timestamp <= 0 || 0 < rec.timestamp <= l.records[k].timestamp)
  {
    PurgedIff(l, channel, late, rec.Key());
  }

  /** For an unexpired record this needs a stamp of at most 0: an acceptance turns into a refusal. */
  lemma NegativeClockShowsPurge(l: Layer, rec: SharedRecord, now: int)
    requires Keyed(l.records) && rec.channel in l.channels && l.channels[rec.channel].retention != 0
    requires !IsExpired(l.channels, rec, now)
    ensures var after := Exec(l, Op.Purge(rec.channel), now).0; var k := rec.Key();
            Accepts(after.records, rec) != Accepts(l.records, rec) <==>
            rec.timestamp <= 0 && Purged(l, rec.channel, now, k)
    ensures var after := Exec(l, Op.Purge(rec.channel), now).0;
            Accepts(after.records, rec) ==> Accepts(l.records, rec)
  {
    PurgeFlipsAcceptanceIff(l, rec.channel, now, rec);
  }

  // ---------------------------------------------------------------------------------------
  // What gets into the store
  // ---------------------------------------------------------------------------------------

  /** Written here by someone the channel lets write. */
  ghost predicate OwnWrite(l: Layer, r: SharedRecord) {
    && r.did == l.self
    && r.channel in l.channels
    && var ch := l.channels[r.channel];
       r.groupId == ch.groupId && (ch.access.Some? ==> ch.access.value.canWrite(l.self))
  }

  /** Received from someone whose records the channel accepts, with a body of the channel's form. */
  ghost predicate AcceptedRecord(l: Layer, r: SharedRecord) {
    && r.channel in l.channels
    && var ch := l.channels[r.channel];
       && (ch.access.Some? ==> ch.access.value.canRead(r.did))
       && (ch.schema.Some? ==> ch.schema.value(r.body))
  }

  ghost predicate Vetted(l: Layer, r: SharedRecord) {
    !r.deleted && (OwnWrite(l, r) || AcceptedRecord(l, r))
  }

  ghost predicate AllVetted(l: Layer) {
    forall k :: k in l.records ==> Vetted(l, l.records[k])
  }

  /** Channels are never replaced, so what was vetted stays so. */
  lemma VettedStays(l: Layer, ch: Channel, r: SharedRecord)
    requires Vetted(l, r) && ch.name !in l.channels
    ensures Vetted(l.(channels := l.channels[ch.name := ch]), r)
  {
  }

  lemma ExecVets(l: Layer, op: Op, now: int)
    requires AllVetted(l) && !op.Restore?
    ensures AllVetted(Exec(l, op, now).0)
    ensures Exec(l, op, now).1.Failed? ==> Exec(l, op, now).0 == l
  {
    match op
    case RegisterChannel(ch) =>
      if ch.name !in l.channels {
        forall k | k in l.records
          ensures Vetted(Exec(l, op, now).0, l.records[k])
        {
          VettedStays(l, ch, l.records[k]);
        }
      }
    case _ =>
  }

  function Run(l: Layer, calls: seq<Call>): Layer
    decreases |calls|
  {
    if calls == [] then l else Run(Exec(l, calls[0].op, calls[0].now).0, calls[1..])
  }

  /**
   * Whatever is called and whatever arrives, in whatever order, short of a restore (which checks
   * nothing): every stored record was written here by someone allowed to write or passed the
   * channel's access and schema checks, and none is a deletion.
   */
  lemma {:induction false} StoreIsVetted(l: Layer, calls: seq<Call>)
    requires AllVetted(l) && forall c :: c in calls ==> !c.op.Restore?
    ensures AllVetted(Run(l, calls))
    decreases |calls|
  {
    if calls != [] {
      ExecVets(l, calls[0].op, calls[0].now);
      StoreIsVetted(Exec(l, calls[0].op, calls[0].now).0, calls[1..]);
    }
  }

  /** A restore stores the record it is handed, access and schema notwithstanding. */
  lemma RestoreIsUnchecked(l: Layer, r: SharedRecord, now: int)
    requires Accepts(l.records, r)
    ensures r in Exec(l, Op.Restore([r]), now).0.records.Values
    ensures AllVetted(l) ==> (AllVetted(Exec(l, Op.Restore([r]), now).0) <==> Vetted(l, r))
  {
    var after := Exec(l, Op.Restore([r]), now).0;
    assert RestoreAll(RestoreOne(l.records, r), []) == (RestoreOne(l.records, r), 0);
    assert [r][1..] == [];
    assert after.records == l.records[r.Key() := r];
    assert after.records[r.Key()] == r;
    assert Vetted(after, r) <==> Vetted(l, r);
    if AllVetted(l) && Vetted(l, r) {
      forall k | k in after.records
        ensures Vetted(after, after.records[k])
      {
        assert k == r.Key() || Vetted(l, l.records[k]);
      }
    }
  }

  /** A deletion that arrives, passes the checks and is newer than the stored record. */
  ghost predicate AcceptedDeletion(l: Layer, op: Op, now: int, k: SharedKey)
    requires k in l.records
  {
    && op.Incoming? && op.rec.deleted && op.rec.Key() == k && op.rec.channel in l.channels
    && CheckIncoming(l.channels, op.rec, op.role).None?
    && !IsExpired(l.channels, op.rec, now)
    && op.rec.timestamp > l.records[k].timestamp
  }

  /**
   * What removes a record that has not expired: a local delete in a registered channel, by whoever
   * calls it and whoever wrote the record, for nothing is checked; or an accepted deletion from a
   * peer. No purge does, and nothing else.
   */
  lemma RemovedIff(l: Layer, op: Op, now: int, k: SharedKey)
    requires Keyed(l.records) && LiveAt(l.channels, l.records, k, now)
    ensures k !in Exec(l, op, now).0.records <==>
            || (op.Delete? && op.channel in l.channels && k == SharedKey(op.channel, op.id))
            || AcceptedDeletion(l, op, now, k)
  {
    match op
    case Restore(recs) => RestoreKeepsKeys(l.records, recs);
    case _ =>
  }

  lemma {:induction false} RestoreKeepsKeys(records: Records, recs: seq<SharedRecord>)
    ensures records.Keys <= RestoreAll(records, recs).0.Keys
    decreases |recs|
  {
    if recs != [] {
      RestoreKeepsKeys(RestoreOne(records, recs[0]), recs[1..]);
    }
  }

  // ---------------------------------------------------------------------------------------
  // What each call does
  // ---------------------------------------------------------------------------------------

  /** Not past its retention: unknown channels and a retention of 0 keep records for good. */
  predicate InTime(channels: Channels, rec: SharedRecord, now: int) {
    rec.channel in channels ==>
      var retention := channels[rec.channel].retention;
      || retention == 0
      || (if retention > 0 then (now - rec.timestamp + 1) * 1_000_000 <= retention
          else (now - rec.timestamp) * 1_000_000 < retention)
  }

  lemma InTimeIff(channels: Channels, rec: SharedRecord, now: int)
    ensures InTime(channels, rec, now) <==> !IsExpired(channels, rec, now)
  {
    if rec.channel in channels {
      MillisecondsTruncates(channels[rec.channel].retention);
    }
  }

  /** A get returns the record stored under the key as long as it is in time. */
  lemma GetFindsIff(l: Layer, channel: string, id: string, now: int, rec: SharedRecord)
    ensures Exec(l, Op.Get(channel, id), now).1 == Found(Some(rec)) <==>
            var k := SharedKey(channel, id);
            k in l.records && l.records[k] == rec && InTime(l.channels, rec, now)
    ensures Exec(l, Op.Get(channel, id), now).0 == l
  {
    InTimeIff(l.channels, rec, now);
  }

  /** Lists and dumps hold what single gets find, by channel and by group. */
  lemma ListsAreGets(l: Layer, channel: string, groupId: string, now: int, rec: SharedRecord)
    requires Keyed(l.records)
    ensures var found := Exec(l, Op.Get(rec.channel, rec.id), now).1 == Found(Some(rec));
            && Exec(l, Op.List(channel), now).1.Listing? && Exec(l, Op.Dump(groupId), now).1.Listing?
            && (rec in Exec(l, Op.List(channel), now).1.recs <==> rec.channel == channel && found)
            && (rec in Exec(l, Op.Dump(groupId), now).1.recs <==> rec.groupId == groupId && found)
  {
    if rec.Key() in l.records && l.records[rec.Key()] == rec {
      assert SharedKey(rec.channel, rec.id) == rec.Key();
    }
  }

  /** The objections to a put, in order; without one the record is stored and handed on as it was given. */
  lemma PutMeans(l: Layer, channel: string, topic: string, id: string, body: Bytes, role: RoleCheck, now: int)
    ensures var (after, out) := Exec(l, Op.Put(channel, topic, id, body, role), now);
            var mayWrite := channel in l.channels
                            && (l.channels[channel].access.Some? ==> l.channels[channel].access.value.canWrite(l.self));
            && (out == Failed(ChannelNotFound) <==> channel !in l.channels)
            && (out == Failed(AccessDenied) <==> channel in l.channels && (!mayWrite || role.Denied?))
            && (out == Failed(ResolverError) <==> mayWrite && role.ResolverFailed?)
            && (out.Broadcast? <==> mayWrite && role.Allowed?)
            && (!out.Broadcast? ==> out.Failed? && after == l)
            && (out.Broadcast? ==>
                  var rec, k := out.rec, SharedKey(channel, id);
                  && rec.id == id && rec.channel == channel && rec.topic == topic && rec.body == body && !rec.deleted
                  && rec.did == l.self && rec.groupId == l.channels[channel].groupId && rec.timestamp == now
                  && k in after.records && after.records[k] == rec
                  && after.self == l.self && after.channels == l.channels
                  && forall j :: j != k ==> SameAt(l, after, j))
  {
  }

  ghost predicate SameAt(a: Layer, b: Layer, k: SharedKey) {
    (k in a.records <==> k in b.records) && (k in a.records ==> a.records[k] == b.records[k])
  }

  /** A delete in a registered channel removes the record and hands on a deletion stamped now. */
  lemma DeleteMeans(l: Layer, channel: string, topic: string, id: string, now: int)
    ensures var (after, out) := Exec(l, Op.Delete(channel, topic, id), now); var k := SharedKey(channel, id);
            && (channel !in l.channels ==> out == Failed(ChannelNotFound) && after == l)
            && (channel in l.channels ==>
                  && out.Broadcast? && out.rec.deleted && out.rec.Key() == k && out.rec.topic == topic
                  && out.rec.did == l.self && out.rec.groupId == l.channels[channel].groupId
                  && out.rec.timestamp == now && out.rec.body == []
                  && k !in after.records && after.self == l.self && after.channels == l.channels
                  && forall j :: j != k ==> SameAt(l, after, j))
  {
  }

  /** Everything an arriving record must pass, except being newer. */
  predicate Welcome(l: Layer, rec: SharedRecord, role: RoleCheck, now: int) {
    && rec.channel in l.channels
    && (l.channels[rec.channel].access.Some? ==> l.channels[rec.channel].access.value.canRead(rec.did))
    && role == Allowed
    && (!rec.deleted && l.channels[rec.channel].schema.Some? ==> l.channels[rec.channel].schema.value(rec.body))
    && InTime(l.channels, rec, now)
  }

  /** Newer than what is stored; an absent record counts as stamped 0. */
  predicate IsNews(l: Layer, rec: SharedRecord) {
    if rec.Key() in l.records then rec.timestamp > l.records[rec.Key()].timestamp else rec.timestamp > 0
  }

  /**
   * What an arrival does: its key holds the record afterwards exactly if it held it before, or the
   * record is no deletion, is welcome and is news; the key is empty afterwards exactly if it was
   * empty and stays so, or a welcome, newer deletion came; and nothing else changes.
   */
  lemma IncomingMeansIff(l: Layer, rec: SharedRecord, role: RoleCheck, now: int)
    ensures var after := Exec(l, Incoming(rec, role), now).0; var k := rec.Key();
            var effective := Welcome(l, rec, role, now) && IsNews(l, rec);
            && (k in after.records && after.records[k] == rec <==>
                  (k in l.records && l.records[k] == rec) || (!rec.deleted && effective))
            && (k !in after.records <==> if effective then rec.deleted else k !in l.records)
            && (!effective ==> after == l)
            && after.self == l.self && after.channels == l.channels
            && forall j :: j != k ==> SameAt(l, after, j)
  {
    InTimeIff(l.channels, rec, now);
  }

  /** The channel takes the sender's records, and the record's form. */
  predicate Readable(ch: Channel, rec: SharedRecord) {
    ch.access.Some? ==> ch.access.value.canRead(rec.did)
  }

  predicate Shaped(ch: Channel, rec: SharedRecord) {
    !rec.deleted && ch.schema.Some? ==> ch.schema.value(rec.body)
  }

  /** Which objection an arrival meets, in order; what is unknown, expired or old is passed over in silence. */
  lemma IncomingObjectionIff(l: Layer, rec: SharedRecord, role: RoleCheck, now: int)
    ensures var out := Exec(l, Incoming(rec, role), now).1;
            var known := rec.channel in l.channels;
            var readable := known && Readable(l.channels[rec.channel], rec);
            var shaped := known && Shaped(l.channels[rec.channel], rec);
            && (out == Failed(AccessDenied) <==> known && (!readable || role.Denied?))
            && (out == Failed(ResolverError) <==> readable && role.ResolverFailed?)
            && (out == Failed(SchemaValidation) <==> readable && role.Allowed? && !shaped)
            && (out == Done <==> !known || (readable && role.Allowed? && shaped))
  {
  }

  /**
   * From one device to another: what a successful put broadcasts, a layer that welcomes it and holds
   * nothing as new returns from its next get, with the channel, id, topic, body and stamp that were
   * put, under the writer's name and group; and so does the writer itself while it is in time.
   */
  lemma PutReaches(a: Layer, b: Layer, channel: string, topic: string, id: string, body: Bytes,
                   roleA: RoleCheck, roleB: RoleCheck, now: int, later: int)
    requires var out := Exec(a, Op.Put(channel, topic, id, body, roleA), now).1;
             out.Broadcast? && Welcome(b, out.rec, roleB, later) && IsNews(b, out.rec)
    ensures var (a', out) := Exec(a, Op.Put(channel, topic, id, body, roleA), now);
            var b', get := Exec(b, Incoming(out.rec, roleB), later).0, Op.Get(channel, id);
            var seen := SharedRecord(id, channel, topic, a.channels[channel].groupId, a.self, now, body, false);
            && Exec(b', get, later).1 == Found(Some(seen))
            && (Exec(a', get, later).1 == Found(Some(seen)) <==> InTime(a.channels, seen, later))
  {
    PutMeans(a, channel, topic, id, body, roleA, now);
    var (a', out) := Exec(a, Op.Put(channel, topic, id, body, roleA), now);
    IncomingMeansIff(b, out.rec, roleB, later);
    GetFindsIff(Exec(b, Incoming(out.rec, roleB), later).0, channel, id, later, out.rec);
    GetFindsIff(a', channel, id, later, out.rec);
  }

  /** What a delete broadcasts removes the key wherever it is welcome and newer. */
  lemma DeleteReaches(a: Layer, b: Layer, channel: string, topic: string, id: string,
                      roleB: RoleCheck, now: int, later: int)
    requires channel in a.channels
    requires var rec := Exec(a, Op.Delete(channel, topic, id), now).1.rec;
             Welcome(b, rec, roleB, later) && IsNews(b, rec)
    ensures var (a', out) := Exec(a, Op.Delete(channel, topic, id), now);
            var b', get := Exec(b, Incoming(out.rec, roleB), later).0, Op.Get(channel, id);
            Exec(a', get, later).1 == Found(None) && Exec(b', get, later).1 == Found(None)
  {
    DeleteMeans(a, channel, topic, id, now);
    IncomingMeansIff(b, Exec(a, Op.Delete(channel, topic, id), now).1.rec, roleB, later);
  }

  /** A channel is registered once and for all. */
  lemma RegisterMeans(l: Layer, ch: Channel, now: int)
    ensures var (after, out) := Exec(l, Op.RegisterChannel(ch), now);
            && (out == Done <==> ch.name !in l.channels)
            && (out != Done ==> out == Failed(ChannelExists) && after == l)
            && ch.name in after.channels
            && (out == Done ==> after.channels[ch.name] == ch)
            && (forall c :: c in l.channels ==> c in after.channels && after.channels[c] == l.channels[c])
            && (forall c :: c in after.channels && c != ch.name ==> c in l.channels)
            && after.records == l.records && after.self == l.self
  {
  }

  /** A purge reports how many records went, and in a permanent or unknown channel none goes. */
  lemma PurgeMeans(l: Layer, channel: string, now: int)
    ensures var (after, out) := Exec(l, Op.Purge(channel), now);
            && (channel !in l.channels ==> out == Failed(ChannelNotFound) && after == l)
            && (channel in l.channels ==> out.Count? && out.count == |l.records| - |after.records|)
            && (channel in l.channels && l.channels[channel].retention == 0 ==> after == l)
  {
    if channel in l.channels && l.channels[channel].retention != 0 {
      RemovedAreCounted(l.records, channel, now - Milliseconds(l.channels[channel].retention));
    }
  }

  lemma RemovedAreCounted(records: Records, channel: string, before: int)
    ensures |Removed(records, channel, before)| == |records| - |WithoutOlder(records, channel, before)|
  {
    var gone, left := Removed(records, channel, before), WithoutOlder(records, channel, before);
    assert records.Keys == left.Keys + gone && left.Keys !! gone;
    assert |records| == |records.Keys| && |left| == |left.Keys|;
  }

  /** The newest of store and list, key by key, as a restore leaves it. */
  ghost predicate NewestOf(before: Records, recs: seq<SharedRecord>, after: Records) {
    && (forall k :: k in before ==> k in after && before[k].timestamp <= after[k].timestamp)
    && (forall r :: r in recs ==> r.timestamp <= TimestampOf(after, r.Key()))
    && (forall k :: k in after ==>
          || (k in before && after[k] == before[k])
          || (after[k] in recs && after[k].Key() == k && after[k].timestamp > TimestampOf(before, k)))
  }

  lemma {:induction false} RestoreIsNewest(records: Records, recs: seq<SharedRecord>)
    ensures NewestOf(records, recs, RestoreAll(records, recs).0)
    ensures forall k :: TimestampOf(records, k) <= TimestampOf(RestoreAll(records, recs).0, k)
    decreases |recs|
  {
    if recs != [] {
      var mid, rest := RestoreOne(records, recs[0]), recs[1..];
      assert recs == [recs[0]] + rest;
      RestoreIsNewest(mid, rest);
      RestoreStep(records, recs[0], rest, RestoreAll(mid, rest).0);
    }
  }

  /** It reports 0 exactly when the list has nothing newer than the store. */
  lemma {:induction false} RestoreCountsNothingIff(records: Records, recs: seq<SharedRecord>)
    ensures RestoreAll(records, recs).1 == 0 <==> forall r :: r in recs ==> r.timestamp <= TimestampOf(records, r.Key())
    decreases |recs|
  {
    if recs != [] {
      assert forall r :: r in recs <==> r == recs[0] || r in recs[1..];
      RestoreCountsNothingIff(RestoreOne(records, recs[0]), recs[1..]);
    }
  }

  /** And each record at the end of a list counts exactly if it is newer than all before it left. */
  lemma {:induction false} RestoreAppend(records: Records, recs: seq<SharedRecord>, r: SharedRecord)
    ensures var (before, n) := RestoreAll(records, recs); var (after, m) := RestoreAll(records, recs + [r]);
            if r.timestamp > TimestampOf(before, r.Key()) then m == n + 1 && after == before[r.Key() := r]
            else m == n && after == before
    decreases |recs|
  {
    if recs == [] {
      assert recs + [r] == [r] && [r][1..] == [];
    } else {
      assert (recs + [r])[0] == recs[0] && (recs + [r])[1..] == recs[1..] + [r];
      RestoreAppend(RestoreOne(records, recs[0]), recs[1..], r);
    }
  }

  lemma RestoreStep(records: Records, r: SharedRecord, rest: seq<SharedRecord>, after: Records)
    requires NewestOf(RestoreOne(records, r), rest, after)
    requires forall k :: TimestampOf(RestoreOne(records, r), k) <= TimestampOf(after, k)
    ensures NewestOf(records, [r] + rest, after)
    ensures forall k :: TimestampOf(records, k) <= TimestampOf(after, k)
  {
    var mid := RestoreOne(records, r);
    assert r in [r] + rest && forall x :: x in [r] + rest <==> x == r || x in rest;
    assert TimestampOf(mid, r.Key()) <= TimestampOf(after, r.Key());
    forall k
      ensures TimestampOf(records, k) <= TimestampOf(mid, k) <= TimestampOf(after, k)
    {
    }
  }

  // ---------------------------------------------------------------------------------------
  // The stateful layer
  // ---------------------------------------------------------------------------------------

  class MemSharedStorage {
    var records: Records

    constructor ()
      ensures records == map[]
    {
      records := map[];
    }

    method PutShared(rec: SharedRecord)
      modifies this
      ensures records == old(records)[rec.Key() := rec]
    {
      records := records[SharedKey(rec.channel, rec.id) := rec];
    }

    method GetShared(channel: string, id: string) returns (r: Option<SharedRecord>)
      ensures var k := SharedKey(channel, id); r == if k in records then Some(records[k]) else None
    {
      var k := SharedKey(channel, id);
      r := if k in records then Some(records[k]) else None;
    }

    method GetTimestamp(channel: string, id: string) returns (t: int)
      ensures t == TimestampOf(records, SharedKey(channel, id))
    {
      var k := SharedKey(channel, id);
      t := if k in records then records[k].timestamp else 0;
    }

    method DeleteShared(channel: string, id: string)
      modifies this
      ensures records == old(records) - {SharedKey(channel, id)}
    {
      records := records - {SharedKey(channel, id)};
    }

    method ListByChannel(channel: string) returns (r: seq<SharedRecord>)
      requires Keyed(records)
      ensures ListsOnce(InChannel(records, channel), r)
    {
      r := [];
      var todo := records.Keys;
      while todo != {}
        invariant todo <= records.Keys
        invariant forall x :: x in r <==>
                    exists k :: k in records && k !in todo && k.channel == channel && records[k] == x
        invariant forall i, j :: 0 <= i < j < |r| ==> r[i] != r[j]
        decreases todo
      {
        var k :| k in todo;
        todo := todo - {k};
        if k.channel == channel {
          assert records[k] !in r;
          r := r + [records[k]];
        }
      }
    }

    method ListByGroup(groupId: string) returns (r: seq<SharedRecord>)
      requires Keyed(records)
      ensures ListsOnce(InGroup(records, groupId), r)
    {
      r := [];
      var todo := records.Keys;
      while todo != {}
        invariant todo <= records.Keys
        invariant forall x :: x in r <==>
                    exists k :: k in records && k !in todo && records[k].groupId == groupId && records[k] == x
        invariant forall i, j :: 0 <= i < j < |r| ==> r[i] != r[j]
        decreases todo
      {
        var k :| k in todo;
        todo := todo - {k};
        if records[k].groupId == groupId {
          assert records[k] !in r;
          r := r + [records[k]];
        }
      }
    }

    /** Deletes while iterating, in whatever order the map is walked. */
    method DeleteExpired(channel: string, before: int) returns (deleted: nat)
      modifies this
      ensures records == WithoutOlder(old(records), channel, before)
      ensures deleted == |Removed(old(records), channel, before)|
    {
      deleted := 0;
      var todo := records.Keys;
      ghost var gone: set<SharedKey> := {};
      while todo != {}
        invariant forall k :: k in gone <==>
                    k in old(records) && k !in todo && k.channel == channel && old(records)[k].timestamp < before
        invariant todo <= old(records).Keys && deleted == |gone|
        invariant records == old(records) - gone
        decreases todo
      {
        var k :| k in todo;
        todo := todo - {k};
        if k.channel == channel && records[k].timestamp < before {
          gone := gone + {k};
          records := records - {k};
          deleted := deleted + 1;
        }
      }
      assert gone == Removed(old(records), channel, before);
    }
  }

  class GroupShareLayer {
    const selfDID: string
    const storage: MemSharedStorage
    var channels: Channels

    function L(): Layer
      reads this, storage
    {
      Layer(selfDID, channels, storage.records)
    }

    ghost predicate Valid()
      reads this, storage
    {
      Keyed(storage.records)
    }

    constructor (selfDID: string, storage: MemSharedStorage)
      ensures this.selfDID == selfDID && this.storage == storage && channels == map[]
    {
      this.selfDID, this.storage, channels := selfDID, storage, map[];
    }

    method RegisterChannel(ch: Channel, now: int) returns (out: Out)
      requires Valid()
      modifies this
      ensures Valid()
      ensures (L(), out) == Exec(old(L()), Op.RegisterChannel(ch), now)
    {
      if ch.name in channels {
        return Failed(ChannelExists);
      }
      channels := channels[ch.name := ch];
      out := Done;
    }

    method Put(channel: string, topic: string, id: string, body: Bytes, role: RoleCheck, now: int) returns (out: Out)
      requires Valid()
      modifies storage
      ensures Valid()
      ensures (L(), out) == Exec(old(L()), Op.Put(channel, topic, id, body, role), now)
    {
      if channel !in channels {
        return Failed(ChannelNotFound);
      }
      var ch := channels[channel];
      if ch.access.Some? && !ch.access.value.canWrite(selfDID) {
        return Failed(AccessDenied);
      }
      match role {
        case ResolverFailed => return Failed(ResolverError);
        case Denied => return Failed(AccessDenied);
        case Allowed =>
      }
      var rec := SharedRecord(id, channel, topic, ch.groupId, selfDID, now, body, false);
      storage.PutShared(rec);
      out := Broadcast(rec);
    }

    method Get(channel: string, id: string, now: int) returns (out: Out)
      ensures (L(), out) == Exec(L(), Op.Get(channel, id), now)
    {
      var rec := storage.GetShared(channel, id);
      if rec.None? || IsExpired(channels, rec.value, now) {
        return Found(None);
      }
      out := Found(rec);
    }

    method Delete(channel: string, topic: string, id: string, now: int) returns (out: Out)
      requires Valid()
      modifies storage
      ensures Valid()
      ensures (L(), out) == Exec(old(L()), Op.Delete(channel, topic, id), now)
    {
      if channel !in channels {
        return Failed(ChannelNotFound);
      }
      storage.DeleteShared(channel, id);
      out := Broadcast(SharedRecord(id, channel, topic, channels[channel].groupId, selfDID, now, [], true));
    }

    method List(channel: string, now: int) returns (r: seq<SharedRecord>)
      requires Valid()
      ensures exists s :: Exec(L(), Op.List(channel), now) == (L(), Listing(s)) && ListsOnce(s, r)
    {
      var recs := storage.ListByChannel(channel);
      r := KeepLive(recs, now);
      var live := Live(channels, InChannel(storage.records, channel), now);
      assert Exec(L(), Op.List(channel), now) == (L(), Listing(live));
    }

    method Dump(groupId: string, now: int) returns (r: seq<SharedRecord>)
      requires Valid()
      ensures exists s :: Exec(L(), Op.Dump(groupId), now) == (L(), Listing(s)) && ListsOnce(s, r)
    {
      var recs := storage.ListByGroup(groupId);
      r := KeepLive(recs, now);
      var live := Live(channels, InGroup(storage.records, groupId), now);
      assert Exec(L(), Op.Dump(groupId), now) == (L(), Listing(live));
    }

    method KeepLive(recs: seq<SharedRecord>, now: int) returns (r: seq<SharedRecord>)
      requires forall i, j :: 0 <= i < j < |recs| ==> recs[i] != recs[j]
      ensures forall x :: x in r <==> x in recs && !IsExpired(channels, x, now)
      ensures forall i, j :: 0 <= i < j < |r| ==> r[i] != r[j]
    {
      r := [];
      for i := 0 to |recs|
        invariant forall x :: x in r <==> x in recs[..i] && !IsExpired(channels, x, now)
        invariant forall i, j :: 0 <= i < j < |r| ==> r[i] != r[j]
      {
        if !IsExpired(channels, recs[i], now) {
          r := r + [recs[i]];
        }
      }
    }

    method Restore(recs: seq<SharedRecord>, now: int) returns (out: Out)
      requires Valid()
      modifies storage
      ensures Valid()
      ensures (L(), out) == Exec(old(L()), Op.Restore(recs), now)
    {
      var applied := 0;
      for i := 0 to |recs|
        invariant var (records, n) := RestoreAll(storage.records, recs[i..]);
                  RestoreAll(old(storage.records), recs) == (records, applied + n)
        invariant Valid()
      {
        var rec := recs[i];
        assert recs[i..][1..] == recs[i + 1..];
        var existing := storage.GetTimestamp(rec.channel, rec.id);
        if rec.timestamp > existing {
          storage.PutShared(rec);
          applied := applied + 1;
        }
      }
      out := Count(applied);
    }

    method Purge(channel: string, now: int) returns (out: Out)
      requires Valid()
      modifies storage
      ensures Valid()
      ensures (L(), out) == Exec(old(L()), Op.Purge(channel), now)
    {
      if channel !in channels {
        return Failed(ChannelNotFound);
      }
      var ch := channels[channel];
      if ch.retention == 0 {
        return Count(0);
      }
      var before := now - Milliseconds(ch.retention);
      var n := storage.DeleteExpired(channel, before);
      out := Count(n);
    }

    method HandleIncoming(rec: SharedRecord, role: RoleCheck, now: int) returns (out: Out)
      requires Valid()
      modifies storage
      ensures Valid()
      ensures (L(), out) == Exec(old(L()), Op.Incoming(rec, role), now)
    {
      if rec.channel !in channels {
        return Done;
      }
      var ch := channels[rec.channel];
      if ch.access.Some? && !ch.access.value.canRead(rec.did) {
        return Failed(AccessDenied);
      }
      match role {
        case ResolverFailed => return Failed(ResolverError);
        case Denied => return Failed(AccessDenied);
        case Allowed =>
      }
      if !rec.deleted && ch.schema.Some? && !ch.schema.value(rec.body) {
        return Failed(SchemaValidation);
      }
      if IsExpired(channels, rec, now) {
        return Done;
      }
      var existing := storage.GetTimestamp(rec.channel, rec.id);
      if rec.timestamp <= existing {
        return Done;
      }
      if rec.deleted {
        storage.DeleteShared(rec.channel, rec.id);
      } else {
        storage.PutShared(rec);
      }
      out := Done;
    }
  }
}
