/**
 * Dump and restore of the device database (core/pkg/linkself/api.go:57-95), and what restoring
 * a dump means: a per-key join of two record maps.
 */
module MyDb {
  import opened Common
  import opened DeviceStore
  import opened Replication

  class Database {
    const engine: ReplicationEngine

    constructor (engine: ReplicationEngine)
      ensures this.engine == engine
    {
      this.engine := engine;
    }

    method Dump() returns (out: seq<Record>)
      requires engine.Valid()
      ensures ListsOnce(engine.storage.records.Values, out)
    {
      out := CollectRecords(engine.storage);
    }

    /** Restore bypasses the engine's put: nothing is broadcast and nothing is pruned. */
    method Restore(records: seq<Record>) returns (applied: nat)
      requires engine.Valid()
      modifies engine.storage
      ensures engine.storage.S() == RestoreIn(old(engine.storage.S()), records)
      ensures applied == engine.storage.latest - old(engine.storage.latest)
    {
      applied := 0;
      for i := 0 to |records|
        invariant applied == engine.storage.latest - old(engine.storage.latest)
        invariant RestoreIn(engine.storage.S(), records[i..]) == RestoreIn(old(engine.storage.S()), records)
      {
        var r := records[i];
        assert records[i..][1..] == records[i + 1..];
        var existing := engine.storage.GetTimestamp(r.key);
        if r.timestamp > existing {
          var _ := engine.storage.Put(r.key, r.body, r.timestamp);
          applied := applied + 1;
        }
      }
    }
  }

  // ---------------------------------------------------------------------------------------
  // Restore as a join
  // ---------------------------------------------------------------------------------------

  /** Nothing in the list is newer than what is stored. */
  ghost predicate Covers(stored: map<Key, Record>, records: seq<Record>) {
    forall r :: r in records ==> r.timestamp <= TimestampOf(stored, r.key)
  }

  /** Every key of `out` comes from `stored`, or from a list entry newer than the stored one. */
  ghost predicate FromEither(out: map<Key, Record>, stored: map<Key, Record>, records: seq<Record>) {
    forall k :: k in out ==>
      || (k in stored && out[k] == stored[k])
      || (out[k] in records && out[k].key == k && out[k].timestamp > TimestampOf(stored, k))
  }

  /**
   * Per key the newest of store and list: the result comes from one of the two, is nowhere
   * older than the store or any list entry, and loses no stored key. The log grows by one entry
   * per applied record, and the count is 0 exactly when the list holds nothing newer.
   */
  lemma {:induction false} RestoreIsNewest(s: State, records: seq<Record>)
    ensures IsNewest(s, records, RestoreIn(s, records))
    decreases |records|
  {
    if records != [] {
      var r, rest := records[0], records[1..];
      assert records == [r] + rest;
      if r.timestamp > TimestampOf(s.records, r.key) {
        var mid := PutIn(s, r.key, r.body, r.timestamp);
        RestoreIsNewest(mid, rest);
        RestoreOverPut(s, r, rest, RestoreIn(mid, rest));
      } else {
        RestoreIsNewest(s, rest);
        RestoreOverOld(s, r, rest, RestoreIn(s, rest));
      }
    }
  }

  ghost predicate IsNewest(s: State, records: seq<Record>, t: State) {
    && FromEither(t.records, s.records, records)
    && Covers(t.records, records)
    && s.records.Keys <= t.records.Keys
    && (forall k :: TimestampOf(s.records, k) <= TimestampOf(t.records, k))
    && t.latest >= s.latest
    && (t.latest == s.latest <==> Covers(s.records, records))
    && (Covers(s.records, records) ==> t == s)
  }

  lemma RestoreOverOld(s: State, r: Record, rest: seq<Record>, t: State)
    requires r.timestamp <= TimestampOf(s.records, r.key) && IsNewest(s, rest, t)
    ensures IsNewest(s, [r] + rest, t)
  {
    assert forall x :: x in [r] + rest <==> x == r || x in rest;
    assert TimestampOf(s.records, r.key) <= TimestampOf(t.records, r.key);
  }

  lemma RestoreOverPut(s: State, r: Record, rest: seq<Record>, t: State)
    requires r.timestamp > TimestampOf(s.records, r.key)
    requires IsNewest(PutIn(s, r.key, r.body, r.timestamp), rest, t)
    ensures IsNewest(s, [r] + rest, t)
  {
    var mid := PutIn(s, r.key, r.body, r.timestamp).records;
    assert r in [r] + rest && forall x :: x in [r] + rest <==> x == r || x in rest;
    assert TimestampOf(mid, r.key) == r.timestamp <= TimestampOf(t.records, r.key);
    forall k
      ensures TimestampOf(s.records, k) <= TimestampOf(t.records, k)
    {
      assert TimestampOf(s.records, k) <= TimestampOf(mid, k) <= TimestampOf(t.records, k);
    }
    assert FromEither(t.records, s.records, [r] + rest) by {
      FromEitherOverPut(s, r, rest, t.records);
    }
  }

  lemma FromEitherOverPut(s: State, r: Record, rest: seq<Record>, out: map<Key, Record>)
    requires r.timestamp > TimestampOf(s.records, r.key)
    requires FromEither(out, s.records[r.key := Record(r.key, r.body, r.timestamp)], rest)
    ensures FromEither(out, s.records, [r] + rest)
  {
    forall k | k in out
      ensures || (k in s.records && out[k] == s.records[k])
              || (out[k] in [r] + rest && out[k].key == k && out[k].timestamp > TimestampOf(s.records, k))
    {
      PutBetween(s, r, rest, out, k);
    }
  }

  lemma PutBetween(s: State, r: Record, rest: seq<Record>, out: map<Key, Record>, k: Key)
    requires r.timestamp > TimestampOf(s.records, r.key) && k in out
    requires FromEither(out, s.records[r.key := Record(r.key, r.body, r.timestamp)], rest)
    ensures || (k in s.records && out[k] == s.records[k])
            || (out[k] in [r] + rest && out[k].key == k && out[k].timestamp > TimestampOf(s.records, k))
  {
    assert r in [r] + rest;
  }

  /** Restoring the same list again applies nothing and changes nothing. */
  lemma RestoreTwiceIsOnce(s: State, records: seq<Record>)
    ensures RestoreIn(RestoreIn(s, records), records) == RestoreIn(s, records)
  {
    RestoreIsNewest(s, records);
    RestoreIsNewest(RestoreIn(s, records), records);
  }

  /** The join of two record maps; at equal timestamps the left one stays. */
  function Join(a: map<Key, Record>, b: map<Key, Record>): map<Key, Record> {
    map k | k in a.Keys + b.Keys && (k in a || b[k].timestamp > 0) ::
      if k in b && b[k].timestamp > TimestampOf(a, k) then b[k] else a[k]
  }

  /** The join, key by key. */
  lemma JoinAt(a: map<Key, Record>, b: map<Key, Record>, k: Key)
    ensures k in Join(a, b) <==> k in a || (k in b && b[k].timestamp > 0)
    ensures k in Join(a, b) ==> Join(a, b)[k] == if k in b && b[k].timestamp > TimestampOf(a, k) then b[k] else a[k]
  {
  }

  /** Restoring any dump of `b`, in whatever order it lists the records, is the join with `b`. */
  lemma RestoreDumpIsJoin(s: State, b: map<Key, Record>, dump: seq<Record>)
    requires Keyed(s.records) && Keyed(b) && ListsOnce(b.Values, dump)
    ensures RestoreIn(s, dump).records == Join(s.records, b)
  {
    var t, j := RestoreIn(s, dump).records, Join(s.records, b);
    RestoreIsNewest(s, dump);
    forall k | k in t
      ensures k in j && t[k] == j[k]
    {
      if k in b {
        assert b[k] in dump;
      }
      if !(k in s.records && t[k] == s.records[k]) {
        assert t[k] in b.Values;
      }
    }
    forall k | k in j
      ensures k in t
    {
      if k !in s.records {
        assert b[k] in dump;
      }
    }
  }

  ghost predicate Stamped(a: map<Key, Record>) {
    forall k :: k in a ==> a[k].timestamp > 0
  }

  /** A record only one side has must be stamped above 0, and equal stamps must mean equal records. */
  ghost predicate CompatibleAt(a: map<Key, Record>, b: map<Key, Record>, k: Key) {
    && (k in a && k in b && a[k].timestamp == b[k].timestamp ==> a[k] == b[k])
    && (k in a && k !in b ==> a[k].timestamp > 0)
    && (k in b && k !in a ==> b[k].timestamp > 0)
  }

  ghost predicate Compatible(a: map<Key, Record>, b: map<Key, Record>) {
    forall k :: CompatibleAt(a, b, k)
  }

  lemma JoinsAgreeAt(a: map<Key, Record>, b: map<Key, Record>, k: Key)
    ensures var l, r := Join(a, b), Join(b, a);
            ((k in l <==> k in r) && (k in l && k in r ==> l[k] == r[k])) <==> CompatibleAt(a, b, k)
  {
    JoinAt(a, b, k);
    JoinAt(b, a, k);
  }

  /** Two stores that restore each other's dump end up equal exactly when they are compatible. */
  lemma ExchangeAgreesIff(s: State, t: State, dumpS: seq<Record>, dumpT: seq<Record>)
    requires Keyed(s.records) && Keyed(t.records)
    requires ListsOnce(s.records.Values, dumpS) && ListsOnce(t.records.Values, dumpT)
    ensures RestoreIn(s, dumpT).records == RestoreIn(t, dumpS).records <==> Compatible(s.records, t.records)
  {
    RestoreDumpIsJoin(s, t.records, dumpT);
    RestoreDumpIsJoin(t, s.records, dumpS);
    JoinsAgreeIff(s.records, t.records);
  }

  lemma JoinsAgreeIff(a: map<Key, Record>, b: map<Key, Record>)
    ensures Join(a, b) == Join(b, a) <==> Compatible(a, b)
  {
    forall k
      ensures var l, r := Join(a, b), Join(b, a);
              ((k in l <==> k in r) && (k in l && k in r ==> l[k] == r[k])) <==> CompatibleAt(a, b, k)
    {
      JoinsAgreeAt(a, b, k);
    }
  }

  /**
   * Restoring a dump reproduces the dumped store exactly when every record already present is
   * in the dump, the same or newer, and every other dumped record is stamped above 0. So into
   * an empty store the timestamps decide alone, and a full dump to a peer carries no deletion:
   * a record the peer still has and the sender deleted stays.
   */
  lemma DumpReproducesIff(s: State, b: map<Key, Record>, dump: seq<Record>)
    requires Keyed(s.records) && Keyed(b) && ListsOnce(b.Values, dump)
    ensures RestoreIn(s, dump).records == b <==>
            && (forall k :: k in s.records ==>
                  k in b && (s.records[k] == b[k] || s.records[k].timestamp < b[k].timestamp))
            && (forall k :: k in b && k !in s.records ==> b[k].timestamp > 0)
  {
    var a := s.records;
    RestoreDumpIsJoin(s, b, dump);
    if Join(a, b) == b {
      forall k | k in a
        ensures k in b && (a[k] == b[k] || a[k].timestamp < b[k].timestamp)
      {
        assert k in Join(a, b);
      }
      forall k | k in b && k !in a
        ensures b[k].timestamp > 0
      {
        assert k in Join(a, b);
      }
    }
  }

  /** A stored record, nothing in the middle, and a newer one that a store without the key would refuse. */
  ghost predicate Skips(a: map<Key, Record>, b: map<Key, Record>, c: map<Key, Record>, k: Key) {
    k in a && k !in b && k in c && a[k].timestamp < c[k].timestamp <= 0
  }

  lemma AssociativeAt(a: map<Key, Record>, b: map<Key, Record>, c: map<Key, Record>, k: Key)
    ensures var l, r := Join(Join(a, b), c), Join(a, Join(b, c));
            ((k in l <==> k in r) && (k in l && k in r ==> l[k] == r[k])) <==> !Skips(a, b, c, k)
  {
    JoinAt(a, b, k);
    JoinAt(b, c, k);
    JoinAt(Join(a, b), c, k);
    JoinAt(a, Join(b, c), k);
  }

  /**
   * Restores may be grouped in any way, that is, the join is associative, exactly when no key skips
   * the middle store with a stamp of at most 0; so always on positive timestamps.
   */
  lemma JoinIsAssociativeIff(a: map<Key, Record>, b: map<Key, Record>, c: map<Key, Record>)
    ensures Join(Join(a, b), c) == Join(a, Join(b, c)) <==> forall k :: !Skips(a, b, c, k)
    ensures Stamped(c) ==> Join(Join(a, b), c) == Join(a, Join(b, c))
  {
    forall k
      ensures var l, r := Join(Join(a, b), c), Join(a, Join(b, c));
              ((k in l <==> k in r) && (k in l && k in r ==> l[k] == r[k])) <==> !Skips(a, b, c, k)
    {
      AssociativeAt(a, b, c, k);
    }
  }
}
