/**
 * The signed device roster (core/internal/roster/roster.go, ts/linkself/src/roster.ts):
 * de-duplication, canonical order, and what a signature vouches for.
 */
module Roster {
  import opened Common

  type Did = string

  /** `name` is the label shown to the user. */
  datatype Device = Device(did: Did, name: string)

  type Devices = seq<Device>

  /** The label each device ends up with: the last one listed. */
  function Labels(devices: Devices): map<Did, string> {
    if devices == [] then map[]
    else
      var last := devices[|devices| - 1];
      Labels(devices[..|devices| - 1])[last.did := last.name]
  }

  ghost predicate DistinctDids(devices: Devices) {
    forall i, j :: 0 <= i < j < |devices| ==> devices[i].did != devices[j].did
  }

  // ---------------------------------------------------------------------------------------
  // De-duplication
  // ---------------------------------------------------------------------------------------

  /** A map that remembers the order in which its keys were first inserted. */
  datatype OrderedMap = OrderedMap(order: seq<Did>, entries: map<Did, Device>)

  function Set(m: OrderedMap, d: Device): OrderedMap {
    OrderedMap(if d.did in m.entries then m.order else m.order + [d.did], m.entries[d.did := d])
  }

  function SetAll(m: OrderedMap, devices: Devices): OrderedMap
    decreases |devices|
  {
    if devices == [] then m else SetAll(Set(m, devices[0]), devices[1..])
  }

  ghost predicate Ordered(m: OrderedMap) {
    && (forall k :: k in m.entries <==> k in m.order)
    && (forall k :: k in m.entries ==> m.entries[k].did == k)
    && Distinct(m.order)
  }

  function Values(m: OrderedMap): Devices
    requires Ordered(m)
  {
    seq(|m.order|, i requires 0 <= i < |m.order| => assert m.order[i] in m.order; m.entries[m.order[i]])
  }

  lemma {:induction false} SetAllOrdered(m: OrderedMap, devices: Devices)
    requires Ordered(m)
    ensures Ordered(SetAll(m, devices))
    decreases |devices|
  {
    if devices != [] {
      SetAllOrdered(Set(m, devices[0]), devices[1..]);
    }
  }

  /** De-duplication through the insertion-ordered map. */
  function Dedupe(devices: Devices): Devices {
    SetAllOrdered(OrderedMap([], map[]), devices);
    Values(SetAll(OrderedMap([], map[]), devices))
  }

  /** De-duplication through an index into the output, overwriting in place: the same list. */
  method DedupeByDeviceDID(devices: Devices) returns (out: Devices)
    ensures out == Dedupe(devices)
  {
    var seen: map<Did, nat> := map[];
    out := [];
    ghost var m := OrderedMap([], map[]);
    for i := 0 to |devices|
      invariant Ordered(m) && SetAll(m, devices[i..]) == SetAll(OrderedMap([], map[]), devices)
      invariant out == Values(m)
      invariant Indexes(seen, m)
    {
      var d := devices[i];
      assert devices[i..][1..] == devices[i + 1..];
      if d.did in seen {
        SetOverwrites(m, d, seen);
        out := out[seen[d.did] := d];
      } else {
        SetAppends(m, d, seen);
        seen := seen[d.did := |out|];
        out := out + [d];
      }
      m := Set(m, d);
    }
  }

  /** Where in the output each known DID stands. */
  predicate Indexes(seen: map<Did, nat>, m: OrderedMap) {
    seen.Keys == m.entries.Keys && forall k :: k in seen ==> seen[k] < |m.order| && m.order[seen[k]] == k
  }

  lemma SetKeepsOrdered(m: OrderedMap, d: Device)
    requires Ordered(m)
    ensures Ordered(Set(m, d))
  {
  }

  lemma SetOverwrites(m: OrderedMap, d: Device, seen: map<Did, nat>)
    requires Ordered(m) && Indexes(seen, m) && d.did in seen
    ensures Ordered(Set(m, d)) && Indexes(seen, Set(m, d)) && Values(Set(m, d)) == Values(m)[seen[d.did] := d]
  {
    SetKeepsOrdered(m, d);
    assert d.did in m.order && d.did in m.entries;
  }

  lemma SetAppends(m: OrderedMap, d: Device, seen: map<Did, nat>)
    requires Ordered(m) && Indexes(seen, m) && d.did !in seen
    ensures Ordered(Set(m, d)) && Values(Set(m, d)) == Values(m) + [d]
    ensures Indexes(seen[d.did := |m.order|], Set(m, d))
  {
    SetKeepsOrdered(m, d);
    ValuesAppend(m, d);
  }

  lemma ValuesAppend(m: OrderedMap, d: Device)
    requires Ordered(m) && d.did !in m.entries && Ordered(Set(m, d))
    ensures Values(Set(m, d)) == Values(m) + [d]
  {
    var m' := Set(m, d);
    ValuesAt(m);
    ValuesAt(m');
    assert |Values(m')| == |Values(m)| + 1;
    forall i | 0 <= i < |m.order|
      ensures Values(m')[i] == Values(m)[i]
    {
      assert m'.order[i] == m.order[i] && m.order[i] in m.order;
    }
    assert m'.order[|m.order|] == d.did && Values(m')[|m.order|] == d;
  }

  /** Where a device is first and last listed. */
  ghost predicate FirstAt(devices: Devices, did: Did, i: nat) {
    i < |devices| && devices[i].did == did && forall j :: 0 <= j < i ==> devices[j].did != did
  }

  ghost predicate LastIs(devices: Devices, d: Device) {
    exists i :: 0 <= i < |devices| && devices[i] == d && forall j :: i < j < |devices| ==> devices[j].did != d.did
  }

  /** `m` has taken in exactly `seen`: order by first occurrence, entry by last. */
  ghost predicate Took(m: OrderedMap, seen: Devices) {
    && Ordered(m)
    && (forall d :: d in seen ==> d.did in m.entries)
    && (forall k :: k in m.entries ==> LastIs(seen, m.entries[k]))
    && (forall a, b, i, j ::
          0 <= a < b < |m.order| && FirstAt(seen, m.order[a], i) && FirstAt(seen, m.order[b], j) ==> i < j)
  }

  lemma TookOne(m: OrderedMap, seen: Devices, d: Device)
    requires Took(m, seen)
    ensures Took(Set(m, d), seen + [d])
  {
    var m', seen' := Set(m, d), seen + [d];
    SetKeepsOrdered(m, d);
    forall k | k in m'.entries
      ensures LastIs(seen', m'.entries[k])
    {
      if k == d.did {
        assert seen'[|seen|] == d;
      } else {
        var e := m.entries[k];
        var i :| 0 <= i < |seen| && seen[i] == e && forall j :: i < j < |seen| ==> seen[j].did != e.did;
        assert seen'[i] == m.entries[k];
      }
    }
    forall a, b, i, j | 0 <= a < b < |m'.order| && FirstAt(seen', m'.order[a], i) && FirstAt(seen', m'.order[b], j)
      ensures i < j
    {
      assert a < |m.order| && m'.order[a] in m.order;
      FirstStays(seen, d, m.order[a], i, m.entries);
      if b < |m.order| {
        assert m'.order[b] in m.order;
        FirstStays(seen, d, m.order[b], j, m.entries);
      } else {
        NewComesLast(m, seen, d, j);
      }
    }
  }

  lemma FirstStays(seen: Devices, d: Device, did: Did, i: nat, entries: map<Did, Device>)
    requires FirstAt(seen + [d], did, i) && did in entries && entries[did].did == did && LastIs(seen, entries[did])
    ensures FirstAt(seen, did, i)
  {
    var k :| 0 <= k < |seen| && seen[k] == entries[did];
    assert (seen + [d])[k].did == did;
    assert i <= k;
    assert forall j :: 0 <= j < i ==> (seen + [d])[j] == seen[j];
  }

  lemma NewComesLast(m: OrderedMap, seen: Devices, d: Device, j: nat)
    requires Took(m, seen) && d.did !in m.entries && FirstAt(seen + [d], d.did, j)
    ensures j == |seen|
  {
    assert forall i :: 0 <= i < |seen| ==> seen[i] in seen && (seen + [d])[i] == seen[i];
    assert (seen + [d])[|seen|] == d;
  }

  lemma {:induction false} TookAll(m: OrderedMap, seen: Devices, rest: Devices)
    requires Took(m, seen)
    ensures Took(SetAll(m, rest), seen + rest)
    decreases |rest|
  {
    if rest == [] {
      assert seen + rest == seen;
    } else {
      var seen' := seen + [rest[0]];
      assert seen' + rest[1..] == seen + rest;
      assert Took(Set(m, rest[0]), seen') by {
        TookOne(m, seen, rest[0]);
      }
      TookAll(Set(m, rest[0]), seen', rest[1..]);
    }
  }

  /**
   * What de-duplication yields: distinct DIDs, every listed device, each with its last entry, in
   * the order in which the devices are first listed.
   */
  lemma DedupeMeaning(devices: Devices)
    ensures var out := Dedupe(devices);
            && DistinctDids(out)
            && (forall d :: d in devices ==> exists e :: e in out && e.did == d.did)
            && (forall e :: e in out ==> LastIs(devices, e))
            && (forall a, b, i, j ::
                  0 <= a < b < |out| && FirstAt(devices, out[a].did, i) && FirstAt(devices, out[b].did, j) ==> i < j)
  {
    var m, out := SetAll(OrderedMap([], map[]), devices), Dedupe(devices);
    assert Took(m, devices) by {
      TookAll(OrderedMap([], map[]), [], devices);
      assert [] + devices == devices;
    }
    ValuesAt(m);
    forall d | d in devices
      ensures exists e :: e in out && e.did == d.did
    {
      var i :| 0 <= i < |m.order| && m.order[i] == d.did;
      assert out[i] in out;
    }
    forall a, b, i, j | 0 <= a < b < |out| && FirstAt(devices, out[a].did, i) && FirstAt(devices, out[b].did, j)
      ensures i < j
    {
      assert FirstAt(devices, m.order[a], i) && FirstAt(devices, m.order[b], j);
    }
  }

  lemma ValuesAt(m: OrderedMap)
    requires Ordered(m)
    ensures |Values(m)| == |m.order|
    ensures forall i :: 0 <= i < |m.order| ==>
        Values(m)[i].did == m.order[i] && m.order[i] in m.entries && Values(m)[i] == m.entries[m.order[i]]
  {
    forall i | 0 <= i < |m.order|
      ensures m.order[i] in m.entries
    {
      assert m.order[i] in m.order;
    }
  }

  // ---------------------------------------------------------------------------------------
  // Canonical order
  // ---------------------------------------------------------------------------------------

  /** Character-by-character order of DIDs. */
  predicate Less(a: Did, b: Did) {
    b != [] && (a == [] || a[0] < b[0] || (a[0] == b[0] && Less(a[1..], b[1..])))
  }

  lemma {:induction false} LessTotal(a: Did, b: Did)
    ensures Less(a, b) || a == b || Less(b, a)
  {
    if a != [] && b != [] && a[0] == b[0] {
      LessTotal(a[1..], b[1..]);
      assert a == [a[0]] + a[1..] && b == [b[0]] + b[1..];
    }
  }

  lemma {:induction false} LessTransitive(a: Did, b: Did, c: Did)
    requires Less(a, b) && Less(b, c)
    ensures Less(a, c)
  {
    if a != [] && a[0] == b[0] == c[0] {
      LessTransitive(a[1..], b[1..], c[1..]);
    }
  }

  lemma {:induction false} LessIrreflexive(a: Did)
    ensures !Less(a, a)
  {
    if a != [] {
      LessIrreflexive(a[1..]);
    }
  }

  /** Dictionary order: the smaller character at the first difference, and a prefix before what extends it. */
  lemma {:induction false} LessIff(a: Did, b: Did)
    ensures Less(a, b) <==> exists n :: Splits(a, b, n)
  {
    forall n | Splits(a, b, n)
      ensures n > 0 ==> a != [] && b != [] && a[0] == b[0] && Splits(a[1..], b[1..], n - 1)
    {
      SplitsTail(a, b, n);
    }
    if a != [] && b != [] && a[0] == b[0] {
      LessIff(a[1..], b[1..]);
      if n :| Splits(a[1..], b[1..], n) {
        assert a[..n + 1] == [a[0]] + a[1..][..n] && b[..n + 1] == [b[0]] + b[1..][..n];
        assert Splits(a, b, n + 1);
      }
    } else if Less(a, b) {
      assert Splits(a, b, 0);
    }
  }

  lemma SplitsTail(a: Did, b: Did, n: int)
    requires Splits(a, b, n)
    ensures n > 0 ==> a != [] && b != [] && a[0] == b[0] && Splits(a[1..], b[1..], n - 1)
  {
    if n > 0 {
      assert a[0] == a[..n][0] && b[0] == b[..n][0];
      assert a[1..][..n - 1] == a[..n][1..] && b[1..][..n - 1] == b[..n][1..];
    }
  }

  /** The two agree on n characters; then `a` ends and `b` does not, or `a` has the smaller character. */
  ghost predicate Splits(a: Did, b: Did, n: int) {
    0 <= n <= |a| && n < |b| && a[..n] == b[..n] && (n == |a| || a[n] < b[n])
  }

  function Insert(sorted: Devices, d: Device): Devices {
    if sorted == [] || Less(d.did, sorted[0].did) then [d] + sorted
    else [sorted[0]] + Insert(sorted[1..], d)
  }

  /** The sorted copy; which of two equal DIDs comes first is the sort's own choice. */
  function Sort(devices: Devices): Devices {
    if devices == [] then [] else Insert(Sort(devices[1..]), devices[0])
  }

  ghost predicate StrictlySorted(devices: Devices) {
    forall i, j :: 0 <= i < j < |devices| ==> Less(devices[i].did, devices[j].did)
  }

  lemma {:induction false} InsertPermutes(sorted: Devices, d: Device)
    ensures multiset(Insert(sorted, d)) == multiset(sorted) + multiset{d}
  {
    if sorted != [] && !Less(d.did, sorted[0].did) {
      InsertPermutes(sorted[1..], d);
      assert sorted == [sorted[0]] + sorted[1..];
    }
  }

  lemma {:induction false} SortPermutes(devices: Devices)
    ensures multiset(Sort(devices)) == multiset(devices)
  {
    if devices != [] {
      SortPermutes(devices[1..]);
      InsertPermutes(Sort(devices[1..]), devices[0]);
      assert devices == [devices[0]] + devices[1..];
    }
  }

  /** In front of a strictly sorted list goes anything less than its head. */
  lemma PrependSorts(d: Device, sorted: Devices)
    requires StrictlySorted(sorted) && (sorted != [] ==> Less(d.did, sorted[0].did))
    ensures StrictlySorted([d] + sorted)
  {
    forall i | 0 <= i < |sorted|
      ensures Less(d.did, sorted[i].did)
    {
      if i > 0 {
        LessTransitive(d.did, sorted[0].did, sorted[i].did);
      }
    }
  }

  lemma {:induction false} InsertHead(sorted: Devices, d: Device)
    ensures Insert(sorted, d)[0] == if sorted == [] || Less(d.did, sorted[0].did) then d else sorted[0]
  {
  }

  lemma {:induction false} InsertSorts(sorted: Devices, d: Device)
    requires StrictlySorted(sorted) && forall e :: e in sorted ==> e.did != d.did
    ensures StrictlySorted(Insert(sorted, d))
    ensures forall e :: e in Insert(sorted, d) <==> e == d || e in sorted
  {
    if sorted == [] || Less(d.did, sorted[0].did) {
      PrependSorts(d, sorted);
    } else {
      var head, tail := sorted[0], sorted[1..];
      assert head in sorted && forall e :: e in sorted <==> e == head || e in tail;
      assert forall i :: 0 <= i < |tail| ==> tail[i] == sorted[i + 1];
      LessTotal(d.did, head.did);
      InsertSorts(tail, d);
      InsertHead(tail, d);
      PrependSorts(head, Insert(tail, d));
    }
  }

  lemma {:induction false} SortSorts(devices: Devices)
    requires DistinctDids(devices)
    ensures StrictlySorted(Sort(devices))
    ensures forall e :: e in Sort(devices) <==> e in devices
  {
    if devices != [] {
      var head, tail := devices[0], devices[1..];
      assert devices == [head] + tail;
      assert forall i :: 0 <= i < |tail| ==> tail[i] == devices[i + 1];
      SortSorts(tail);
      InsertSorts(Sort(tail), head);
    }
  }

  lemma EmptyOrInhabited(b: Devices)
    ensures b == [] || exists e :: e in b
  {
    if b != [] {
      assert b[0] in b;
    }
  }

  /** Sorted lists of the same devices are the same list, so any sort at all yields this one. */
  lemma {:induction false} SortedIsUnique(a: Devices, b: Devices)
    requires StrictlySorted(a) && StrictlySorted(b) && forall e :: e in a <==> e in b
    ensures a == b
    decreases |a|
  {
    if a == [] {
      EmptyOrInhabited(b);
    } else {
      assert a[0] in a && a[0] in b && b[0] in b && b[0] in a;
      var j :| 0 <= j < |b| && b[j] == a[0];
      var i :| 0 <= i < |a| && a[i] == b[0];
      if i > 0 && j > 0 {
        LessTransitive(a[0].did, b[0].did, a[0].did);
        LessIrreflexive(a[0].did);
      }
      SortedTails(a, b);
      SortedTails(b, a);
      SortedIsUnique(a[1..], b[1..]);
      assert a == [a[0]] + a[1..] && b == [b[0]] + b[1..];
    }
  }

  lemma SortedTails(a: Devices, b: Devices)
    requires StrictlySorted(a) && StrictlySorted(b) && a != [] && b != [] && a[0] == b[0]
    requires forall e :: e in a ==> e in b
    ensures StrictlySorted(a[1..])
    ensures forall e :: e in a[1..] ==> e in b[1..]
  {
    forall e | e in a[1..]
      ensures e in b[1..]
    {
      var i :| 0 <= i < |a[1..]| && a[1..][i] == e;
      assert a[i + 1] == e && e in a;
      LessIrreflexive(e.did);
      var j :| 0 <= j < |b| && b[j] == e;
      assert b[1..][j - 1] == e;
    }
  }

  // ---------------------------------------------------------------------------------------
  // Signing
  // ---------------------------------------------------------------------------------------

  datatype SignedRoster = SignedRoster(userDID: Did, devices: Devices, sig: Bytes)

  /** The encoder of the canonical document, and the user keys: both ideal. */
  datatype Crypto = Crypto(encode: (Did, Devices) -> Bytes, sign: (Did, Bytes) -> Bytes)

  ghost predicate Ideal(c: Crypto) {
    && (forall u, ds, v, es :: c.encode(u, ds) == c.encode(v, es) ==> u == v && ds == es)
    && (forall u, x, y :: c.sign(u, x) == c.sign(u, y) ==> x == y)
  }

  function CanonicalBytes(c: Crypto, user: Did, devices: Devices): Bytes {
    c.encode(user, Sort(devices))
  }

  function Built(c: Crypto, user: Did, devices: Devices): SignedRoster {
    var deduped := Dedupe(devices);
    SignedRoster(user, deduped, c.sign(user, CanonicalBytes(c, user, deduped)))
  }

  predicate Verify(c: Crypto, r: SignedRoster) {
    r.sig == c.sign(r.userDID, CanonicalBytes(c, r.userDID, r.devices))
  }

  /** On distinct DIDs the labels are the list. */
  lemma {:induction false} DistinctLabels(devices: Devices)
    requires DistinctDids(devices)
    ensures forall d :: d in devices <==> d.did in Labels(devices) && Labels(devices)[d.did] == d.name
  {
    if devices != [] {
      var n := |devices| - 1;
      var before, last := devices[..n], devices[n];
      DistinctLabels(before);
      assert forall d :: d in devices <==> d in before || d == last;
      assert forall d :: d in before ==> d.did != last.did;
    }
  }

  lemma LabelIsLast(devices: Devices, d: Device)
    requires LastIs(devices, d)
    ensures d.did in Labels(devices) && Labels(devices)[d.did] == d.name
    decreases |devices|
  {
    var n := |devices| - 1;
    var i :| 0 <= i < |devices| && devices[i] == d && forall j :: i < j < |devices| ==> devices[j].did != d.did;
    if i < n {
      assert devices[..n][i] == d;
      LabelIsLast(devices[..n], d);
    }
  }

  lemma {:induction false} LabelledIsListed(devices: Devices, k: Did) returns (d: Device)
    requires k in Labels(devices)
    ensures d in devices && d.did == k
    decreases |devices|
  {
    d := devices[|devices| - 1];
    if d.did != k {
      d := LabelledIsListed(devices[..|devices| - 1], k);
    }
  }

  /** De-duplication keeps the labels, and on distinct DIDs the labels are the list. */
  lemma DedupeKeepsLabels(devices: Devices)
    ensures Labels(Dedupe(devices)) == Labels(devices)
    ensures forall d :: d in Dedupe(devices) <==> d.did in Labels(devices) && Labels(devices)[d.did] == d.name
  {
    var out := Dedupe(devices);
    DedupeMeaning(devices);
    DistinctLabels(out);
    forall k
      ensures k in Labels(out) <==> k in Labels(devices)
      ensures k in Labels(out) ==> Labels(out)[k] == Labels(devices)[k]
    {
      if k in Labels(devices) {
        var d := LabelledIsListed(devices, k);
        var e :| e in out && e.did == d.did;
      }
      if k in Labels(out) {
        var e := LabelledIsListed(out, k);
        LabelIsLast(devices, e);
      }
    }
  }

  /**
   * What is signed depends on the device-to-label mapping and on nothing else: not on order, not
   * on repetition; and different mappings never share their bytes.
   */
  lemma SignedBytesAreTheMappingIff(c: Crypto, user: Did, a: Devices, b: Devices)
    requires Ideal(c)
    ensures CanonicalBytes(c, user, Dedupe(a)) == CanonicalBytes(c, user, Dedupe(b)) <==> Labels(a) == Labels(b)
  {
    DedupeMeaning(a);
    DedupeMeaning(b);
    DedupeKeepsLabels(a);
    DedupeKeepsLabels(b);
    SortSorts(Dedupe(a));
    SortSorts(Dedupe(b));
    if Labels(a) == Labels(b) {
      SortedIsUnique(Sort(Dedupe(a)), Sort(Dedupe(b)));
    } else if Sort(Dedupe(a)) == Sort(Dedupe(b)) {
      SameEntriesSameLabels(Dedupe(a), Dedupe(b));
    }
  }

  lemma SameEntriesSameLabels(a: Devices, b: Devices)
    requires DistinctDids(a) && DistinctDids(b) && forall e :: e in a <==> e in b
    ensures Labels(a) == Labels(b)
  {
    DistinctLabels(a);
    DistinctLabels(b);
    forall k
      ensures k in Labels(a) <==> k in Labels(b)
      ensures k in Labels(a) ==> Labels(a)[k] == Labels(b)[k]
    {
      if k in Labels(a) {
        assert Device(k, Labels(a)[k]) in a;
      }
      if k in Labels(b) {
        assert Device(k, Labels(b)[k]) in b;
      }
    }
  }

  /**
   * A built roster verifies, and its signature vouches for its own devices only: under the same
   * user and signature another list verifies exactly when it is a rearrangement of the built one.
   */
  lemma SignatureVouchesIff(c: Crypto, user: Did, devices: Devices, other: Devices)
    requires Ideal(c)
    ensures var r := Built(c, user, devices);
            && r.userDID == user && r.devices == Dedupe(devices)
            && Verify(c, r)
            && (Verify(c, r.(devices := other)) <==> multiset(other) == multiset(r.devices))
  {
    var built := Built(c, user, devices).devices;
    DedupeMeaning(devices);
    SortPermutes(built);
    SortPermutes(other);
    if multiset(other) == multiset(built) {
      PermutationIsDistinct(built, other);
      SortSorts(built);
      SortSorts(other);
      assert forall e :: e in built <==> e in multiset(built);
      assert forall e :: e in other <==> e in multiset(other);
      SortedIsUnique(Sort(built), Sort(other));
    }
  }

  lemma PermutationIsDistinct(a: Devices, b: Devices)
    requires DistinctDids(a) && multiset(a) == multiset(b)
    ensures DistinctDids(b)
  {
    forall i, j | 0 <= i < j < |b|
      ensures b[i].did != b[j].did
    {
      if b[i].did == b[j].did {
        assert b[i] in multiset(b) && b[j] in multiset(b);
        var k :| 0 <= k < |a| && a[k] == b[i];
        var l :| 0 <= l < |a| && a[l] == b[j];
        assert k == l && b[i] == b[j];
        TwiceInMultiset(b, i, j);
        OnceInMultiset(a, k);
      }
    }
  }

  lemma TwiceInMultiset(b: Devices, i: nat, j: nat)
    requires i < j < |b| && b[i] == b[j]
    ensures multiset(b)[b[i]] >= 2
  {
    assert b == b[..i] + [b[i]] + b[i + 1..j] + [b[j]] + b[j + 1..];
  }

  lemma OnceInMultiset(a: Devices, k: nat)
    requires DistinctDids(a) && k < |a|
    ensures multiset(a)[a[k]] == 1
  {
    assert a == a[..k] + [a[k]] + a[k + 1..];
    assert a[k] !in a[..k] && a[k] !in a[k + 1..];
  }

  /** The list without a device, as both amendments start from. */
  function Others(devices: Devices, did: Did): Devices {
    if devices == [] then []
    else (if devices[0].did == did then [] else [devices[0]]) + Others(devices[1..], did)
  }

  lemma {:induction false} LabelsAppend(a: Devices, d: Device)
    ensures Labels(a + [d]) == Labels(a)[d.did := d.name]
  {
    assert (a + [d])[..|a|] == a;
  }

  lemma {:induction false} OthersAppend(a: Devices, d: Device, did: Did)
    ensures Others(a + [d], did) == Others(a, did) + if d.did == did then [] else [d]
  {
    if a == [] {
      assert a + [d] == [d];
    } else {
      var rest, last := Others(a[1..], did), if d.did == did then [] else [d];
      OthersAppend(a[1..], d, did);
      assert (a + [d])[0] == a[0] && (a + [d])[1..] == a[1..] + [d];
      if a[0].did == did {
        assert Others(a, did) == [] + rest == rest;
        assert Others(a + [d], did) == [] + (rest + last) == rest + last;
      } else {
        assert Others(a, did) == [a[0]] + rest;
        assert Others(a + [d], did) == [a[0]] + (rest + last) == [a[0]] + rest + last;
      }
    }
  }

  lemma {:induction false} OthersLabels(devices: Devices, did: Did)
    ensures Labels(Others(devices, did)) == Labels(devices) - {did}
  {
    if devices != [] {
      var n := |devices| - 1;
      assert devices == devices[..n] + [devices[n]];
      OthersLabels(devices[..n], did);
      OthersAppend(devices[..n], devices[n], did);
      if devices[n].did != did {
        LabelsAppend(Others(devices[..n], did), devices[n]);
      } else {
        assert Others(devices[..n], did) + [] == Others(devices[..n], did);
      }
    }
  }

  /** Adding a device sets its label and nobody else's, and the new roster verifies. */
  lemma WithDeviceSetsOneLabel(c: Crypto, user: Did, devices: Devices, d: Device)
    ensures var r := Built(c, user, Others(devices, d.did) + [d]);
            Verify(c, r) && Labels(r.devices) == Labels(devices)[d.did := d.name]
  {
    var rest := Others(devices, d.did);
    DedupeKeepsLabels(rest + [d]);
    assert Labels(rest + [d]) == Labels(devices)[d.did := d.name] by {
      LabelsAppend(rest, d);
      OthersLabels(devices, d.did);
    }
  }

  /** Removing a device removes its label and nobody else's, and the new roster verifies. */
  lemma WithoutDeviceRemovesOneLabel(c: Crypto, user: Did, devices: Devices, did: Did)
    ensures var r := Built(c, user, Others(devices, did));
            Verify(c, r) && Labels(r.devices) == Labels(devices) - {did}
  {
    OthersLabels(devices, did);
    DedupeKeepsLabels(Others(devices, did));
  }

  method Build(c: Crypto, user: Did, devices: Devices) returns (r: SignedRoster)
    ensures r == Built(c, user, devices)
  {
    var deduped := DedupeByDeviceDID(devices);
    r := SignedRoster(user, deduped, c.sign(user, CanonicalBytes(c, user, deduped)));
  }

  method FilterOut(devices: Devices, did: Did) returns (next: Devices)
    ensures next == Others(devices, did)
  {
    next := [];
    for i := 0 to |devices|
      invariant next + Others(devices[i..], did) == Others(devices, did)
    {
      assert devices[i..][1..] == devices[i + 1..];
      if devices[i].did != did {
        next := next + [devices[i]];
      }
    }
  }

  method WithDevice(c: Crypto, user: Did, devices: Devices, entry: Device) returns (r: SignedRoster)
    ensures r == Built(c, user, Others(devices, entry.did) + [entry])
  {
    var next := FilterOut(devices, entry.did);
    r := Build(c, user, next + [entry]);
  }

  method WithoutDevice(c: Crypto, user: Did, devices: Devices, did: Did) returns (r: SignedRoster)
    ensures r == Built(c, user, Others(devices, did))
  {
    var next := FilterOut(devices, did);
    r := Build(c, user, next);
  }
}
