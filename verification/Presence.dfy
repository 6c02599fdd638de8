/**
 * The device-presence directory (core/internal/presence/directory.go): registrations with a
 * time to live, dropped lazily by queries and prunes, against a directory that never drops.
 */
module Presence {
  import opened Common

  type Did = string

  datatype Entry = Entry(addrs: seq<string>, expiresAt: int)

  datatype Location = Location(deviceDID: Did, addrs: seq<string>)

  type Devices = map<Did, Entry>
  type Users = map<Did, Devices>

  datatype Op =
    | Register(user: Did, device: Did, addrs: seq<string>, ttl: int)
    | Unregister(user: Did, device: Did)
    | Query(user: Did)
    | Prune

  datatype Call = Call(op: Op, now: int)

  function DevicesOf(users: Users, user: Did): Devices {
    if user in users then users[user] else map[]
  }

  /** Stores a user's devices, keeping no empty bucket. */
  function Store(users: Users, user: Did, devices: Devices): Users {
    if devices == map[] then users - {user} else users[user := devices]
  }

  function Live(devices: Devices, now: int): Devices {
    map d | d in devices && now < devices[d].expiresAt :: devices[d]
  }

  function PruneAll(users: Users, now: int): Users {
    map u | u in users && Live(users[u], now) != map[] :: Live(users[u], now)
  }

  function Exec(users: Users, op: Op, now: int): Users {
    match op
    case Register(user, device, addrs, ttl) =>
      users[user := DevicesOf(users, user)[device := Entry(addrs, now + ttl)]]
    case Unregister(user, device) => Store(users, user, DevicesOf(users, user) - {device})
    case Query(user) => Store(users, user, Live(DevicesOf(users, user), now))
    case Prune => PruneAll(users, now)
  }

  function Run(users: Users, calls: seq<Call>): Users
    decreases |calls|
  {
    if calls == [] then users else Run(Exec(users, calls[0].op, calls[0].now), calls[1..])
  }

  // ---------------------------------------------------------------------------------------
  // The specification: a device's last action decides
  // ---------------------------------------------------------------------------------------

  /** The entry a device's last registration left, if its last action was one. */
  function LastAction(calls: seq<Call>, user: Did, device: Did): Option<Entry> {
    if calls == [] then None
    else
      var c := calls[|calls| - 1];
      if c.op.Register? && c.op.user == user && c.op.device == device then Some(Entry(c.op.addrs, c.now + c.op.ttl))
      else if c.op.Unregister? && c.op.user == user && c.op.device == device then None
      else LastAction(calls[..|calls| - 1], user, device)
  }

  ghost predicate Reachable(calls: seq<Call>, user: Did, device: Did, now: int, addrs: seq<string>) {
    var e := LastAction(calls, user, device);
    e.Some? && now < e.value.expiresAt && e.value.addrs == addrs
  }

  ghost predicate ClockRuns(calls: seq<Call>) {
    forall i, j :: 0 <= i < j < |calls| ==> calls[i].now <= calls[j].now
  }

  ghost predicate NoEmptyBucket(users: Users) {
    forall u :: u in users ==> users[u] != map[]
  }

  function Lookup(users: Users, user: Did, device: Did): Option<Entry> {
    var devices := DevicesOf(users, user);
    if device in devices then Some(devices[device]) else None
  }

  /** From `now` on, the directory and the history agree on what is live. */
  ghost predicate AgreeFrom(users: Users, calls: seq<Call>, user: Did, device: Did, now: int) {
    var kept, last := Lookup(users, user, device), LastAction(calls, user, device);
    kept == last || (kept.None? && last.Some? && last.value.expiresAt <= now)
  }

  lemma ExecAgrees(users: Users, calls: seq<Call>, op: Op, before: int, now: int, user: Did, device: Did)
    requires AgreeFrom(users, calls, user, device, before) && before <= now
    ensures AgreeFrom(Exec(users, op, now), calls + [Call(op, now)], user, device, now)
  {
    assert (calls + [Call(op, now)])[..|calls|] == calls;
  }

  lemma ExecKeepsBuckets(users: Users, op: Op, now: int)
    requires NoEmptyBucket(users)
    ensures NoEmptyBucket(Exec(users, op, now))
  {
    if op.Register? {
      assert op.device in DevicesOf(users, op.user)[op.device := Entry(op.addrs, now + op.ttl)];
    }
  }

  lemma {:induction false} RunAppend(users: Users, calls: seq<Call>, c: Call)
    ensures Run(users, calls + [c]) == Exec(Run(users, calls), c.op, c.now)
    decreases |calls|
  {
    if calls == [] {
      assert calls + [c] == [c] && [c][1..] == [];
    } else {
      assert (calls + [c])[1..] == calls[1..] + [c];
      RunAppend(Exec(users, calls[0].op, calls[0].now), calls[1..], c);
    }
  }

  lemma {:induction false} RunAgrees(calls: seq<Call>, user: Did, device: Did)
    requires ClockRuns(calls) && calls != []
    ensures AgreeFrom(Run(map[], calls), calls, user, device, calls[|calls| - 1].now)
    decreases |calls|
  {
    var n := |calls| - 1;
    var c := calls[n];
    assert calls == calls[..n] + [c];
    RunAppend(map[], calls[..n], c);
    if n > 0 {
      RunAgrees(calls[..n], user, device);
      ExecAgrees(Run(map[], calls[..n]), calls[..n], c.op, calls[n - 1].now, c.now, user, device);
    } else {
      ExecAgrees(map[], [], c.op, c.now, c.now, user, device);
    }
  }

  lemma {:induction false} RunKeepsBuckets(users: Users, calls: seq<Call>)
    requires NoEmptyBucket(users)
    ensures NoEmptyBucket(Run(users, calls))
    decreases |calls|
  {
    if calls != [] {
      ExecKeepsBuckets(users, calls[0].op, calls[0].now);
      RunKeepsBuckets(Exec(users, calls[0].op, calls[0].now), calls[1..]);
    }
  }

  /**
   * Lazy collection refines the history: after any run whose clock does not run backwards, a query
   * finds exactly the devices whose last action was a registration that has not expired, with its
   * addresses, whichever queries and prunes ran before; and no user's bucket is left empty.
   */
  lemma QueryFindsExactlyTheReachable(calls: seq<Call>, user: Did, device: Did, addrs: seq<string>, now: int)
    requires ClockRuns(calls) && (calls != [] ==> calls[|calls| - 1].now <= now)
    ensures var live := Live(DevicesOf(Run(map[], calls), user), now);
            device in live && live[device].addrs == addrs <==> Reachable(calls, user, device, now, addrs)
    ensures NoEmptyBucket(Run(map[], calls))
  {
    RunKeepsBuckets(map[], calls);
    if calls != [] {
      RunAgrees(calls, user, device);
    }
  }

  /**
   * The shortest such run: one query drops a device for good that a query at an earlier time would
   * still have to report, if and only if the device has expired in between.
   */
  lemma BackwardClockLosesIff(user: Did, device: Did, addrs: seq<string>, start: int, ttl: int, late: int, early: int)
    requires early < late
    ensures var calls := [Call(Register(user, device, addrs, ttl), start), Call(Query(user), late)];
            (&& Reachable(calls, user, device, early, addrs)
             && device !in Live(DevicesOf(Run(map[], calls), user), early)) <==>
            early < start + ttl <= late
  {
    var c, d := Call(Register(user, device, addrs, ttl), start), Call(Query(user), late);
    assert [c, d][1..] == [d] && [d][1..] == [];
    assert [c, d][..1] == [c] && [c][..0] == [];
    var users := Exec(map[], c.op, start);
    assert users == map[user := map[device := Entry(addrs, start + ttl)]];
    assert Run(map[], [c, d]) == Run(users, [d]) == Run(Exec(users, d.op, late), []) == Exec(users, d.op, late);
    assert LastAction([c, d], user, device) == LastAction([c], user, device) == Some(Entry(addrs, start + ttl));
  }

  /** Leaves an entry of the device in place. */
  predicate Spares(c: Call, user: Did, device: Did, e: Entry) {
    && !((c.op.Register? || c.op.Unregister?) && c.op.user == user && c.op.device == device)
    && (c.op.Prune? || (c.op.Query? && c.op.user == user) ==> c.now < e.expiresAt)
  }

  predicate Registers(c: Call, user: Did, device: Did, e: Entry) {
    && c.op.Register? && c.op.user == user && c.op.device == device
    && e == Entry(c.op.addrs, c.now + c.op.ttl)
  }

  /** Some call left the entry, and all later ones spared it. */
  ghost predicate LeftBy(calls: seq<Call>, user: Did, device: Did, e: Entry) {
    exists n :: 0 <= n < |calls| && Registers(calls[n], user, device, e)
                && forall m :: n < m < |calls| ==> Spares(calls[m], user, device, e)
  }

  lemma LookupAfter(users: Users, c: Call, user: Did, device: Did, e: Entry)
    ensures Lookup(Exec(users, c.op, c.now), user, device) == Some(e) <==>
            Registers(c, user, device, e) || (Lookup(users, user, device) == Some(e) && Spares(c, user, device, e))
  {
  }

  lemma LeftByAppend(calls: seq<Call>, c: Call, user: Did, device: Did, e: Entry)
    ensures LeftBy(calls + [c], user, device, e) <==>
            Registers(c, user, device, e) || (LeftBy(calls, user, device, e) && Spares(c, user, device, e))
  {
    var all := calls + [c];
    assert forall n :: 0 <= n < |calls| ==> all[n] == calls[n];
    assert all[|calls|] == c;
    if LeftBy(calls, user, device, e) && Spares(c, user, device, e) {
      var n :| 0 <= n < |calls| && Registers(calls[n], user, device, e)
               && forall m :: n < m < |calls| ==> Spares(calls[m], user, device, e);
      assert Registers(all[n], user, device, e);
    }
  }

  /**
   * Without any assumption on the clock: an entry is stored for a device exactly if some call
   * registered it, nothing registered or unregistered the device since, and every later prune, and
   * every later query of that user, came before the entry's expiry.
   */
  lemma {:induction false} StoredIff(calls: seq<Call>, user: Did, device: Did, e: Entry)
    ensures Lookup(Run(map[], calls), user, device) == Some(e) <==> LeftBy(calls, user, device, e)
    decreases |calls|
  {
    if calls != [] {
      var before, c := calls[..|calls| - 1], calls[|calls| - 1];
      assert calls == before + [c];
      StoredIff(before, user, device, e);
      RunAppend(map[], before, c);
      LookupAfter(Run(map[], before), c, user, device, e);
      LeftByAppend(before, c, user, device, e);
    }
  }

  lemma {:induction false} LeftByIsLast(calls: seq<Call>, user: Did, device: Did, e: Entry)
    requires LeftBy(calls, user, device, e)
    ensures LastAction(calls, user, device) == Some(e)
    decreases |calls|
  {
    var before, c := calls[..|calls| - 1], calls[|calls| - 1];
    assert calls == before + [c];
    LeftByAppend(before, c, user, device, e);
    if !Registers(c, user, device, e) {
      LeftByIsLast(before, user, device, e);
    }
  }

  /** So, in any run, a read misses a device it should find exactly if a call since dropped its last entry. */
  lemma ClockLosesIff(calls: seq<Call>, user: Did, device: Did, now: int, addrs: seq<string>)
    requires Reachable(calls, user, device, now, addrs)
    ensures device !in Live(DevicesOf(Run(map[], calls), user), now) <==>
            !LeftBy(calls, user, device, LastAction(calls, user, device).value)
  {
    var users := Run(map[], calls);
    StoredIff(calls, user, device, LastAction(calls, user, device).value);
    if device in DevicesOf(users, user) {
      var e := DevicesOf(users, user)[device];
      StoredIff(calls, user, device, e);
      LeftByIsLast(calls, user, device, e);
    }
  }

  // ---------------------------------------------------------------------------------------
  // The directory
  // ---------------------------------------------------------------------------------------

  /** The directory when the users in `todo` have still to be pruned. */
  function PruneSome(users: Users, now: int, todo: set<Did>): Users {
    map u | u in users && (u in todo || Live(users[u], now) != map[]) ::
      if u in todo then users[u] else Live(users[u], now)
  }

  lemma PruneOne(users: Users, now: int, todo: set<Did>, u: Did)
    requires todo <= users.Keys && u in todo
    ensures u in PruneSome(users, now, todo) && PruneSome(users, now, todo)[u] == users[u]
    ensures PruneSome(users, now, todo - {u}) == Store(PruneSome(users, now, todo), u, Live(users[u], now))
  {
    var before, after := PruneSome(users, now, todo), PruneSome(users, now, todo - {u});
    var stored := Store(before, u, Live(users[u], now));
    assert after.Keys == stored.Keys;
    forall x | x in after
      ensures after[x] == stored[x]
    {
    }
  }

  ghost predicate Lists(devices: Devices, out: seq<Location>) {
    && (forall d :: d in devices ==> Location(d, devices[d].addrs) in out)
    && (forall l :: l in out ==> l.deviceDID in devices && devices[l.deviceDID].addrs == l.addrs)
    && Distinct(out)
  }

  class Directory {
    var byUser: Users

    ghost predicate Valid()
      reads this
    {
      NoEmptyBucket(byUser)
    }

    constructor ()
      ensures byUser == map[] && Valid()
    {
      byUser := map[];
    }

    method Register(user: Did, device: Did, addrs: seq<string>, now: int, ttl: int)
      requires Valid()
      modifies this
      ensures Valid()
      ensures byUser == Exec(old(byUser), Op.Register(user, device, addrs, ttl), now)
    {
      ExecKeepsBuckets(byUser, Op.Register(user, device, addrs, ttl), now);
      if user !in byUser {
        byUser := byUser[user := map[]];
      }
      byUser := byUser[user := byUser[user][device := Entry(addrs, now + ttl)]];
    }

    /** Collects the live devices and drops the others while iterating in an arbitrary order. */
    method Query(user: Did, now: int) returns (out: seq<Location>)
      requires Valid()
      modifies this
      ensures Valid()
      ensures byUser == Exec(old(byUser), Op.Query(user), now)
      ensures Lists(Live(DevicesOf(old(byUser), user), now), out)
    {
      ExecKeepsBuckets(byUser, Op.Query(user), now);
      out := [];
      if user !in byUser {
        assert Live(map[], now) == map[];
        return;
      }
      var devices := byUser[user];
      ghost var all := devices;
      var todo := devices.Keys;
      while todo != {}
        invariant todo <= all.Keys
        invariant devices == map d | d in all && (d in todo || now < all[d].expiresAt) :: all[d]
        invariant forall d :: d in all && d !in todo && now < all[d].expiresAt ==> Location(d, all[d].addrs) in out
        invariant forall l :: l in out ==>
                    && l.deviceDID in all && l.deviceDID !in todo
                    && now < all[l.deviceDID].expiresAt && all[l.deviceDID].addrs == l.addrs
        invariant Distinct(out)
        decreases todo
      {
        var d :| d in todo;
        todo := todo - {d};
        if now < devices[d].expiresAt {
          out := out + [Location(d, devices[d].addrs)];
        } else {
          devices := devices - {d};
        }
      }
      assert devices == Live(all, now);
      byUser := if devices == map[] then byUser - {user} else byUser[user := devices];
    }

    method Unregister(user: Did, device: Did)
      requires Valid()
      modifies this
      ensures Valid()
      ensures forall now :: byUser == Exec(old(byUser), Op.Unregister(user, device), now)
    {
      ExecKeepsBuckets(byUser, Op.Unregister(user, device), 0);
      if user in byUser {
        var devices := byUser[user] - {device};
        byUser := if devices == map[] then byUser - {user} else byUser[user := devices];
      } else {
        assert DevicesOf(byUser, user) - {device} == map[];
      }
    }

    method Prune(now: int)
      requires Valid()
      modifies this
      ensures Valid()
      ensures byUser == Exec(old(byUser), Op.Prune, now)
    {
      ExecKeepsBuckets(byUser, Op.Prune, now);
      ghost var all := byUser;
      var todo := byUser.Keys;
      while todo != {}
        invariant todo <= all.Keys
        invariant byUser == PruneSome(all, now, todo)
        decreases todo
      {
        var u :| u in todo;
        PruneOne(all, now, todo, u);
        todo := todo - {u};
        var devices := DropExpired(byUser[u], now);
        byUser := if devices == map[] then byUser - {u} else byUser[u := devices];
      }
    }

    method DropExpired(devices: Devices, now: int) returns (kept: Devices)
      ensures kept == Live(devices, now)
    {
      kept := devices;
      var todo := devices.Keys;
      while todo != {}
        invariant todo <= devices.Keys
        invariant kept == map d | d in devices && (d in todo || now < devices[d].expiresAt) :: devices[d]
        decreases todo
      {
        var d :| d in todo;
        todo := todo - {d};
        if !(now < devices[d].expiresAt) {
          kept := kept - {d};
        }
      }
    }
  }
}
