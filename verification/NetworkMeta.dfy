/**
 * Membership snapshots and their convergence by epoch (ts/linkself/src/network-meta.ts, and
 * publishMembership and handleNetworkMeta of ts/linkself/src/client.ts).
 */
module NetworkMeta {
  import opened Common
  import opened Networks

  datatype Meta = Meta(network: Network, epoch: int)

  datatype View = View(nets: Nets, epochs: map<NetworkId, int>)

  function LastEpoch(v: View, id: NetworkId): int {
    if id in v.epochs then v.epochs[id] else 0
  }

  function Note(v: View, id: NetworkId, epoch: int): View {
    if epoch > LastEpoch(v, id) then v.(epochs := v.epochs[id := epoch]) else v
  }

  /** Last-write-wins on the epoch; a tie keeps what is there. */
  function Merge(v: View, m: Meta): View {
    var id := m.network.id;
    if m.epoch <= LastEpoch(v, id) then v
    else View(v.nets[id := m.network], v.epochs[id := m.epoch])
  }

  function MergeAll(v: View, ms: seq<Meta>): View
    decreases |ms|
  {
    if ms == [] then v else MergeAll(Merge(v, ms[0]), ms[1..])
  }

  /** A snapshot arriving from `sender` counts only if the sender is an admin in the local view. */
  function Handle(gate: Gate, v: View, sender: Did, m: Meta): View {
    var id := m.network.id;
    if id !in v.nets || !IsAdmin(gate, v.nets[id], sender) then v else Merge(v, m)
  }

  datatype Message = Message(sender: Did, meta: Meta)

  function HandleAll(gate: Gate, v: View, ms: seq<Message>): View
    decreases |ms|
  {
    if ms == [] then v else HandleAll(gate, Handle(gate, v, ms[0].sender, ms[0].meta), ms[1..])
  }

  /** The snapshot of our current state, after noting its epoch; the state itself is not touched. */
  function Publish(v: View, id: NetworkId, now: int): (View, Option<Meta>) {
    if id !in v.nets then (v, None) else (Note(v, id, now), Some(Meta(v.nets[id], now)))
  }

  // ---------------------------------------------------------------------------------------
  // Convergence
  // ---------------------------------------------------------------------------------------

  /** `v` holds, for network `id`, a highest-epoch snapshot among `ms`, or the start if none beats it. */
  ghost predicate HoldsNewest(start: View, ms: seq<Meta>, v: View, id: NetworkId) {
    && (forall m :: m in ms && m.network.id == id ==> m.epoch <= LastEpoch(v, id))
    && (|| SameFor(start, v, id)
        || (LastEpoch(v, id) > LastEpoch(start, id) && id in v.nets && Meta(v.nets[id], LastEpoch(v, id)) in ms))
  }

  ghost predicate SameFor(v: View, w: View, id: NetworkId) {
    && LastEpoch(v, id) == LastEpoch(w, id)
    && (id in v.nets <==> id in w.nets)
    && (id in v.nets ==> v.nets[id] == w.nets[id])
  }

  ghost predicate Filed(nets: Nets) {
    forall id :: id in nets ==> nets[id].id == id
  }

  lemma MergeHoldsNewest(start: View, before: seq<Meta>, v: View, m: Meta, id: NetworkId)
    requires HoldsNewest(start, before, v, id) && LastEpoch(v, id) >= LastEpoch(start, id)
    ensures HoldsNewest(start, before + [m], Merge(v, m), id)
    ensures LastEpoch(Merge(v, m), id) >= LastEpoch(v, id)
  {
    assert m in before + [m];
  }

  lemma {:induction false} MergeAllHoldsNewest(start: View, before: seq<Meta>, v: View, rest: seq<Meta>, id: NetworkId)
    requires HoldsNewest(start, before, v, id) && LastEpoch(v, id) >= LastEpoch(start, id)
    ensures HoldsNewest(start, before + rest, MergeAll(v, rest), id)
    ensures LastEpoch(MergeAll(v, rest), id) >= LastEpoch(v, id)
    decreases |rest|
  {
    if rest == [] {
      assert before + rest == before;
    } else {
      MergeHoldsNewest(start, before, v, rest[0], id);
      MergeAllHoldsNewest(start, before + [rest[0]], Merge(v, rest[0]), rest[1..], id);
      assert before + [rest[0]] + rest[1..] == before + rest;
    }
  }

  /** No two snapshots of a network share an epoch. */
  ghost predicate DistinctEpochs(ms: seq<Meta>) {
    forall m, n :: m in ms && n in ms && m.network.id == n.network.id && m.epoch == n.epoch ==> m == n
  }

  ghost predicate SameElements(ms: seq<Meta>, ns: seq<Meta>) {
    forall m :: m in ms <==> m in ns
  }

  /**
   * Snapshots converge: the same snapshots in any order, with any repetition, leave every network
   * at its highest-epoch snapshot, or where it was if none is newer; and so at the same state.
   */
  lemma SnapshotsConverge(start: View, ms: seq<Meta>, ns: seq<Meta>, id: NetworkId)
    requires SameElements(ms, ns) && DistinctEpochs(ms) && Filed(start.nets)
    ensures HoldsNewest(start, ms, MergeAll(start, ms), id)
    ensures SameFor(MergeAll(start, ms), MergeAll(start, ns), id)
  {
    MergeAllHoldsNewest(start, [], start, ms, id);
    MergeAllHoldsNewest(start, [], start, ns, id);
    assert [] + ms == ms && [] + ns == ns;
    MergeAllFiled(start, ms);
    MergeAllFiled(start, ns);
  }

  lemma {:induction false} MergeAllFiled(v: View, ms: seq<Meta>)
    requires Filed(v.nets)
    ensures Filed(MergeAll(v, ms).nets)
    decreases |ms|
  {
    if ms != [] {
      MergeAllFiled(Merge(v, ms[0]), ms[1..]);
    }
  }

  /** Two different snapshots of a network tie at its top epoch, above what was known before. */
  ghost predicate TopTie(start: View, ms: seq<Meta>, id: NetworkId) {
    exists m, n :: m in ms && n in ms && m != n && m.network.id == n.network.id == id && m.epoch == n.epoch
      && IsTop(start, ms, m)
  }

  ghost predicate IsTop(start: View, ms: seq<Meta>, m: Meta) {
    && m.epoch > LastEpoch(start, m.network.id)
    && forall x :: x in ms && x.network.id == m.network.id ==> x.epoch <= m.epoch
  }

  lemma TopFirstWins(start: View, m: Meta, ms: seq<Meta>)
    requires IsTop(start, ms, m) && m in ms
    ensures var v := MergeAll(start, [m] + ms); m.network.id in v.nets && v.nets[m.network.id] == m.network
  {
    assert ([m] + ms)[1..] == ms;
    MergeAllIgnoresOlder(Merge(start, m), ms, m.network.id);
  }

  lemma {:induction false} MergeAllIgnoresOlder(v: View, ms: seq<Meta>, id: NetworkId)
    requires forall m :: m in ms && m.network.id == id ==> m.epoch <= LastEpoch(v, id)
    ensures SameFor(v, MergeAll(v, ms), id)
    decreases |ms|
  {
    if ms != [] {
      MergeAllIgnoresOlder(Merge(v, ms[0]), ms[1..], id);
    }
  }

  lemma TiedDisagree(start: View, ms: seq<Meta>, id: NetworkId) returns (ns: seq<Meta>)
    requires TopTie(start, ms, id)
    ensures SameElements(ms, ns) && !SameFor(MergeAll(start, ms), MergeAll(start, ns), id)
  {
    var m, n :| m in ms && n in ms && m != n && m.network.id == n.network.id == id && m.epoch == n.epoch
      && IsTop(start, ms, m);
    assert IsTop(start, ms, n);
    TopFirstWins(start, m, ms);
    TopFirstWins(start, n, ms);
    ns := if SameFor(MergeAll(start, ms), MergeAll(start, [m] + ms), id) then [n] + ms else [m] + ms;
  }

  /** The exact condition: all arrangements agree on a network if its top epoch is not tied, and only then. */
  lemma ConvergenceIff(start: View, ms: seq<Meta>, id: NetworkId)
    requires Filed(start.nets)
    ensures (forall ns :: SameElements(ms, ns) ==> SameFor(MergeAll(start, ms), MergeAll(start, ns), id)) <==>
            !TopTie(start, ms, id)
  {
    if TopTie(start, ms, id) {
      var ns := TiedDisagree(start, ms, id);
    } else {
      forall ns | SameElements(ms, ns)
        ensures SameFor(MergeAll(start, ms), MergeAll(start, ns), id)
      {
        UntiedAgree(start, ms, ns, id);
      }
    }
  }

  lemma UntiedAgree(start: View, ms: seq<Meta>, ns: seq<Meta>, id: NetworkId)
    requires SameElements(ms, ns) && !TopTie(start, ms, id) && Filed(start.nets)
    ensures SameFor(MergeAll(start, ms), MergeAll(start, ns), id)
  {
    MergeAllHoldsNewest(start, [], start, ms, id);
    MergeAllHoldsNewest(start, [], start, ns, id);
    assert [] + ms == ms && [] + ns == ns;
    MergeAllFiled(start, ms);
    MergeAllFiled(start, ns);
    var v, w := MergeAll(start, ms), MergeAll(start, ns);
    if !SameFor(start, v, id) && !SameFor(start, w, id) {
      var m, n := Meta(v.nets[id], LastEpoch(v, id)), Meta(w.nets[id], LastEpoch(w, id));
      assert m in ms && n in ms && m.network.id == n.network.id == id && m.epoch == n.epoch;
      assert IsTop(start, ms, m);
    }
  }

  datatype Update = DoApply(meta: Meta) | DoNote(id: NetworkId, epoch: int)

  function Apply(v: View, u: Update): View {
    match u
    case DoApply(m) => Merge(v, m)
    case DoNote(id, epoch) => Note(v, id, epoch)
  }

  function UpdateAll(v: View, us: seq<Update>): View
    decreases |us|
  {
    if us == [] then v else UpdateAll(Apply(v, us[0]), us[1..])
  }

  function EpochOf(u: Update): int {
    if u.DoApply? then u.meta.epoch else u.epoch
  }

  function IdOf(u: Update): NetworkId {
    if u.DoApply? then u.meta.network.id else u.id
  }

  /**
   * Under any mix of applied snapshots and noted epochs the last epoch is the highest of the one at
   * the start and those that came: so it never falls.
   */
  lemma {:induction false} EpochNeverFalls(v: View, us: seq<Update>, id: NetworkId)
    ensures var last := LastEpoch(UpdateAll(v, us), id);
            && last >= LastEpoch(v, id)
            && (forall u :: u in us && IdOf(u) == id ==> EpochOf(u) <= last)
            && (last == LastEpoch(v, id) || exists u :: u in us && IdOf(u) == id && EpochOf(u) == last)
    decreases |us|
  {
    if us != [] {
      var v' := Apply(v, us[0]);
      EpochNeverFalls(v', us[1..], id);
      assert us == [us[0]] + us[1..];
      assert us[0] in us && forall u :: u in us[1..] ==> u in us;
      assert IdOf(us[0]) == id ==> EpochOf(us[0]) <= LastEpoch(v', id);
    }
  }

  /** Of an unknown network a snapshot or epoch counts exactly if it is above 0. */
  lemma UnknownEpochIsZero(v: View, m: Meta, epoch: int)
    requires m.network.id !in v.epochs
    ensures var id := m.network.id;
            && Merge(v, m) == (if m.epoch > 0 then View(v.nets[id := m.network], v.epochs[id := m.epoch]) else v)
            && Note(v, id, epoch) == (if epoch > 0 then v.(epochs := v.epochs[id := epoch]) else v)
  {
  }

  // ---------------------------------------------------------------------------------------
  // Snapshots from peers
  // ---------------------------------------------------------------------------------------

  function Metas(ms: seq<Message>): (r: seq<Meta>)
    ensures |r| == |ms| && forall i :: 0 <= i < |ms| ==> r[i] == ms[i].meta
  {
    seq(|ms|, i requires 0 <= i < |ms| => ms[i].meta)
  }

  ghost predicate Trusts(gate: Gate, v: View, x: Message) {
    x.meta.network.id in v.nets && IsAdmin(gate, v.nets[x.meta.network.id], x.sender)
  }

  /** The network is known, and every sender about it is an admin now and in every snapshot of it. */
  ghost predicate TrustedThroughout(gate: Gate, v: View, ms: seq<Message>) {
    && (forall x :: x in ms ==> Trusts(gate, v, x))
    && forall x, y :: x in ms && y in ms && x.meta.network.id == y.meta.network.id ==>
         IsAdmin(gate, y.meta.network, x.sender)
  }

  /** Then the admin check never bites, and handling is applying; convergence carries over. */
  lemma {:induction false} HandleIsMerge(gate: Gate, v: View, ms: seq<Message>)
    requires TrustedThroughout(gate, v, ms)
    ensures HandleAll(gate, v, ms) == MergeAll(v, Metas(ms))
    decreases |ms|
  {
    if ms != [] {
      var next := Handle(gate, v, ms[0].sender, ms[0].meta);
      assert ms[0] in ms && Trusts(gate, v, ms[0]);
      assert next == Merge(v, ms[0].meta);
      assert Metas(ms)[1..] == Metas(ms[1..]);
      forall x | x in ms[1..]
        ensures Trusts(gate, next, x)
      {
        assert x in ms && Trusts(gate, v, x);
      }
      HandleIsMerge(gate, next, ms[1..]);
    }
  }

  /** The sender is an admin of the network at the start and in every snapshot of it. */
  ghost predicate Trusted(gate: Gate, v: View, ms: seq<Message>, id: NetworkId, sender: Did) {
    && id in v.nets && IsAdmin(gate, v.nets[id], sender)
    && forall y :: y in ms && y.meta.network.id == id ==> IsAdmin(gate, y.meta.network, sender)
  }

  /** A message with the network's highest epoch, above what is known and not tied with another snapshot. */
  ghost predicate IsTopMessage(v: View, ms: seq<Message>, x: Message) {
    && x in ms && x.meta.epoch > LastEpoch(v, x.meta.network.id)
    && forall y :: y in ms && y.meta.network.id == x.meta.network.id ==> y.meta.epoch < x.meta.epoch || y.meta == x.meta
  }

  /** Nothing about the network is news, or the newest snapshot comes from a trusted sender; whoever sent the rest. */
  ghost predicate TopTrusted(gate: Gate, v: View, ms: seq<Message>, id: NetworkId) {
    || NoNews(v, ms, id)
    || exists x :: IsTopMessage(v, ms, x) && x.meta.network.id == id && Trusted(gate, v, ms, id, x.sender)
  }

  ghost predicate NoNews(v: View, ms: seq<Message>, id: NetworkId) {
    forall y :: y in ms && y.meta.network.id == id ==> y.meta.epoch <= LastEpoch(v, id)
  }

  lemma {:induction false} OldNewsChangesNothing(gate: Gate, v: View, ms: seq<Message>, id: NetworkId)
    requires NoNews(v, ms, id)
    ensures SameFor(v, HandleAll(gate, v, ms), id)
    decreases |ms|
  {
    if ms != [] {
      var v' := Handle(gate, v, ms[0].sender, ms[0].meta);
      assert ms[0] in ms && SameFor(v, v', id);
      OldNewsChangesNothing(gate, v', ms[1..], id);
    }
  }

  /** Below the top: its sender is trusted in the current state and in everything still to come. */
  lemma {:induction false} TopSnapshotWins(gate: Gate, v: View, ms: seq<Message>, x: Message)
    requires IsTopMessage(v, ms, x) && Trusted(gate, v, ms, x.meta.network.id, x.sender)
    ensures var w, id := HandleAll(gate, v, ms), x.meta.network.id;
            id in w.nets && w.nets[id] == x.meta.network && LastEpoch(w, id) == x.meta.epoch
    decreases |ms|
  {
    var id, y, rest := x.meta.network.id, ms[0], ms[1..];
    var v' := Handle(gate, v, y.sender, y.meta);
    assert ms == [y] + rest && y in ms;
    if LastEpoch(v', id) == x.meta.epoch {
      OldNewsChangesNothing(gate, v', rest, id);
    } else {
      assert y != x;
      assert Trusted(gate, v', rest, id, x.sender);
      TopSnapshotWins(gate, v', rest, x);
    }
  }

  /**
   * Convergence through the client: if the sender of the newest snapshot is an admin at the start and
   * in every snapshot, every arrangement of the messages, with any repetition, ends at that snapshot.
   */
  lemma HandledSnapshotsConverge(gate: Gate, v: View, ms: seq<Message>, ns: seq<Message>, id: NetworkId)
    requires TopTrusted(gate, v, ms, id)
    requires forall x :: x in ms <==> x in ns
    ensures SameFor(HandleAll(gate, v, ms), HandleAll(gate, v, ns), id)
    ensures HoldsNewest(v, Metas(ms), HandleAll(gate, v, ms), id)
  {
    if NoNews(v, ms, id) {
      OldNewsChangesNothing(gate, v, ms, id);
      OldNewsChangesNothing(gate, v, ns, id);
    } else {
      var x :| IsTopMessage(v, ms, x) && x.meta.network.id == id && Trusted(gate, v, ms, id, x.sender);
      TopSnapshotWins(gate, v, ms, x);
      TopSnapshotWins(gate, v, ns, x);
      var i :| 0 <= i < |ms| && ms[i] == x;
      assert Metas(ms)[i] in Metas(ms);
    }
  }

  ghost predicate EndsAt(v: View, x: Message) {
    var id := x.meta.network.id;
    id in v.nets && v.nets[id] == x.meta.network && LastEpoch(v, id) == x.meta.epoch
  }

  ghost predicate SameMessages(ms: seq<Message>, ns: seq<Message>) {
    forall y :: y in ms <==> y in ns
  }

  lemma {:induction false} HandleConcat(gate: Gate, v: View, a: seq<Message>, b: seq<Message>)
    ensures HandleAll(gate, v, a + b) == HandleAll(gate, HandleAll(gate, v, a), b)
    decreases |a|
  {
    if a == [] {
      assert a + b == b;
    } else {
      assert (a + b)[1..] == a[1..] + b;
      HandleConcat(gate, Handle(gate, v, a[0].sender, a[0].meta), a[1..], b);
    }
  }

  lemma {:induction false} StaysBelow(gate: Gate, v: View, ls: seq<Message>, id: NetworkId, epoch: int)
    requires LastEpoch(v, id) < epoch && forall y :: y in ls && y.meta.network.id == id ==> y.meta.epoch < epoch
    ensures LastEpoch(HandleAll(gate, v, ls), id) < epoch
    decreases |ls|
  {
    if ls != [] {
      assert ls[0] in ls;
      StaysBelow(gate, Handle(gate, v, ls[0].sender, ls[0].meta), ls[1..], id, epoch);
    }
  }

  lemma {:induction false} UnknownStays(gate: Gate, v: View, ls: seq<Message>, id: NetworkId)
    requires id !in v.nets
    ensures id !in HandleAll(gate, v, ls).nets
    decreases |ls|
  {
    if ls != [] {
      UnknownStays(gate, Handle(gate, v, ls[0].sender, ls[0].meta), ls[1..], id);
    }
  }

  // Chains of snapshots: what can have been applied, one upon the other, before the newest.

  /** Snapshots of the network with ascending epochs, each by an admin of the state before it. */
  predicate Chain(gate: Gate, n: Network, epoch: int, id: NetworkId, ls: seq<Message>)
    decreases |ls|
  {
    ls == [] ||
    (&& ls[0].meta.network.id == id && ls[0].meta.epoch > epoch && IsAdmin(gate, n, ls[0].sender)
     && Chain(gate, ls[0].meta.network, ls[0].meta.epoch, id, ls[1..]))
  }

  /** In the first state or after some link of the chain, the sender is no admin. */
  predicate LosesStanding(gate: Gate, n: Network, ls: seq<Message>, sender: Did)
    decreases |ls|
  {
    !IsAdmin(gate, n, sender) || (ls != [] && LosesStanding(gate, ls[0].meta.network, ls[1..], sender))
  }

  /** Some of the messages, but none with the snapshot of `x`. */
  ghost predicate Draws(ms: seq<Message>, ls: seq<Message>, x: Message) {
    forall y :: y in ls ==> y in ms && y.meta != x.meta
  }

  /** The network is known, and along every chain of the others some sender of `x`'s snapshot stays an admin. */
  ghost predicate SomeSenderKeepsStanding(gate: Gate, v: View, ms: seq<Message>, x: Message) {
    var id := x.meta.network.id;
    && id in v.nets
    && forall ls :: Draws(ms, ls, x) && Chain(gate, v.nets[id], LastEpoch(v, id), id, ls) ==>
         exists y :: y in ms && y.meta == x.meta && !LosesStanding(gate, v.nets[id], ls, y.sender)
  }

  predicate Applies(gate: Gate, v: View, y: Message) {
    var id := y.meta.network.id;
    id in v.nets && IsAdmin(gate, v.nets[id], y.sender) && y.meta.epoch > LastEpoch(v, id)
  }

  /** The snapshots of the network applied before the first time that of `x` is. */
  function AppliedBefore(gate: Gate, v: View, ls: seq<Message>, x: Message): seq<Message>
    decreases |ls|
  {
    if ls == [] || (ls[0].meta == x.meta && Applies(gate, v, ls[0])) then []
    else
      (if ls[0].meta.network.id == x.meta.network.id && Applies(gate, v, ls[0]) then [ls[0]] else [])
      + AppliedBefore(gate, Handle(gate, v, ls[0].sender, ls[0].meta), ls[1..], x)
  }

  lemma {:induction false} AppliedIsChain(gate: Gate, v: View, ls: seq<Message>, x: Message)
    requires x.meta.network.id in v.nets
    ensures Chain(gate, v.nets[x.meta.network.id], LastEpoch(v, x.meta.network.id), x.meta.network.id,
                  AppliedBefore(gate, v, ls, x))
    ensures Draws(ls, AppliedBefore(gate, v, ls, x), x)
    decreases |ls|
  {
    if ls != [] && !(ls[0].meta == x.meta && Applies(gate, v, ls[0])) {
      var v', y := Handle(gate, v, ls[0].sender, ls[0].meta), ls[0];
      AppliedIsChain(gate, v', ls[1..], x);
      var rest := AppliedBefore(gate, v', ls[1..], x);
      assert ([y] + rest)[1..] == rest && [] + rest == rest;
      assert forall z :: z in rest ==> z in ls[1..];
      if y.meta.network.id != x.meta.network.id || !Applies(gate, v, y) {
        assert SameFor(v, v', x.meta.network.id);
      }
    }
  }

  /** `y` brings the snapshot of `x` and, along what is applied before it, is never without standing: it is applied. */
  lemma {:induction false} NewestGetsThrough(gate: Gate, v: View, ls: seq<Message>, x: Message, y: Message)
    requires var id := x.meta.network.id;
             && id in v.nets && LastEpoch(v, id) < x.meta.epoch
             && (forall z :: z in ls && z.meta.network.id == id ==> z.meta.epoch < x.meta.epoch || z.meta == x.meta)
             && y in ls && y.meta == x.meta
             && !LosesStanding(gate, v.nets[id], AppliedBefore(gate, v, ls, x), y.sender)
    ensures EndsAt(HandleAll(gate, v, ls), x)
    decreases |ls|
  {
    var id, z, rest := x.meta.network.id, ls[0], ls[1..];
    var v' := Handle(gate, v, z.sender, z.meta);
    assert ls == [z] + rest && z in ls;
    if z.meta == x.meta && Applies(gate, v, z) {
      OldNewsChangesNothing(gate, v', rest, id);
    } else {
      assert y in rest;
      var before := AppliedBefore(gate, v', rest, x);
      if z.meta.network.id == id && Applies(gate, v, z) {
        assert ([z] + before)[1..] == before;
      } else {
        assert [] + before == before && SameFor(v, v', id);
      }
      NewestGetsThrough(gate, v', rest, x, y);
    }
  }

  /** The messages with the snapshot of `x`, or the others. */
  function WithMeta(ms: seq<Message>, x: Message, same: bool): (r: seq<Message>)
    ensures forall y :: y in r <==> y in ms && (y.meta == x.meta) == same
  {
    if ms == [] then []
    else (if (ms[0].meta == x.meta) == same then [ms[0]] else []) + WithMeta(ms[1..], x, same)
  }

  function WithoutStanding(gate: Gate, n: Network, ms: seq<Message>): (r: seq<Message>)
    ensures forall y :: y in r <==> y in ms && !IsAdmin(gate, n, y.sender)
  {
    if ms == [] then []
    else (if IsAdmin(gate, n, ms[0].sender) then [] else [ms[0]]) + WithoutStanding(gate, n, ms[1..])
  }

  /** A chain, with each of the newest messages delivered where its sender has no standing. */
  function Weave(gate: Gate, n: Network, ls: seq<Message>, newest: seq<Message>): seq<Message>
    decreases |ls|
  {
    WithoutStanding(gate, n, newest) +
    if ls == [] then [] else [ls[0]] + Weave(gate, ls[0].meta.network, ls[1..], newest)
  }

  lemma {:induction false} WeaveHolds(gate: Gate, n: Network, ls: seq<Message>, newest: seq<Message>)
    ensures forall y :: y in ls ==> y in Weave(gate, n, ls, newest)
    ensures forall y :: y in Weave(gate, n, ls, newest) ==> y in ls || y in newest
    ensures forall y :: y in newest && LosesStanding(gate, n, ls, y.sender) ==> y in Weave(gate, n, ls, newest)
    decreases |ls|
  {
    if ls != [] {
      WeaveHolds(gate, ls[0].meta.network, ls[1..], newest);
      assert forall y :: y in ls <==> y == ls[0] || y in ls[1..];
    }
  }

  lemma {:induction false} RefusedChangesNothing(gate: Gate, v: View, ls: seq<Message>)
    requires forall y :: y in ls ==> !Applies(gate, v, y)
    ensures HandleAll(gate, v, ls) == v
    decreases |ls|
  {
    if ls != [] {
      assert ls[0] in ls;
      RefusedChangesNothing(gate, v, ls[1..]);
    }
  }

  lemma {:induction false} WeaveFollows(gate: Gate, v: View, id: NetworkId, ls: seq<Message>, newest: seq<Message>)
    requires id in v.nets && Chain(gate, v.nets[id], LastEpoch(v, id), id, ls)
    requires forall y :: y in newest ==> y.meta.network.id == id
    ensures HandleAll(gate, v, Weave(gate, v.nets[id], ls, newest)) == HandleAll(gate, v, ls)
    decreases |ls|
  {
    var refused := WithoutStanding(gate, v.nets[id], newest);
    RefusedChangesNothing(gate, v, refused);
    if ls == [] {
      assert refused + [] == refused;
    } else {
      var v' := Handle(gate, v, ls[0].sender, ls[0].meta);
      var rest := Weave(gate, ls[0].meta.network, ls[1..], newest);
      WeaveFollows(gate, v', id, ls[1..], newest);
      HandleConcat(gate, v, refused, [ls[0]] + rest);
      assert ([ls[0]] + rest)[1..] == rest;
    }
  }

  /**
   * The exact condition: the newest snapshot wins in every arrangement if and only if along every
   * chain of the others at least one of its senders never loses standing.
   */
  lemma NewestAlwaysWinsIff(gate: Gate, v: View, ms: seq<Message>, x: Message)
    requires IsTopMessage(v, ms, x)
    ensures (forall ns :: SameMessages(ms, ns) ==> EndsAt(HandleAll(gate, v, ns), x)) <==>
            SomeSenderKeepsStanding(gate, v, ms, x)
  {
    var id := x.meta.network.id;
    if SomeSenderKeepsStanding(gate, v, ms, x) {
      forall ns | SameMessages(ms, ns)
        ensures EndsAt(HandleAll(gate, v, ns), x)
      {
        var before := AppliedBefore(gate, v, ns, x);
        AppliedIsChain(gate, v, ns, x);
        assert Draws(ms, before, x);
        var y :| y in ms && y.meta == x.meta && !LosesStanding(gate, v.nets[id], before, y.sender);
        NewestGetsThrough(gate, v, ns, x, y);
      }
    } else if id !in v.nets {
      UnknownStays(gate, v, ms, id);
      assert SameMessages(ms, ms);
    } else {
      var ls :| Draws(ms, ls, x) && Chain(gate, v.nets[id], LastEpoch(v, id), id, ls)
                && forall y :: y in ms && y.meta == x.meta ==> LosesStanding(gate, v.nets[id], ls, y.sender);
      NewestMissesOut(gate, v, ms, x, ls);
    }
  }

  lemma NewestMissesOut(gate: Gate, v: View, ms: seq<Message>, x: Message, ls: seq<Message>)
    requires IsTopMessage(v, ms, x) && x.meta.network.id in v.nets && Draws(ms, ls, x)
    requires var id := x.meta.network.id;
             && Chain(gate, v.nets[id], LastEpoch(v, id), id, ls)
             && forall y :: y in ms && y.meta == x.meta ==> LosesStanding(gate, v.nets[id], ls, y.sender)
    ensures exists ns :: SameMessages(ms, ns) && !EndsAt(HandleAll(gate, v, ns), x)
  {
    var id, newest, others := x.meta.network.id, WithMeta(ms, x, true), WithMeta(ms, x, false);
    var weave := Weave(gate, v.nets[id], ls, newest);
    WeaveHolds(gate, v.nets[id], ls, newest);
    WeaveFollows(gate, v, id, ls, newest);
    HandleConcat(gate, v, weave, others);
    HandleConcat(gate, v, ls, others);
    StaysBelow(gate, v, ls + others, id, x.meta.epoch);
    assert SameMessages(ms, weave + others);
  }

  /**
   * For two newer snapshots by admins this comes down to one check: both orders end alike if and only if
   * the sender of the newer one is still an admin in the older one.
   */
  lemma TwoSnapshotsAgreeIff(gate: Gate, v: View, x: Message, y: Message)
    requires var id := x.meta.network.id;
             && id == y.meta.network.id && id in v.nets
             && LastEpoch(v, id) < x.meta.epoch < y.meta.epoch
             && IsAdmin(gate, v.nets[id], x.sender) && IsAdmin(gate, v.nets[id], y.sender)
    ensures HandleAll(gate, v, [x, y]) == HandleAll(gate, v, [y, x]) <==> IsAdmin(gate, x.meta.network, y.sender)
    ensures !IsAdmin(gate, x.meta.network, y.sender) ==>
              && HandleAll(gate, v, [x, y]) == Merge(v, x.meta)
              && HandleAll(gate, v, [y, x]) == Merge(v, y.meta)
  {
    var id := x.meta.network.id;
    HandleTwo(gate, v, x, y);
    HandleTwo(gate, v, y, x);
    assert Merge(v, y.meta).nets == Merge(Merge(v, x.meta), y.meta).nets;
    assert Merge(v, y.meta).epochs == Merge(Merge(v, x.meta), y.meta).epochs;
    assert Merge(v, x.meta).epochs[id] == x.meta.epoch && Merge(v, y.meta).epochs[id] == y.meta.epoch;
  }

  lemma HandleTwo(gate: Gate, v: View, x: Message, y: Message)
    ensures HandleAll(gate, v, [x, y]) == Handle(gate, Handle(gate, v, x.sender, x.meta), y.sender, y.meta)
  {
    var v' := Handle(gate, v, x.sender, x.meta);
    assert [x, y][1..] == [y] && [y][1..] == [];
    assert HandleAll(gate, v', [y]) == HandleAll(gate, Handle(gate, v', y.sender, y.meta), []);
  }

  /**
   * The failing family: a snapshot that removes an admin's standing, and a later one by that admin,
   * leave two nodes that receive them in different orders in different states for good.
   */
  lemma RemovedAdminsSnapshotDiverges(gate: Gate, v: View, x: Message, y: Message)
    requires var id := x.meta.network.id;
             && id == y.meta.network.id && id in v.nets
             && LastEpoch(v, id) < x.meta.epoch < y.meta.epoch
             && IsAdmin(gate, v.nets[id], x.sender) && IsAdmin(gate, v.nets[id], y.sender)
             && Closed(gate) && y.sender !in x.meta.network.memberRoles
    ensures HandleAll(gate, v, [x, y]) == Merge(v, x.meta)
    ensures HandleAll(gate, v, [y, x]) == Merge(v, y.meta)
  {
    TwoSnapshotsAgreeIff(gate, v, x, y);
  }

  /**
   * Publishing and receiving: a peer that counts the sender as an admin ends with the published
   * state exactly when the epoch is news to it or it had that state already; and the publisher
   * itself ignores every snapshot up to the epoch it noted.
   */
  lemma PublishReachesIff(gate: Gate, v: View, peer: View, sender: Did, id: NetworkId, now: int)
    requires Filed(v.nets) && id in v.nets && id in peer.nets && IsAdmin(gate, peer.nets[id], sender)
    ensures var (v', meta) := Publish(v, id, now);
            && v'.nets == v.nets
            && meta.Some?
            && (Handle(gate, peer, sender, meta.value).nets[id] == v.nets[id] <==>
                  now > LastEpoch(peer, id) || peer.nets[id] == v.nets[id])
            && forall m: Meta :: m.network.id == id && m.epoch <= now ==> Merge(v', m) == v'
  {
  }

  class NetworkMetaTracker {
    const store: MemNetworkStore
    var epochs: map<NetworkId, int>

    function V(): View
      reads this, store
    {
      View(store.networks, epochs)
    }

    constructor (store: MemNetworkStore)
      ensures this.store == store && epochs == map[]
    {
      this.store, epochs := store, map[];
    }

    method LastEpochOf(id: NetworkId) returns (e: int)
      ensures e == LastEpoch(V(), id)
    {
      e := if id in epochs then epochs[id] else 0;
    }

    method NoteEpoch(id: NetworkId, epoch: int)
      modifies this
      ensures V() == Note(old(V()), id, epoch)
    {
      var last := LastEpochOf(id);
      if epoch > last {
        epochs := epochs[id := epoch];
      }
    }

    method Apply(m: Meta) returns (applied: bool)
      modifies this, store
      ensures V() == Merge(old(V()), m)
      ensures applied == (m.epoch > LastEpoch(old(V()), m.network.id))
    {
      var last := LastEpochOf(m.network.id);
      if m.epoch <= last {
        return false;
      }
      store.PutNetwork(m.network);
      epochs := epochs[m.network.id := m.epoch];
      applied := true;
    }
  }

  /** The two operations of the client on its tracker and store; `sent` collects what goes out. */
  class Client {
    const gate: Gate
    const tracker: NetworkMetaTracker
    var sent: seq<(Did, Meta)>
    const self: Did

    constructor (gate: Gate, tracker: NetworkMetaTracker, self: Did)
      ensures this.gate == gate && this.tracker == tracker && this.self == self && sent == []
    {
      this.gate, this.tracker, this.self, sent := gate, tracker, self, [];
    }

    method PublishMembership(id: NetworkId, now: int)
      modifies this, tracker
      ensures tracker.V() == Publish(old(tracker.V()), id, now).0
      ensures id !in old(tracker.store.networks) ==> sent == old(sent)
      ensures id in old(tracker.store.networks) ==>
                var net := old(tracker.store.networks)[id];
                && SentToEach(old(sent), sent, Without(net.members, self), Meta(net, now))
                && forall d, m :: (d, m) in sent[old(|sent|)..] <==>
                     d in net.members && d != self && m == Meta(net, now)
    {
      var net := tracker.store.GetNetwork(id);
      if net.None? {
        return;
      }
      var meta := Meta(net.value, now);
      tracker.NoteEpoch(id, now);
      ghost var before := sent;
      SendToGroup(net.value.members, meta);
      SentAsListed(before, sent, net.value.members, self, meta);
    }

    method SendToGroup(members: seq<Did>, meta: Meta)
      modifies this
      ensures SentToEach(old(sent), sent, Without(members, self), meta)
    {
      for i := 0 to |members|
        invariant SentToEach(old(sent), sent, Without(members[..i], self), meta)
      {
        assert members[..i + 1] == members[..i] + [members[i]];
        WithoutAppend(members[..i], members[i], self);
        if members[i] != self {
          sent := sent + [(members[i], meta)];
        }
      }
      assert members[..|members|] == members;
    }

    method HandleNetworkMeta(sender: Did, m: Meta)
      modifies tracker, tracker.store
      ensures tracker.V() == Handle(gate, old(tracker.V()), sender, m)
    {
      var net := tracker.store.GetNetwork(m.network.id);
      if net.None? {
        return;
      }
      if !IsAdmin(gate, net.value, sender) {
        return;
      }
      var _ := tracker.Apply(m);
    }
  }

  /** After what was sent before, one message to each of the given, in order. */
  ghost predicate SentToEach(before: seq<(Did, Meta)>, after: seq<(Did, Meta)>, to: seq<Did>, m: Meta) {
    && |after| == |before| + |to|
    && after[..|before|] == before
    && forall i :: 0 <= i < |to| ==> after[|before| + i] == (to[i], m)
  }

  /** So a recipient is sent as many messages as it is listed, and nobody else any. */
  lemma SentAsListed(before: seq<(Did, Meta)>, after: seq<(Did, Meta)>, members: seq<Did>, self: Did, m: Meta)
    requires SentToEach(before, after, Without(members, self), m)
    ensures forall d, x :: (d, x) in after[|before|..] <==> d in members && d != self && x == m
  {
    var to := Without(members, self);
    WithoutKeeps(members, self);
    forall d, x
      ensures (d, x) in after[|before|..] <==> d in to && x == m
    {
      if d in to && x == m {
        var i :| 0 <= i < |to| && to[i] == d;
        assert after[|before|..][i] == (d, x);
      }
      if (d, x) in after[|before|..] {
        var i :| 0 <= i < |after[|before|..]| && after[|before|..][i] == (d, x);
        assert after[|before| + i] == (to[i], m);
      }
    }
  }

  /** Every other member that counts the publisher as an admin and knows no epoch as new ends with the network. */
  lemma PublishedToMembers(gate: Gate, v: View, self: Did, id: NetworkId, now: int,
                           sent: seq<(Did, Meta)>, d: Did, peer: View)
    requires Filed(v.nets) && id in v.nets && d in v.nets[id].members && d != self
    requires SentToEach([], sent, Without(v.nets[id].members, self), Meta(v.nets[id], now))
    requires id in peer.nets && IsAdmin(gate, peer.nets[id], self) && LastEpoch(peer, id) < now
    ensures var inbox := Inbox(sent, d, self);
            && |inbox| == multiset(v.nets[id].members)[d] > 0
            && HandleAll(gate, peer, inbox).nets.Keys == peer.nets.Keys
            && HandleAll(gate, peer, inbox).nets[id] == v.nets[id] && LastEpoch(HandleAll(gate, peer, inbox), id) == now
  {
    var m, members := Meta(v.nets[id], now), v.nets[id].members;
    assert |Inbox(sent, d, self)| == multiset(members)[d] by {
      WithoutCounts(members, self, d);
      InboxHolds(sent, Without(members, self), d, self, m);
    }
    InboxHolds(sent, Without(members, self), d, self, m);
    SameSnapshotsSettle(gate, peer, Inbox(sent, d, self), self, m);
  }

  ghost predicate AllAre(inbox: seq<Message>, x: Message) {
    forall i :: 0 <= i < |inbox| ==> inbox[i] == x
  }

  /** What of the messages sent goes to one recipient. */
  function Inbox(sent: seq<(Did, Meta)>, d: Did, sender: Did): seq<Message> {
    if sent == [] then []
    else (if sent[0].0 == d then [Message(sender, sent[0].1)] else []) + Inbox(sent[1..], d, sender)
  }

  lemma {:induction false} InboxHolds(sent: seq<(Did, Meta)>, to: seq<Did>, d: Did, sender: Did, m: Meta)
    requires SentToEach([], sent, to, m)
    ensures |Inbox(sent, d, sender)| == multiset(to)[d]
    ensures AllAre(Inbox(sent, d, sender), Message(sender, m))
  {
    if to != [] {
      assert sent[0] == (to[0], m);
      forall i | 0 <= i < |to[1..]|
        ensures sent[1..][i] == (to[1..][i], m)
      {
        assert sent[i + 1] == (to[i + 1], m);
      }
      assert sent[1..][..0] == [];
      InboxHolds(sent[1..], to[1..], d, sender, m);
      assert to == [to[0]] + to[1..];
    }
  }

  /** Repetitions of one snapshot, the first of which is applied, leave its network. */
  lemma SameSnapshotsSettle(gate: Gate, peer: View, inbox: seq<Message>, sender: Did, m: Meta)
    requires inbox != [] && AllAre(inbox, Message(sender, m))
    requires var id := m.network.id;
             id in peer.nets && IsAdmin(gate, peer.nets[id], sender) && LastEpoch(peer, id) < m.epoch
    ensures var w := HandleAll(gate, peer, inbox);
            w.nets == peer.nets[m.network.id := m.network] && LastEpoch(w, m.network.id) == m.epoch
  {
    var v := Handle(gate, peer, sender, m);
    OldMessagesLeave(gate, v, inbox[1..], sender, m);
  }

  lemma {:induction false} OldMessagesLeave(gate: Gate, v: View, inbox: seq<Message>, sender: Did, m: Meta)
    requires AllAre(inbox, Message(sender, m)) && m.epoch <= LastEpoch(v, m.network.id)
    ensures HandleAll(gate, v, inbox) == v
    decreases |inbox|
  {
    if inbox != [] {
      OldMessagesLeave(gate, v, inbox[1..], sender, m);
    }
  }
}
