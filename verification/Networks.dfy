/**
 * Networks: members with roles, and management gated by a role
 * (ts/linkself/src/network.ts, core/internal/network/service.go).
 */
module Networks {
  import opened Common
  import opened RoleDag

  type Did = string
  type NetworkId = string

  datatype Network = Network(id: NetworkId, suiteId: string, members: seq<Did>, memberRoles: map<Did, Role>)

  type Nets = map<NetworkId, Network>

  datatype Error = NetworkNotFound | NotMember | NoPermission | TargetNotMember | AlreadyMember

  /** The role hierarchy and the role that management requires. */
  datatype Gate = Gate(table: Table, adminRole: Role)

  datatype Op =
    | Create(suiteId: string, creator: Did, newId: NetworkId)
    | AddMember(id: NetworkId, requester: Did, member: Did, role: Role)
    | Leave(id: NetworkId, member: Did)
    | Kick(id: NetworkId, requester: Did, target: Did)
    | SetMemberRole(id: NetworkId, requester: Did, target: Did, role: Role)

  /** No entry reads as the empty role name. */
  function RoleOf(n: Network, did: Did): Role {
    if did in n.memberRoles then n.memberRoles[did] else ""
  }

  predicate IsAdmin(gate: Gate, n: Network, did: Did) {
    HasRole(gate.table, RoleOf(n, did), gate.adminRole)
  }

  function Check(gate: Gate, nets: Nets, id: NetworkId, requester: Did): Option<Error> {
    if id !in nets then Some(NetworkNotFound)
    else if !IsAdmin(gate, nets[id], requester) then Some(NoPermission)
    else None
  }

  function Added(n: Network, member: Did, role: Role): Network {
    n.(members := n.members + [member], memberRoles := n.memberRoles[member := role])
  }

  function Removed(nets: Nets, id: NetworkId, did: Did): Nets
    requires id in nets
  {
    var members := Without(nets[id].members, did);
    if members == [] then nets - {id}
    else nets[id := nets[id].(members := members, memberRoles := nets[id].memberRoles - {did})]
  }

  function Exec(gate: Gate, nets: Nets, op: Op): (Nets, Option<Error>) {
    match op
    case Create(suiteId, creator, newId) =>
      (nets[newId := Network(newId, suiteId, [creator], map[creator := gate.adminRole])], None)
    case AddMember(id, requester, member, role) =>
      var e := Check(gate, nets, id, requester);
      if e.Some? then (nets, e)
      else if member in nets[id].members then (nets, Some(AlreadyMember))
      else (nets[id := Added(nets[id], member, role)], None)
    case Leave(id, member) =>
      if id !in nets then (nets, Some(NetworkNotFound))
      else if member !in nets[id].members then (nets, Some(NotMember))
      else (Removed(nets, id, member), None)
    case Kick(id, requester, target) =>
      var e := Check(gate, nets, id, requester);
      if e.Some? then (nets, e)
      else if target !in nets[id].members then (nets, Some(TargetNotMember))
      else (Removed(nets, id, target), None)
    case SetMemberRole(id, requester, target, role) =>
      var e := Check(gate, nets, id, requester);
      if e.Some? then (nets, e)
      else if target !in nets[id].members then (nets, Some(TargetNotMember))
      else (nets[id := nets[id].(memberRoles := nets[id].memberRoles[target := role])], None)
  }

  function Run(gate: Gate, nets: Nets, ops: seq<Op>): Nets
    decreases |ops|
  {
    if ops == [] then nets else Run(gate, Exec(gate, nets, ops[0]).0, ops[1..])
  }

  // ---------------------------------------------------------------------------------------
  // Authority over whole runs
  // ---------------------------------------------------------------------------------------

  /** Members are distinct and not none, and exactly the members have a role entry. */
  ghost predicate GoodNetwork(n: Network) {
    && n.members != []
    && Distinct(n.members)
    && forall d :: d in n.memberRoles <==> d in n.members
  }

  ghost predicate Good(nets: Nets) {
    forall id :: id in nets ==> nets[id].id == id && GoodNetwork(nets[id])
  }

  lemma RemovedIsGood(nets: Nets, id: NetworkId, did: Did)
    requires Good(nets) && id in nets
    ensures Good(Removed(nets, id, did))
    ensures id in Removed(nets, id, did) ==>
              var n, m := nets[id], Removed(nets, id, did)[id];
              && (forall d :: d in m.members <==> d in n.members && d != did)
              && (forall d :: d in m.members ==> m.memberRoles[d] == n.memberRoles[d])
  {
    WithoutKeeps(nets[id].members, did);
  }

  /** Every operation keeps networks good, and a failing one changes nothing. */
  lemma ExecIsGood(gate: Gate, nets: Nets, op: Op)
    requires Good(nets)
    ensures Good(Exec(gate, nets, op).0)
    ensures Exec(gate, nets, op).1.Some? ==> Exec(gate, nets, op).0 == nets
  {
    match op
    case Create(_, _, _) =>
    case AddMember(_, _, _, _) =>
    case Leave(id, member) =>
      if id in nets {
        RemovedIsGood(nets, id, member);
      }
    case Kick(id, _, target) =>
      if id in nets {
        RemovedIsGood(nets, id, target);
      }
    case SetMemberRole(_, _, _, _) =>
  }

  lemma {:induction false} RunIsGood(gate: Gate, nets: Nets, ops: seq<Op>)
    requires Good(nets)
    ensures Good(Run(gate, nets, ops))
    decreases |ops|
  {
    if ops != [] {
      ExecIsGood(gate, nets, ops[0]);
      RunIsGood(gate, Exec(gate, nets, ops[0]).0, ops[1..]);
    }
  }

  /** A run executes its calls one after the other. */
  lemma {:induction false} RunAppend(gate: Gate, nets: Nets, ops: seq<Op>, op: Op)
    ensures Run(gate, nets, ops + [op]) == Exec(gate, Run(gate, nets, ops), op).0
    decreases |ops|
  {
    if ops == [] {
      assert ops + [op] == [op] && [op][1..] == [];
    } else {
      assert (ops + [op])[0] == ops[0] && (ops + [op])[1..] == ops[1..] + [op];
      RunAppend(gate, Exec(gate, nets, ops[0]).0, ops[1..], op);
    }
  }

  /** Nobody satisfies the admin role by having no role. */
  predicate Closed(gate: Gate) {
    !HasRole(gate.table, "", gate.adminRole)
  }

  /**
   * Outsiders have no authority exactly when the empty role does not satisfy the admin role:
   * the admin role is neither "members" nor empty, and no role named "" includes it.
   */
  lemma OutsidersPowerlessIff(gate: Gate)
    ensures (forall n, d :: GoodNetwork(n) && d !in n.members ==> !IsAdmin(gate, n, d)) <==> Closed(gate)
  {
    if !Closed(gate) {
      var n := Network("n", "s", ["a"], map["a" := ""]);
      assert GoodNetwork(n) && "b" !in n.members && IsAdmin(gate, n, "b");
    }
  }

  ghost predicate OnlyMember(n: Network, did: Did) {
    did in n.members && forall d :: d in n.members ==> d == did
  }

  /**
   * Every change is authorised: a member is added, kicked, or given another role only by someone
   * whose role reaches the admin role beforehand, and with a closed gate that someone is a member.
   */
  lemma ChangesAreAuthorised(gate: Gate, nets: Nets, op: Op, did: Did)
    requires Good(nets) && !op.Create? && op.id in nets
    ensures var after, n := Exec(gate, nets, op).0, nets[op.id];
            && (Exec(gate, nets, op).1.None? && !op.Leave? ==>
                  IsAdmin(gate, n, op.requester) && (Closed(gate) ==> op.requester in n.members))
            && (op.id !in after ==>
                  exists m :: OnlyMember(n, m) && (op == Leave(op.id, m) || (op.Kick? && op.target == m)))
            && (op.id in after ==> var m := after[op.id];
                  && (did in n.members && did !in m.members ==>
                        op == Leave(op.id, did) || (op.Kick? && op.target == did))
                  && (did !in n.members && did in m.members ==>
                        op.AddMember? && op.member == did && RoleOf(m, did) == op.role)
                  && (did in n.members && did in m.members && RoleOf(m, did) != RoleOf(n, did) ==>
                        op.SetMemberRole? && op.target == did && RoleOf(m, did) == op.role))
  {
    var n := nets[op.id];
    match op
    case Leave(id, member) =>
      RemovedIsGood(nets, id, member);
      WithoutKeeps(n.members, member);
      assert id !in Exec(gate, nets, op).0 ==> OnlyMember(n, member);
    case Kick(id, _, target) =>
      RemovedIsGood(nets, id, target);
      WithoutKeeps(n.members, target);
      assert id !in Exec(gate, nets, op).0 ==> OnlyMember(n, target);
    case AddMember(_, _, _, _) =>
    case SetMemberRole(_, _, _, _) =>
  }

  /** No member's role reaches the admin role. */
  ghost predicate Leaderless(gate: Gate, n: Network) {
    forall d :: d in n.members ==> !IsAdmin(gate, n, d)
  }

  /** `m` is `n` with some members gone and nobody's role different. */
  ghost predicate Shrunk(n: Network, m: Network) {
    && m.suiteId == n.suiteId
    && forall d :: d in m.members ==> d in n.members && RoleOf(m, d) == RoleOf(n, d)
  }

  lemma LeaderlessStep(gate: Gate, nets: Nets, op: Op, id: NetworkId)
    requires Good(nets) && Closed(gate) && id in nets && Leaderless(gate, nets[id])
    requires op.Create? ==> op.newId != id
    ensures var after := Exec(gate, nets, op).0;
            id in after ==> Leaderless(gate, after[id]) && Shrunk(nets[id], after[id])
  {
    var n := nets[id];
    forall d
      ensures !IsAdmin(gate, n, d)
    {
      assert d in n.members || RoleOf(n, d) == "";
    }
    match op
    case Leave(i, member) =>
      if i == id && member in n.members {
        RemovedIsGood(nets, id, member);
      }
    case Create(_, _, _) =>
    case AddMember(_, _, _, _) =>
    case Kick(_, _, _) =>
    case SetMemberRole(_, _, _, _) =>
  }

  /** A network without an admin can, over any run behind a closed gate, only lose members. */
  lemma {:induction false} LeaderlessOnlyShrinks(gate: Gate, nets: Nets, ops: seq<Op>, id: NetworkId)
    requires Good(nets) && Closed(gate) && id in nets && Leaderless(gate, nets[id])
    requires forall op :: op in ops && op.Create? ==> op.newId != id
    ensures id in Run(gate, nets, ops) ==>
              Leaderless(gate, Run(gate, nets, ops)[id]) && Shrunk(nets[id], Run(gate, nets, ops)[id])
    decreases |ops|
  {
    if ops != [] {
      ExecIsGood(gate, nets, ops[0]);
      LeaderlessStep(gate, nets, ops[0], id);
      var next := Exec(gate, nets, ops[0]).0;
      if id in next {
        LeaderlessOnlyShrinks(gate, next, ops[1..], id);
      } else {
        StaysGone(gate, next, ops[1..], id);
      }
    }
  }

  lemma {:induction false} StaysGone(gate: Gate, nets: Nets, ops: seq<Op>, id: NetworkId)
    requires id !in nets && forall op :: op in ops && op.Create? ==> op.newId != id
    ensures id !in Run(gate, nets, ops)
    decreases |ops|
  {
    if ops != [] {
      StaysGone(gate, Exec(gate, nets, ops[0]).0, ops[1..], id);
    }
  }

  // ---------------------------------------------------------------------------------------
  // What each call does
  // ---------------------------------------------------------------------------------------

  /** A new network's creator is its only member, and an admin, whatever the hierarchy. */
  lemma CreatorIsAdmin(gate: Gate, nets: Nets, suiteId: string, creator: Did, newId: NetworkId)
    ensures var (after, error) := Exec(gate, nets, Create(suiteId, creator, newId));
            && error == None && newId in after
            && after[newId].id == newId && after[newId].suiteId == suiteId && after[newId].members == [creator]
            && after[newId].memberRoles.Keys == {creator}
            && IsAdmin(gate, after[newId], creator) && RoleOf(after[newId], creator) == gate.adminRole
            && forall id :: id != newId ==> (id in after <==> id in nets) && (id in after ==> after[id] == nets[id])
  {
  }

  /** The members after an operation, in order; none when the network is gone with its last one. */
  function Remaining(n: Network, op: Op): seq<Did> {
    match op
    case AddMember(_, _, member, _) => n.members + [member]
    case Leave(_, member) => Without(n.members, member)
    case Kick(_, _, target) => Without(n.members, target)
    case _ => n.members
  }

  /** The role the operation gives out, if any, and to whom. */
  predicate Gives(op: Op, did: Did, role: Role) {
    (op.AddMember? && op.member == did && op.role == role) || (op.SetMemberRole? && op.target == did && op.role == role)
  }

  /**
   * What a success does: the network is deleted exactly if its only member was removed; otherwise
   * exactly the members asked for are there, the role given out is held, nobody else's role changed,
   * and no other network either.
   */
  lemma SuccessMeans(gate: Gate, nets: Nets, op: Op)
    requires Good(nets) && !op.Create? && Exec(gate, nets, op).1.None?
    ensures op.id in nets
    ensures var n, after := nets[op.id], Exec(gate, nets, op).0;
            && (op.id !in after <==> (op.Leave? || op.Kick?) && |n.members| == 1)
            && (op.id in after ==>
                  var m := after[op.id];
                  && m.id == op.id && m.suiteId == n.suiteId && m.members == Remaining(n, op)
                  && (forall d, r :: Gives(op, d, r) ==> RoleOf(m, d) == r)
                  && (forall d :: d in m.members && !(exists r :: Gives(op, d, r)) ==> RoleOf(m, d) == RoleOf(n, d))
                  && (forall d :: d in m.memberRoles <==> d in m.members))
            && (forall id :: id != op.id ==> (id in after <==> id in nets) && (id in after ==> after[id] == nets[id]))
  {
    ExecIsGood(gate, nets, op);
    var n := nets[op.id];
    match op
    case Leave(_, member) =>
      WithoutLength(n.members, member);
      WithoutKeeps(n.members, member);
    case Kick(_, _, target) =>
      WithoutLength(n.members, target);
      WithoutKeeps(n.members, target);
    case AddMember(_, _, member, role) =>
      assert Gives(op, member, role);
    case SetMemberRole(_, _, target, role) =>
      assert Gives(op, target, role);
  }

  /** Which objection a call meets, in order. */
  lemma ObjectionIff(gate: Gate, nets: Nets, op: Op)
    requires !op.Create?
    ensures var error := Exec(gate, nets, op).1;
            && (error == Some(NetworkNotFound) <==> op.id !in nets)
            && (op.id in nets ==>
                  var n := nets[op.id]; var barred := !op.Leave? && !IsAdmin(gate, n, op.requester);
                  && (error == Some(NoPermission) <==> barred)
                  && (error == Some(NotMember) <==> op.Leave? && op.member !in n.members)
                  && (error == Some(AlreadyMember) <==> op.AddMember? && !barred && op.member in n.members)
                  && (error == Some(TargetNotMember) <==>
                        (op.Kick? || op.SetMemberRole?) && !barred && op.target !in n.members))
  {
  }

  // ---------------------------------------------------------------------------------------
  // Operations that overlap
  // ---------------------------------------------------------------------------------------

  /** What an operation, having fetched its copy and passed its checks, will write back. */
  datatype Change = Replace(n: Network) | Delete

  function Dropped(n: Network, did: Did): Change {
    var members := Without(n.members, did);
    if members == [] then Delete else Replace(n.(members := members, memberRoles := n.memberRoles - {did}))
  }

  function Plan(gate: Gate, nets: Nets, op: Op): Result<Change, Error>
    requires !op.Create?
  {
    match op
    case AddMember(id, requester, member, role) =>
      var e := Check(gate, nets, id, requester);
      if e.Some? then Err(e.value)
      else if id !in nets then Err(NetworkNotFound)
      else if member in nets[id].members then Err(AlreadyMember)
      else Ok(Replace(Added(nets[id], member, role)))
    case Leave(id, member) =>
      if id !in nets then Err(NetworkNotFound)
      else if member !in nets[id].members then Err(NotMember)
      else Ok(Dropped(nets[id], member))
    case Kick(id, requester, target) =>
      var e := Check(gate, nets, id, requester);
      if e.Some? then Err(e.value)
      else if id !in nets then Err(NetworkNotFound)
      else if target !in nets[id].members then Err(TargetNotMember)
      else Ok(Dropped(nets[id], target))
    case SetMemberRole(id, requester, target, role) =>
      var e := Check(gate, nets, id, requester);
      if e.Some? then Err(e.value)
      else if id !in nets then Err(NetworkNotFound)
      else if target !in nets[id].members then Err(TargetNotMember)
      else Ok(Replace(nets[id].(memberRoles := nets[id].memberRoles[target := role])))
  }

  /** Writing back: an update of a network that is gone fails, a deletion does not. */
  function Commit(nets: Nets, id: NetworkId, c: Change): (Nets, Option<Error>) {
    match c
    case Replace(n) => if id in nets then (nets[id := n.(id := id)], None) else (nets, Some(NetworkNotFound))
    case Delete => (nets - {id}, None)
  }

  /** With nothing in between, planning and committing is the operation. */
  lemma PlanThenCommitIsExec(gate: Gate, nets: Nets, op: Op)
    requires !op.Create? && forall id :: id in nets ==> nets[id].id == id
    ensures Exec(gate, nets, op) ==
            match Plan(gate, nets, op)
            case Err(e) => (nets, Some(e))
            case Ok(c) => Commit(nets, op.id, c)
  {
  }

  predicate Removes(op: Op, did: Did) {
    (op.Leave? && op.member == did) || (op.Kick? && op.target == did)
  }

  /** What a plan makes of a member of the network it was made for. */
  lemma PlanKeepsIff(gate: Gate, nets: Nets, op: Op, did: Did)
    requires Good(nets) && !op.Create? && Plan(gate, nets, op).Ok? && did in nets[op.id].members
    ensures var c := Plan(gate, nets, op).value;
            && (c.Replace? && did in c.n.members <==> !Removes(op, did))
            && (!Removes(op, did) ==>
                  RoleOf(c.n, did) ==
                  if op.SetMemberRole? && op.target == did then op.role else RoleOf(nets[op.id], did))
  {
    if op.Leave? {
      WithoutKeeps(nets[op.id].members, op.member);
    } else if op.Kick? {
      WithoutKeeps(nets[op.id].members, op.target);
    }
  }

  /**
   * When a removed member comes back: an operation that fetched its copy before some member left or
   * was kicked, and commits it afterwards, makes that member one again, with its former role or the
   * one the operation gives it, if and only if the network is still stored and the operation does
   * not itself remove the member.
   */
  lemma RemovedComesBackIff(gate: Gate, nets: Nets, removal: Op, op: Op, did: Did)
    requires Good(nets) && !removal.Create? && Removes(removal, did) && Exec(gate, nets, removal).1.None?
    requires !op.Create? && op.id == removal.id && Plan(gate, nets, op).Ok?
    ensures var between := Exec(gate, nets, removal).0;
            var after := Commit(between, op.id, Plan(gate, nets, op).value).0;
            && (op.id in between ==> did !in between[op.id].members)
            && (op.id in after && did in after[op.id].members <==> op.id in between && !Removes(op, did))
            && (op.id in after && did in after[op.id].members ==>
                  RoleOf(after[op.id], did) ==
                  if op.SetMemberRole? && op.target == did then op.role else RoleOf(nets[op.id], did))
  {
    RemovedIsGood(nets, op.id, did);
    PlanKeepsIff(gate, nets, op, did);
  }

  /** And the other way round: a member added meanwhile is lost again unless the operation adds the same one. */
  lemma AddedIsLostIff(gate: Gate, nets: Nets, addition: Op, op: Op)
    requires Good(nets) && addition.AddMember? && Exec(gate, nets, addition).1.None?
    requires !op.Create? && op.id == addition.id && Plan(gate, nets, op).Ok?
    ensures var between := Exec(gate, nets, addition).0;
            var after := Commit(between, op.id, Plan(gate, nets, op).value).0;
            op.id in after && addition.member in after[op.id].members <==>
            op.AddMember? && op.member == addition.member
  {
    if op.Leave? {
      WithoutKeeps(nets[op.id].members, op.member);
    } else if op.Kick? {
      WithoutKeeps(nets[op.id].members, op.target);
    }
  }

  // ---------------------------------------------------------------------------------------
  // Store and service
  // ---------------------------------------------------------------------------------------

  class MemNetworkStore {
    var networks: Nets

    constructor ()
      ensures networks == map[]
    {
      networks := map[];
    }

    /** `id` is the generated identifier, not handed out before. */
    method CreateNetwork(n: Network, id: NetworkId)
      requires id !in networks
      modifies this
      ensures networks == old(networks)[id := n.(id := id)]
    {
      networks := networks[id := n.(id := id)];
    }

    method GetNetwork(id: NetworkId) returns (n: Option<Network>)
      ensures n == if id in networks then Some(networks[id]) else None
    {
      n := if id in networks then Some(networks[id]) else None;
    }

    method UpdateNetwork(id: NetworkId, n: Network) returns (ok: bool)
      modifies this
      ensures ok == (id in old(networks))
      ensures networks == if ok then old(networks)[id := n.(id := id)] else old(networks)
    {
      if id !in networks {
        return false;
      }
      networks := networks[id := n.(id := id)];
      ok := true;
    }

    method DeleteNetwork(id: NetworkId)
      modifies this
      ensures networks == old(networks) - {id}
    {
      networks := networks - {id};
    }

    method PutNetwork(n: Network)
      modifies this
      ensures networks == old(networks)[n.id := n]
    {
      networks := networks[n.id := n];
    }
  }

  class NetworkService {
    const store: MemNetworkStore
    const gate: Gate

    /** Networks are stored under their own identifier. */
    ghost predicate Valid()
      reads this, store
    {
      forall id :: id in store.networks ==> store.networks[id].id == id
    }

    constructor (store: MemNetworkStore, gate: Gate)
      ensures this.store == store && this.gate == gate
    {
      this.store, this.gate := store, gate;
    }

    method Create(suiteId: string, creator: Did, id: NetworkId)
      requires Valid() && id !in store.networks
      modifies store
      ensures Valid()
      ensures store.networks == Exec(gate, old(store.networks), Op.Create(suiteId, creator, id)).0
    {
      store.CreateNetwork(Network("", suiteId, [creator], map[creator := gate.adminRole]), id);
    }

    method AddMember(id: NetworkId, requester: Did, member: Did, role: Role) returns (error: Option<Error>)
      requires Valid()
      modifies store
      ensures Valid()
      ensures (store.networks, error) == Exec(gate, old(store.networks), Op.AddMember(id, requester, member, role))
    {
      var n, e := GetAndCheck(id, requester);
      if e.Some? {
        return e;
      }
      if member in n.members {
        return Some(AlreadyMember);
      }
      n := n.(members := n.members + [member]);
      n := n.(memberRoles := n.memberRoles[member := role]);
      var _ := store.UpdateNetwork(id, n);
      error := None;
    }

    method Leave(id: NetworkId, member: Did) returns (error: Option<Error>)
      requires Valid()
      modifies store
      ensures Valid()
      ensures (store.networks, error) == Exec(gate, old(store.networks), Op.Leave(id, member))
    {
      var n := store.GetNetwork(id);
      if n.None? {
        return Some(NetworkNotFound);
      }
      if member !in n.value.members {
        return Some(NotMember);
      }
      Remove(n.value, member);
      error := None;
    }

    method Kick(id: NetworkId, requester: Did, target: Did) returns (error: Option<Error>)
      requires Valid()
      modifies store
      ensures Valid()
      ensures (store.networks, error) == Exec(gate, old(store.networks), Op.Kick(id, requester, target))
    {
      var n, e := GetAndCheck(id, requester);
      if e.Some? {
        return e;
      }
      if target !in n.members {
        return Some(TargetNotMember);
      }
      Remove(n, target);
      error := None;
    }

    method SetMemberRole(id: NetworkId, requester: Did, target: Did, role: Role) returns (error: Option<Error>)
      requires Valid()
      modifies store
      ensures Valid()
      ensures (store.networks, error) == Exec(gate, old(store.networks), Op.SetMemberRole(id, requester, target, role))
    {
      var n, e := GetAndCheck(id, requester);
      if e.Some? {
        return e;
      }
      if target !in n.members {
        return Some(TargetNotMember);
      }
      n := n.(memberRoles := n.memberRoles[target := role]);
      var _ := store.UpdateNetwork(id, n);
      error := None;
    }

    /** The fetched network, or why there is none; the network is arbitrary on error. */
    method GetAndCheck(id: NetworkId, requester: Did) returns (n: Network, error: Option<Error>)
      ensures error == Check(gate, store.networks, id, requester)
      ensures error.None? ==> n == store.networks[id]
    {
      var found := store.GetNetwork(id);
      if found.None? {
        return Network("", "", [], map[]), Some(NetworkNotFound);
      }
      n := found.value;
      error := if HasRole(gate.table, RoleOf(n, requester), gate.adminRole) then None else Some(NoPermission);
    }

    /** What leaving and kicking share: a network without members is deleted. */
    method Remove(n: Network, did: Did)
      requires Valid() && n.id in store.networks && store.networks[n.id] == n
      modifies store
      ensures Valid()
      ensures store.networks == Removed(old(store.networks), n.id, did)
    {
      var members := Without(n.members, did);
      if |members| == 0 {
        store.DeleteNetwork(n.id);
        return;
      }
      var _ := store.UpdateNetwork(n.id, n.(members := members, memberRoles := n.memberRoles - {did}));
    }
  }
}
