/**
 * The ownership rules of a group (core/internal/group/group.go, ts/linkself/src/group.ts).
 */
module GroupService {
  import opened Common
  import opened GroupStore

  datatype Error = GroupNotFound | TooFewMembers | NotMember | NotOwner | CannotDemoteOtherOwner
                 | TargetNotMember | NoOwner | AlreadyMember

  datatype Op =
    | Create(members: seq<Did>, owners: seq<Did>, newId: GroupId)
    | Leave(id: GroupId, member: Did)
    | Kick(id: GroupId, actor: Did, target: Did)
    | AppointOwner(id: GroupId, actor: Did, target: Did)
    | SelfDemote(id: GroupId, actor: Did)
    | DemoteOwner(id: GroupId, actor: Did, target: Did)
    | AddMember(id: GroupId, newMember: Did)

  /** The first member that is not the excluded one, as a one-element list; empty if there is none. */
  function AutoPromote(members: seq<Did>, exclude: Did): seq<Did> {
    if members == [] then []
    else if members[0] != exclude then [members[0]]
    else AutoPromote(members[1..], exclude)
  }

  /** Removal by leaving or kicking: dissolve below two members, and never leave the rest without an owner. */
  function Remove(groups: Groups, id: GroupId, did: Did): Groups
    requires id in groups
  {
    var members, owners := Without(groups[id].members, did), Without(groups[id].owners, did);
    if |members| < 2 then groups - {id}
    else groups[id := Group(id, members, if owners == [] then AutoPromote(members, "") else owners)]
  }

  function Demote(groups: Groups, id: GroupId, actor: Did): Groups
    requires id in groups
  {
    var g := groups[id];
    var owners := Without(g.owners, actor);
    groups[id := Group(id, g.members, if owners == [] then AutoPromote(g.members, actor) else owners)]
  }

  function Exec(groups: Groups, op: Op): (Groups, Option<Error>) {
    if op.Create? then
      if |op.members| < 2 then (groups, Some(TooFewMembers))
      else (groups[op.newId := Group(op.newId, op.members, op.owners)], None)
    else if op.id !in groups then (groups, Some(GroupNotFound))
    else
      var g := groups[op.id];
      match op
      case Leave(id, member) =>
        if member !in g.members then (groups, Some(NotMember)) else (Remove(groups, id, member), None)
      case Kick(id, actor, target) =>
        if actor !in g.owners then (groups, Some(NotOwner))
        else if target !in g.members then (groups, Some(TargetNotMember))
        else (Remove(groups, id, target), None)
      case AppointOwner(id, actor, target) =>
        if actor !in g.owners then (groups, Some(NotOwner))
        else if target !in g.members then (groups, Some(TargetNotMember))
        else if target in g.owners then (groups, None)
        else (groups[id := Group(id, g.members, g.owners + [target])], None)
      case SelfDemote(id, actor) =>
        if actor !in g.owners then (groups, Some(NotOwner)) else (Demote(groups, id, actor), None)
      case DemoteOwner(id, actor, target) =>
        if actor !in g.owners then (groups, Some(NotOwner))
        else if actor == target then (Demote(groups, id, actor), None)
        else if target in g.owners then (groups, Some(CannotDemoteOtherOwner))
        else (groups, None)
      case AddMember(id, newMember) =>
        if g.owners == [] then (groups, Some(NoOwner))
        else if newMember in g.members then (groups, Some(AlreadyMember))
        else (groups[id := Group(id, g.members + [newMember], g.owners)], None)
  }

  // ---------------------------------------------------------------------------------------
  // Ownership over whole runs
  // ---------------------------------------------------------------------------------------

  ghost predicate OwnersAreMembers(g: Group) {
    forall d :: d in g.owners ==> d in g.members
  }

  ghost predicate GoodGroup(g: Group) {
    |g.members| >= 2 && Distinct(g.members) && OwnersAreMembers(g)
  }

  ghost predicate Good(groups: Groups) {
    forall id :: id in groups ==> groups[id].id == id && GoodGroup(groups[id])
  }

  lemma {:induction false} AutoPromoteFinds(members: seq<Did>, exclude: Did)
    ensures forall d :: d in AutoPromote(members, exclude) ==>
              d in members && d != exclude && AutoPromote(members, exclude) == [d]
    ensures AutoPromote(members, exclude) == [] <==> forall d :: d in members ==> d == exclude
  {
    if members != [] {
      AutoPromoteFinds(members[1..], exclude);
      assert members[0] in members && forall d :: d in members <==> d == members[0] || d in members[1..];
    }
  }

  /** Two distinct members always leave somebody to promote, whoever is excluded. */
  lemma SomebodyToPromote(members: seq<Did>, exclude: Did)
    requires |members| >= 2 && Distinct(members)
    ensures AutoPromote(members, exclude) != []
  {
    AutoPromoteFinds(members, exclude);
    assert members[0] in members && members[1] in members;
  }

  lemma RemoveIsGood(groups: Groups, id: GroupId, did: Did)
    requires Good(groups) && id in groups
    ensures Good(Remove(groups, id, did))
    ensures id in Remove(groups, id, did) ==> Remove(groups, id, did)[id].owners != []
  {
    var g := groups[id];
    WithoutKeeps(g.members, did);
    WithoutKeeps(g.owners, did);
    var members := Without(g.members, did);
    if |members| >= 2 {
      SomebodyToPromote(members, "");
      AutoPromoteFinds(members, "");
    }
  }

  lemma DemoteIsGood(groups: Groups, id: GroupId, actor: Did)
    requires Good(groups) && id in groups
    ensures Good(Demote(groups, id, actor)) && Demote(groups, id, actor)[id].owners != []
    ensures actor !in Demote(groups, id, actor)[id].owners
  {
    WithoutKeeps(groups[id].owners, actor);
    SomebodyToPromote(groups[id].members, actor);
    AutoPromoteFinds(groups[id].members, actor);
  }

  /** The service checks only the number of members it is given; the rest is up to its caller. */
  ghost predicate ProperCreate(op: Op) {
    op.Create? ==> |op.members| < 2 || GoodGroup(Group(op.newId, op.members, op.owners))
  }

  /** Creation yields a good store exactly when its members are distinct and its owners are among them. */
  lemma CreateIsGoodIff(groups: Groups, op: Op)
    requires Good(groups) && op.Create?
    ensures Good(Exec(groups, op).0) <==> ProperCreate(op)
  {
    if |op.members| >= 2 {
      assert Exec(groups, op).0[op.newId] == Group(op.newId, op.members, op.owners);
    }
  }

  ghost predicate Owned(groups: Groups, id: GroupId) {
    id in groups && groups[id].owners != []
  }

  /**
   * Every operation keeps members distinct and at least two and owners among them, touches no
   * other group, and changes nothing when it fails; an owned group it does not dissolve stays
   * owned, and a group it removed somebody from is owned afterwards even if it was not before.
   */
  lemma ExecIsGood(groups: Groups, op: Op)
    requires Good(groups) && ProperCreate(op)
    ensures var (after, error) := Exec(groups, op);
            && Good(after)
            && (error.Some? ==> after == groups)
            && (forall id :: id != (if op.Create? then op.newId else op.id) ==>
                  (id in after <==> id in groups) && (id in after ==> after[id] == groups[id]))
            && (!op.Create? && Owned(groups, op.id) ==> op.id !in after || Owned(after, op.id))
            && (error.None? && (op.Leave? || op.Kick?) ==> op.id !in after || Owned(after, op.id))
  {
    if !op.Create? && op.id in groups {
      match op
      case Leave(id, member) => RemoveIsGood(groups, id, member);
      case Kick(id, _, target) => RemoveIsGood(groups, id, target);
      case SelfDemote(id, actor) => DemoteIsGood(groups, id, actor);
      case DemoteOwner(id, actor, _) => DemoteIsGood(groups, id, actor);
      case AppointOwner(_, _, _) =>
      case AddMember(_, _) =>
    }
  }

  function Run(groups: Groups, ops: seq<Op>): Groups
    decreases |ops|
  {
    if ops == [] then groups else Run(Exec(groups, ops[0]).0, ops[1..])
  }

  /**
   * Over whole runs: the store stays good, and a group that has an owner has one at every later
   * point, unless it has been dissolved; its identifier is not created again.
   */
  lemma {:induction false} OwnedUntilDissolved(groups: Groups, ops: seq<Op>, id: GroupId)
    requires Good(groups) && (forall op :: op in ops ==> ProperCreate(op))
    ensures Good(Run(groups, ops))
    ensures Owned(groups, id) && (forall op :: op in ops && op.Create? ==> op.newId != id) ==>
              id !in Run(groups, ops) || Owned(Run(groups, ops), id)
    decreases |ops|
  {
    if ops != [] {
      ExecIsGood(groups, ops[0]);
      var next := Exec(groups, ops[0]).0;
      OwnedUntilDissolved(next, ops[1..], id);
      if id !in next && forall op :: op in ops && op.Create? ==> op.newId != id {
        StaysDissolved(next, ops[1..], id);
      }
    }
  }

  /** A run executes its calls one after the other. */
  lemma {:induction false} RunAppend(groups: Groups, ops: seq<Op>, op: Op)
    ensures Run(groups, ops + [op]) == Exec(Run(groups, ops), op).0
    decreases |ops|
  {
    if ops == [] {
      assert ops + [op] == [op] && [op][1..] == [];
    } else {
      assert (ops + [op])[0] == ops[0] && (ops + [op])[1..] == ops[1..] + [op];
      RunAppend(Exec(groups, ops[0]).0, ops[1..], op);
    }
  }

  lemma {:induction false} StaysDissolved(groups: Groups, ops: seq<Op>, id: GroupId)
    requires id !in groups && forall op :: op in ops && op.Create? ==> op.newId != id
    ensures id !in Run(groups, ops)
    decreases |ops|
  {
    if ops != [] {
      StaysDissolved(Exec(groups, ops[0]).0, ops[1..], id);
    }
  }

  /** Removing somebody takes no one else's membership or ownership; one owner is promoted if none is left. */
  lemma RemoveTouchesOnly(groups: Groups, id: GroupId, target: Did, did: Did)
    requires id in groups && id in Remove(groups, id, target)
    ensures var g, h := groups[id], Remove(groups, id, target)[id];
            && (did in h.members <==> did in g.members && did != target)
            && (did in g.owners && did != target ==> did in h.owners)
            && (did !in g.owners && did in h.owners ==> Promoted(g, h, did))
  {
    WithoutKeeps(groups[id].members, target);
    WithoutKeeps(groups[id].owners, target);
    AutoPromoteFinds(Without(groups[id].members, target), "");
  }

  lemma DemoteTouchesOnly(groups: Groups, id: GroupId, actor: Did, did: Did)
    requires id in groups
    ensures var g, h := groups[id], Demote(groups, id, actor)[id];
            && h.members == g.members
            && (did in g.owners && did != actor ==> did in h.owners)
            && (did !in g.owners && did in h.owners ==> Promoted(g, h, did))
  {
    WithoutKeeps(groups[id].owners, actor);
    AutoPromoteFinds(groups[id].members, actor);
  }

  /** `did` has become the only owner, and no former owner is one any more. */
  ghost predicate Promoted(before: Group, after: Group, did: Did) {
    after.owners == [did] && did !in before.owners
  }

  /**
   * Who may change what: a surviving group loses a member only to that member's own leaving or
   * to an owner's kick, and gains one only while it has an owner; somebody's ownership ends only
   * by that person's own act or removal, and starts only by an owner's appointment or by promotion
   * when no owner is left.
   */
  lemma ChangesAreAuthorised(groups: Groups, op: Op, did: Did)
    requires !op.Create? && op.id in groups && op.id in Exec(groups, op).0
    ensures var g, h := groups[op.id], Exec(groups, op).0[op.id];
            && (did in g.members && did !in h.members ==>
                  op == Leave(op.id, did) || (op.Kick? && op.target == did && op.actor in g.owners))
            && (did !in g.members && did in h.members ==> op == AddMember(op.id, did) && g.owners != [])
            && (did in g.owners && did !in h.owners ==>
                  || op == Leave(op.id, did)
                  || (op.Kick? && op.target == did && op.actor in g.owners)
                  || op == SelfDemote(op.id, did)
                  || (op.DemoteOwner? && op.actor == op.target == did))
            && (did !in g.owners && did in h.owners ==>
                  || (op.AppointOwner? && op.target == did && op.actor in g.owners)
                  || Promoted(g, h, did))
  {
    var g := groups[op.id];
    match op
    case Leave(id, member) =>
      if member in g.members {
        RemoveTouchesOnly(groups, id, member, did);
      }
    case Kick(id, actor, target) =>
      if actor in g.owners && target in g.members {
        RemoveTouchesOnly(groups, id, target, did);
      }
    case SelfDemote(id, actor) =>
      DemoteTouchesOnly(groups, id, actor, did);
    case DemoteOwner(id, actor, _) =>
      DemoteTouchesOnly(groups, id, actor, did);
    case AppointOwner(_, _, _) =>
    case AddMember(_, _) =>
  }

  // ---------------------------------------------------------------------------------------
  // What each call does
  // ---------------------------------------------------------------------------------------

  /** The promoted member is the first one that is not excluded. */
  lemma {:induction false} AutoPromoteIsFirst(members: seq<Did>, exclude: Did)
    ensures AutoPromote(members, exclude) ==
            if Without(members, exclude) == [] then [] else [Without(members, exclude)[0]]
  {
    if members != [] {
      AutoPromoteIsFirst(members[1..], exclude);
    }
  }

  /**
   * What leaving and kicking do to a good group: it is dissolved exactly if it had two members;
   * otherwise the others stay in their order, with the other owners if there are any, and else with
   * the first remaining member (of a non-empty name) as the only owner.
   */
  lemma RemovalMeans(groups: Groups, op: Op)
    requires Good(groups) && (op.Leave? || op.Kick?) && op.id in groups && Exec(groups, op).1.None?
    ensures var g, after := groups[op.id], Exec(groups, op).0; var did := if op.Leave? then op.member else op.target;
            && (op.id !in after <==> |g.members| == 2)
            && (op.id in after ==>
                  var h, rest, others := after[op.id], Without(g.members, did), Without(g.owners, did);
                  && h.members == rest && |rest| == |g.members| - 1
                  && (others != [] ==> h.owners == others)
                  && (others == [] ==> Without(rest, "") != [] && h.owners == [Without(rest, "")[0]]))
  {
    var g, did := groups[op.id], if op.Leave? then op.member else op.target;
    var rest := Without(g.members, did);
    WithoutLength(g.members, did);
    WithoutKeeps(g.members, did);
    AutoPromoteIsFirst(rest, "");
    if |rest| >= 2 {
      SomebodyToPromote(rest, "");
    }
  }

  /** Giving up ownership leaves the members, and the other owners or else the first other member as the only owner. */
  lemma DemotionMeans(groups: Groups, op: Op)
    requires Good(groups) && (op.SelfDemote? || (op.DemoteOwner? && op.actor == op.target))
    requires op.id in groups && Exec(groups, op).1.None?
    ensures var g, after := groups[op.id], Exec(groups, op).0; var others := Without(g.owners, op.actor);
            && op.id in after && after[op.id].members == g.members
            && (others != [] ==> after[op.id].owners == others)
            && (others == [] ==> Without(g.members, op.actor) != []
                                 && after[op.id].owners == [Without(g.members, op.actor)[0]])
  {
    AutoPromoteIsFirst(groups[op.id].members, op.actor);
    SomebodyToPromote(groups[op.id].members, op.actor);
  }

  /** What the other calls do when they succeed: exactly the addition they are asked for, at the end. */
  lemma AdditionMeans(groups: Groups, op: Op)
    requires Exec(groups, op).1.None?
    ensures var after := Exec(groups, op).0;
            && (op.Create? ==> after == groups[op.newId := Group(op.newId, op.members, op.owners)])
            && (op.AddMember? ==>
                  op.id in groups &&
                  var g := groups[op.id];
                  after == groups[op.id := Group(op.id, g.members + [op.newMember], g.owners)])
            && (op.AppointOwner? ==>
                  op.id in groups &&
                  var g := groups[op.id];
                  after == if op.target in g.owners then groups
                           else groups[op.id := Group(op.id, g.members, g.owners + [op.target])])
            && (op.DemoteOwner? && op.actor != op.target ==> after == groups)
  {
  }

  /** Which objection a call meets, in order. */
  lemma ObjectionIff(groups: Groups, op: Op)
    ensures var error := Exec(groups, op).1;
            && (error == Some(TooFewMembers) <==> op.Create? && |op.members| < 2)
            && (error == Some(GroupNotFound) <==> !op.Create? && op.id !in groups)
    ensures !op.Create? && op.id in groups ==>
              var error, g := Exec(groups, op).1, groups[op.id];
              var actorMissing := (op.Kick? || op.AppointOwner? || op.SelfDemote? || op.DemoteOwner?)
                                  && op.actor !in g.owners;
              && (error == Some(NotMember) <==> op.Leave? && op.member !in g.members)
              && (error == Some(NotOwner) <==> actorMissing)
              && (error == Some(TargetNotMember) <==>
                    (op.Kick? || op.AppointOwner?) && !actorMissing && op.target !in g.members)
              && (error == Some(CannotDemoteOtherOwner) <==>
                    op.DemoteOwner? && !actorMissing && op.actor != op.target && op.target in g.owners)
              && (error == Some(NoOwner) <==> op.AddMember? && g.owners == [])
              && (error == Some(AlreadyMember) <==> op.AddMember? && g.owners != [] && op.newMember in g.members)
  {
  }

  // ---------------------------------------------------------------------------------------
  // The service over the indexed store
  // ---------------------------------------------------------------------------------------

  method FilterOut(slice: seq<Did>, x: Did) returns (out: seq<Did>)
    ensures out == Without(slice, x)
  {
    out := [];
    for i := 0 to |slice|
      invariant out == Without(slice[..i], x)
    {
      assert slice[..i + 1] == slice[..i] + [slice[i]];
      WithoutAppend(slice[..i], slice[i], x);
      if slice[i] != x {
        out := out + [slice[i]];
      }
    }
    assert slice[..|slice|] == slice;
  }

  method AutoPromoteOneExcluding(members: seq<Did>, exclude: Did) returns (out: seq<Did>)
    ensures out == AutoPromote(members, exclude)
  {
    for i := 0 to |members|
      invariant AutoPromote(members[i..], exclude) == AutoPromote(members, exclude)
    {
      if members[i] != exclude {
        return [members[i]];
      }
    }
    out := [];
  }

  class Service {
    const store: MemStore

    constructor (store: MemStore)
      ensures this.store == store
    {
      this.store := store;
    }

    method CreateGroup(members: seq<Did>, owners: seq<Did>, id: GroupId) returns (error: Option<Error>)
      requires store.Valid() && id !in store.byId
      modifies store
      ensures store.Valid()
      ensures (store.byId, error) == Exec(old(store.byId), Create(members, owners, id))
    {
      if |members| < 2 {
        return Some(TooFewMembers);
      }
      store.CreateGroup(members, owners, id);
      error := None;
    }

    /** What leaving and kicking share once the caller is cleared. */
    method RemoveMember(id: GroupId, g: Group, did: Did)
      requires store.Valid() && id in store.byId && store.byId[id] == g
      modifies store
      ensures store.Valid()
      ensures store.byId == Remove(old(store.byId), id, did)
    {
      var newMembers := FilterOut(g.members, did);
      var newOwners := FilterOut(g.owners, did);
      if |newMembers| < 2 {
        var _ := store.DeleteGroup(id);
        return;
      }
      if |newOwners| == 0 {
        newOwners := AutoPromoteOneExcluding(newMembers, "");
      }
      var _ := store.UpdateGroup(id, newMembers, newOwners);
    }

    method Leave(id: GroupId, member: Did) returns (error: Option<Error>)
      requires store.Valid()
      modifies store
      ensures store.Valid()
      ensures (store.byId, error) == Exec(old(store.byId), Op.Leave(id, member))
    {
      var g := store.GetGroup(id);
      if g.None? {
        return Some(GroupNotFound);
      }
      if member !in g.value.members {
        return Some(NotMember);
      }
      RemoveMember(id, g.value, member);
      error := None;
    }

    method Kick(id: GroupId, actor: Did, target: Did) returns (error: Option<Error>)
      requires store.Valid()
      modifies store
      ensures store.Valid()
      ensures (store.byId, error) == Exec(old(store.byId), Op.Kick(id, actor, target))
    {
      var g := store.GetGroup(id);
      if g.None? {
        return Some(GroupNotFound);
      }
      if actor !in g.value.owners {
        return Some(NotOwner);
      }
      if target !in g.value.members {
        return Some(TargetNotMember);
      }
      RemoveMember(id, g.value, target);
      error := None;
    }

    method AppointOwner(id: GroupId, actor: Did, target: Did) returns (error: Option<Error>)
      requires store.Valid()
      modifies store
      ensures store.Valid()
      ensures (store.byId, error) == Exec(old(store.byId), Op.AppointOwner(id, actor, target))
    {
      var g := store.GetGroup(id);
      if g.None? {
        return Some(GroupNotFound);
      }
      if actor !in g.value.owners {
        return Some(NotOwner);
      }
      if target !in g.value.members {
        return Some(TargetNotMember);
      }
      if target in g.value.owners {
        return None;
      }
      var _ := store.UpdateGroup(id, g.value.members, g.value.owners + [target]);
      error := None;
    }

    method SelfDemote(id: GroupId, actor: Did) returns (error: Option<Error>)
      requires store.Valid()
      modifies store
      ensures store.Valid()
      ensures (store.byId, error) == Exec(old(store.byId), Op.SelfDemote(id, actor))
    {
      var g := store.GetGroup(id);
      if g.None? {
        return Some(GroupNotFound);
      }
      if actor !in g.value.owners {
        return Some(NotOwner);
      }
      var newOwners := FilterOut(g.value.owners, actor);
      if |newOwners| == 0 {
        newOwners := AutoPromoteOneExcluding(g.value.members, actor);
      }
      var _ := store.UpdateGroup(id, g.value.members, newOwners);
      error := None;
    }

    method DemoteOwner(id: GroupId, actor: Did, target: Did) returns (error: Option<Error>)
      requires store.Valid()
      modifies store
      ensures store.Valid()
      ensures (store.byId, error) == Exec(old(store.byId), Op.DemoteOwner(id, actor, target))
    {
      var g := store.GetGroup(id);
      if g.None? {
        return Some(GroupNotFound);
      }
      if actor !in g.value.owners {
        return Some(NotOwner);
      }
      if actor == target {
        error := SelfDemote(id, actor);
        return;
      }
      if target in g.value.owners {
        return Some(CannotDemoteOtherOwner);
      }
      error := None;
    }

    method AddMember(id: GroupId, newMember: Did) returns (error: Option<Error>)
      requires store.Valid()
      modifies store
      ensures store.Valid()
      ensures (store.byId, error) == Exec(old(store.byId), Op.AddMember(id, newMember))
    {
      var g := store.GetGroup(id);
      if g.None? {
        return Some(GroupNotFound);
      }
      if |g.value.owners| == 0 {
        return Some(NoOwner);
      }
      if newMember in g.value.members {
        return Some(AlreadyMember);
      }
      var _ := store.UpdateGroup(id, g.value.members + [newMember], g.value.owners);
      error := None;
    }
  }
}
