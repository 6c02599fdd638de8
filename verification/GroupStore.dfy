/**
 * The group store with its inverted index from member to groups
 * (core/internal/group/memstore.go), against the store that scans
 * (ts/linkself/src/group.ts:191-226).
 */
module GroupStore {
  import opened Common

  type Did = string
  type GroupId = string

  datatype Group = Group(id: GroupId, members: seq<Did>, owners: seq<Did>)

  type Groups = map<GroupId, Group>
  type Index = map<Did, set<GroupId>>

  /** The scanning store's answer: every group that lists the member. */
  function Scan(groups: Groups, did: Did): set<GroupId> {
    set id | id in groups && did in groups[id].members
  }

  function Bucket(index: Index, did: Did): set<GroupId> {
    if did in index then index[did] else {}
  }

  ghost predicate NoEmptyBucket(index: Index) {
    forall d :: d in index ==> index[d] != {}
  }

  /** The index answers as a scan would, and keeps no empty bucket. */
  ghost predicate Agrees(groups: Groups, index: Index) {
    NoEmptyBucket(index) && forall d :: Bucket(index, d) == Scan(groups, d)
  }

  function Link(index: Index, did: Did, id: GroupId): Index {
    index[did := Bucket(index, did) + {id}]
  }

  function Unlink(index: Index, did: Did, id: GroupId): Index {
    if did !in index then index
    else if index[did] - {id} == {} then index - {did}
    else index[did := index[did] - {id}]
  }

  function LinkAll(index: Index, dids: seq<Did>, id: GroupId): Index
    decreases |dids|
  {
    if dids == [] then index else LinkAll(Link(index, dids[0], id), dids[1..], id)
  }

  function UnlinkAll(index: Index, dids: seq<Did>, id: GroupId): Index
    decreases |dids|
  {
    if dids == [] then index else UnlinkAll(Unlink(index, dids[0], id), dids[1..], id)
  }

  lemma {:induction false} LinkAllBuckets(index: Index, dids: seq<Did>, id: GroupId)
    ensures forall d :: Bucket(LinkAll(index, dids, id), d) == Bucket(index, d) + if d in dids then {id} else {}
    ensures NoEmptyBucket(index) ==> NoEmptyBucket(LinkAll(index, dids, id))
    decreases |dids|
  {
    if dids != [] {
      LinkAllBuckets(Link(index, dids[0], id), dids[1..], id);
    }
  }

  lemma {:induction false} UnlinkAllBuckets(index: Index, dids: seq<Did>, id: GroupId)
    ensures forall d :: Bucket(UnlinkAll(index, dids, id), d) == Bucket(index, d) - if d in dids then {id} else {}
    ensures NoEmptyBucket(index) ==> NoEmptyBucket(UnlinkAll(index, dids, id))
    decreases |dids|
  {
    if dids != [] {
      UnlinkAllBuckets(Unlink(index, dids[0], id), dids[1..], id);
    }
  }

  /** Creating keeps the index right exactly when the identifier is new or no former member is lost. */
  lemma CreateAgreesIff(groups: Groups, index: Index, g: Group)
    requires Agrees(groups, index)
    ensures Agrees(groups[g.id := g], LinkAll(index, g.members, g.id)) <==>
            (g.id in groups ==> forall d :: d in groups[g.id].members ==> d in g.members)
  {
    var after := groups[g.id := g];
    LinkAllBuckets(index, g.members, g.id);
    forall d
      ensures Scan(after, d) == Scan(groups, d) - {g.id} + if d in g.members then {g.id} else {}
    {
    }
    if g.id in groups {
      forall d | d in groups[g.id].members && d !in g.members
        ensures Bucket(LinkAll(index, g.members, g.id), d) != Scan(after, d)
      {
        assert g.id in Scan(groups, d) && g.id in Bucket(index, d);
      }
    }
  }

  lemma UpdateAgrees(groups: Groups, index: Index, g: Group)
    requires Agrees(groups, index) && g.id in groups
    ensures Agrees(groups[g.id := g], LinkAll(UnlinkAll(index, groups[g.id].members, g.id), g.members, g.id))
  {
    UnlinkAllBuckets(index, groups[g.id].members, g.id);
    LinkAllBuckets(UnlinkAll(index, groups[g.id].members, g.id), g.members, g.id);
    forall d
      ensures Scan(groups[g.id := g], d) ==
              Scan(groups, d) - (if d in groups[g.id].members then {g.id} else {})
              + if d in g.members then {g.id} else {}
    {
    }
  }

  lemma DeleteAgrees(groups: Groups, index: Index, id: GroupId)
    requires Agrees(groups, index) && id in groups
    ensures Agrees(groups - {id}, UnlinkAll(index, groups[id].members, id))
  {
    UnlinkAllBuckets(index, groups[id].members, id);
    forall d
      ensures Scan(groups - {id}, d) == Scan(groups, d) - if d in groups[id].members then {id} else {}
    {
    }
  }

  class MemStore {
    var byId: Groups
    var byDid: Index

    ghost predicate Valid()
      reads this
    {
      Agrees(byId, byDid)
    }

    constructor ()
      ensures byId == map[] && Valid()
    {
      byId, byDid := map[], map[];
    }

    /** `id` is what the generator returned; identifiers are never handed out twice. */
    method CreateGroup(members: seq<Did>, owners: seq<Did>, id: GroupId)
      requires Valid() && id !in byId
      modifies this
      ensures Valid()
      ensures byId == old(byId)[id := Group(id, members, owners)]
    {
      CreateAgreesIff(byId, byDid, Group(id, members, owners));
      byId := byId[id := Group(id, members, owners)];
      AddToIndex(members, id);
    }

    method GetGroup(id: GroupId) returns (g: Option<Group>)
      ensures g == if id in byId then Some(byId[id]) else None
    {
      g := if id in byId then Some(byId[id]) else None;
    }

    /** The index lookup lists exactly the groups a scan would find, each once. */
    method ListGroupIDsForMember(did: Did) returns (ids: seq<GroupId>)
      requires Valid()
      ensures ListsOnce(Scan(byId, did), ids)
    {
      ids := [];
      assert Bucket(byDid, did) == Scan(byId, did);
      if did in byDid {
        var todo := byDid[did];
        while todo != {}
          invariant todo <= byDid[did]
          invariant forall x :: x in ids <==> x in byDid[did] && x !in todo
          invariant forall i, j :: 0 <= i < j < |ids| ==> ids[i] != ids[j]
          decreases todo
        {
          var id :| id in todo;
          todo := todo - {id};
          ids := ids + [id];
        }
      }
    }

    method UpdateGroup(id: GroupId, members: seq<Did>, owners: seq<Did>) returns (ok: bool)
      requires Valid()
      modifies this
      ensures Valid()
      ensures ok == (id in old(byId))
      ensures byId == if ok then old(byId)[id := Group(id, members, owners)] else old(byId)
    {
      if id !in byId {
        return false;
      }
      UpdateAgrees(byId, byDid, Group(id, members, owners));
      var oldMembers := byId[id].members;
      byId := byId[id := Group(id, members, owners)];
      RemoveFromIndex(oldMembers, id);
      AddToIndex(members, id);
      ok := true;
    }

    method DeleteGroup(id: GroupId) returns (ok: bool)
      requires Valid()
      modifies this
      ensures Valid()
      ensures ok == (id in old(byId))
      ensures byId == old(byId) - {id}
    {
      if id !in byId {
        return false;
      }
      DeleteAgrees(byId, byDid, id);
      var members := byId[id].members;
      byId := byId - {id};
      RemoveFromIndex(members, id);
      ok := true;
    }

    method AddToIndex(members: seq<Did>, id: GroupId)
      modifies this`byDid
      ensures byDid == LinkAll(old(byDid), members, id)
    {
      for i := 0 to |members|
        invariant LinkAll(byDid, members[i..], id) == LinkAll(old(byDid), members, id)
      {
        assert members[i..][1..] == members[i + 1..];
        var bucket := if members[i] in byDid then byDid[members[i]] else {};
        byDid := byDid[members[i] := bucket + {id}];
      }
    }

    method RemoveFromIndex(members: seq<Did>, id: GroupId)
      modifies this`byDid
      ensures byDid == UnlinkAll(old(byDid), members, id)
    {
      for i := 0 to |members|
        invariant UnlinkAll(byDid, members[i..], id) == UnlinkAll(old(byDid), members, id)
      {
        assert members[i..][1..] == members[i + 1..];
        if members[i] in byDid {
          var bucket := byDid[members[i]] - {id};
          byDid := if bucket == {} then byDid - {members[i]} else byDid[members[i] := bucket];
        }
      }
    }
  }
}
