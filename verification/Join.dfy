/**
 * Joining a network by invitation (ts/linkself/src/join.ts:91-155): the accepting node checks
 * the invite, consumes its nonce and adds the invitee.
 */
module Join {
  import opened Common
  import opened Networks

  /** `authentic`: the signature over the other fields verifies under the inviter's key. */
  datatype Invite = Invite(networkId: NetworkId, suiteId: string, role: string, inviterDID: Did,
                           nonce: string, expiresAt: int, authentic: bool)

  datatype Request = Request(invite: Invite, inviteeDID: Did)

  datatype Code = InviteExpired | InviteInvalid | NotFound | InviterNotAdmin | NotAdmin | InviteConsumed | Already

  datatype Response = Accepted(network: Network) | Rejected(code: Code) | Rethrown(error: Error)

  datatype Node = Node(nets: Nets, nonces: set<string>)

  /** What is checked of the invite and the network. */
  function Vet(gate: Gate, nets: Nets, self: Did, req: Request, now: int): Option<Code> {
    var invite := req.invite;
    if now > invite.expiresAt then Some(InviteExpired)
    else if !invite.authentic then Some(InviteInvalid)
    else if invite.networkId !in nets then Some(NotFound)
    else
      var net := nets[invite.networkId];
      if invite.suiteId != net.suiteId then Some(InviteInvalid)
      else if !IsAdmin(gate, net, invite.inviterDID) then Some(InviterNotAdmin)
      else if !IsAdmin(gate, net, self) then Some(NotAdmin)
      else None
  }

  /** Everything that is checked before the first write. */
  function Refusal(gate: Gate, node: Node, self: Did, req: Request, now: int): Option<Code> {
    var code := Vet(gate, node.nets, self, req, now);
    if code.Some? then code
    else if req.invite.nonce in node.nonces then Some(InviteConsumed)
    else None
  }

  /** The part after the checks: add the invitee, then consume the nonce. */
  function Admit(gate: Gate, node: Node, self: Did, req: Request): (Node, Response) {
    var id := req.invite.networkId;
    var (nets, error) := Exec(gate, node.nets, AddMember(id, self, req.inviteeDID, req.invite.role));
    if error == Some(AlreadyMember) then (node, Rejected(Already))
    else if error.Some? then (node, Rethrown(error.value))
    else if id in nets then (Node(nets, node.nonces + {req.invite.nonce}), Accepted(nets[id]))
    else (node, Rethrown(NetworkNotFound))
  }

  function Outcome(gate: Gate, node: Node, self: Did, req: Request, now: int): (Node, Response) {
    var refusal := Refusal(gate, node, self, req, now);
    if refusal.Some? then (node, Rejected(refusal.value)) else Admit(gate, node, self, req)
  }

  /**
   * All or nothing: it succeeds exactly for a valid, unconsumed invite between admins for somebody
   * new; a success adds exactly the invitee, with the invited role, and consumes exactly the
   * nonce; any other outcome is a rejection that leaves networks and nonces alone. Nothing is
   * ever rethrown.
   */
  lemma AcceptIsAllOrNothing(gate: Gate, node: Node, self: Did, req: Request, now: int)
    ensures var (after, response) := Outcome(gate, node, self, req, now); var invite := req.invite;
            && !response.Rethrown?
            && (response.Accepted? <==>
                  && now <= invite.expiresAt && invite.authentic
                  && invite.networkId in node.nets
                  && invite.suiteId == node.nets[invite.networkId].suiteId
                  && IsAdmin(gate, node.nets[invite.networkId], invite.inviterDID)
                  && IsAdmin(gate, node.nets[invite.networkId], self)
                  && invite.nonce !in node.nonces
                  && req.inviteeDID !in node.nets[invite.networkId].members)
            && (response.Rejected? ==> after == node)
            && (response.Accepted? ==>
                  && after.nonces == node.nonces + {invite.nonce}
                  && after.nets.Keys == node.nets.Keys
                  && (forall id :: id in node.nets && id != invite.networkId ==> after.nets[id] == node.nets[id])
                  && response.network == after.nets[invite.networkId]
                  && var before, net := node.nets[invite.networkId], response.network;
                     && net.members == before.members + [req.inviteeDID]
                     && RoleOf(net, req.inviteeDID) == invite.role
                     && forall d :: d != req.inviteeDID ==> RoleOf(net, d) == RoleOf(before, d))
  {
  }

  /** Which code a rejection carries: the first objection, in this order. */
  lemma RejectionIff(gate: Gate, node: Node, self: Did, req: Request, now: int)
    ensures var response, invite := Outcome(gate, node, self, req, now).1, req.invite;
            var expired := now > invite.expiresAt;
            && (response == Rejected(InviteExpired) <==> expired)
            && (response == Rejected(NotFound) <==> !expired && invite.authentic && invite.networkId !in node.nets)
            && (response == Rejected(InviteInvalid) <==>
                  && !expired
                  && (!invite.authentic
                      || (invite.networkId in node.nets && invite.suiteId != node.nets[invite.networkId].suiteId)))
    ensures var response, invite := Outcome(gate, node, self, req, now).1, req.invite;
            now <= invite.expiresAt && invite.authentic && invite.networkId in node.nets
            && invite.suiteId == node.nets[invite.networkId].suiteId ==>
              var net := node.nets[invite.networkId];
              var barred := !IsAdmin(gate, net, invite.inviterDID) || !IsAdmin(gate, net, self);
              && (response == Rejected(InviterNotAdmin) <==> !IsAdmin(gate, net, invite.inviterDID))
              && (response == Rejected(NotAdmin) <==>
                    IsAdmin(gate, net, invite.inviterDID) && !IsAdmin(gate, net, self))
              && (response == Rejected(InviteConsumed) <==> !barred && invite.nonce in node.nonces)
              && (response == Rejected(Already) <==>
                    !barred && invite.nonce !in node.nonces && req.inviteeDID in net.members)
  {
  }

  /** What can happen to a node: an acceptance, a management operation, or a snapshot from elsewhere. */
  datatype Event =
    | DoAccept(self: Did, req: Request, now: int)
    | DoManage(op: Op)
    | DoPut(network: Network)

  function Next(gate: Gate, node: Node, e: Event): Node {
    match e
    case DoAccept(self, req, now) => Outcome(gate, node, self, req, now).0
    case DoManage(op) => node.(nets := Exec(gate, node.nets, op).0)
    case DoPut(n) => node.(nets := node.nets[n.id := n])
  }

  /** How many acceptances with this nonce succeed along a run. */
  function Successes(gate: Gate, node: Node, events: seq<Event>, nonce: string): nat
    decreases |events|
  {
    if events == [] then 0
    else
      var e := events[0];
      (if e.DoAccept? && e.req.invite.nonce == nonce && Outcome(gate, node, e.self, e.req, e.now).1.Accepted?
       then 1 else 0)
      + Successes(gate, Next(gate, node, e), events[1..], nonce)
  }

  function After(gate: Gate, node: Node, events: seq<Event>): Node
    decreases |events|
  {
    if events == [] then node else After(gate, Next(gate, node, events[0]), events[1..])
  }

  /** Each acceptance with the nonce that succeeds where it stands in the run counts once. */
  lemma {:induction false} SuccessesAppend(gate: Gate, node: Node, events: seq<Event>, e: Event, nonce: string)
    ensures var last := After(gate, node, events);
            && After(gate, node, events + [e]) == Next(gate, last, e)
            && Successes(gate, node, events + [e], nonce) == Successes(gate, node, events, nonce) +
               if e.DoAccept? && e.req.invite.nonce == nonce && Outcome(gate, last, e.self, e.req, e.now).1.Accepted?
               then 1 else 0
    decreases |events|
  {
    if events == [] {
      assert events + [e] == [e] && [e][1..] == [];
      assert Successes(gate, Next(gate, node, e), [], nonce) == 0;
      assert After(gate, Next(gate, node, e), []) == Next(gate, node, e);
    } else {
      assert (events + [e])[0] == events[0] && (events + [e])[1..] == events[1..] + [e];
      SuccessesAppend(gate, Next(gate, node, events[0]), events[1..], e, nonce);
    }
  }

  /**
   * Single use: along any run in which acceptances are atomic, whatever else happens to the
   * networks (the invitee may be kicked, snapshots may arrive), a nonce is accepted at most once,
   * and never if it was consumed before.
   */
  lemma {:induction false} NonceIsSingleUse(gate: Gate, node: Node, events: seq<Event>, nonce: string)
    ensures Successes(gate, node, events, nonce) <= if nonce in node.nonces then 0 else 1
    decreases |events|
  {
    if events != [] {
      var e := events[0];
      if e.DoAccept? {
        AcceptIsAllOrNothing(gate, node, e.self, e.req, e.now);
      }
      NonceIsSingleUse(gate, Next(gate, node, e), events[1..], nonce);
    }
  }

  // ---------------------------------------------------------------------------------------
  // Acceptances that overlap at their awaits
  // ---------------------------------------------------------------------------------------

  /** How far an acceptance has got; `net` is the network its checks saw, `copy` the one it will write back. */
  datatype Phase =
    | Begun
    | Vetted(net: Network)
    | Cleared(net: Network)
    | Fetched(net: Network, copy: Network)
    | Written(net: Network)
    | Consumed(net: Network)
    | Answered(response: Response)

  datatype Acceptance = Acceptance(self: Did, req: Request, now: int, phase: Phase)
  {
    function Id(): NetworkId {
      req.invite.networkId
    }
  }

  datatype World = World(node: Node, accs: seq<Acceptance>)

  /** From one await to the next: vetting, nonce check, fetch, write of the amended copy, consumption, snapshot. */
  function Advance(gate: Gate, node: Node, a: Acceptance): (Node, Phase) {
    var id, invitee, role := a.Id(), a.req.inviteeDID, a.req.invite.role;
    match a.phase
    case Begun =>
      var code := Vet(gate, node.nets, a.self, a.req, a.now);
      (node, if code.Some? then Answered(Rejected(code.value))
             else if id in node.nets then Vetted(node.nets[id]) else Answered(Rejected(NotFound)))
    case Vetted(net) =>
      (node, if a.req.invite.nonce in node.nonces then Answered(Rejected(InviteConsumed)) else Cleared(net))
    case Cleared(net) =>
      var e := Check(gate, node.nets, id, a.self);
      (node, if e.Some? then Answered(Rethrown(e.value))
             else if id in node.nets && invitee !in node.nets[id].members then Fetched(net, node.nets[id])
             else Answered(Rejected(Already)))
    case Fetched(net, copy) =>
      if id !in node.nets then (node, Answered(Rethrown(NetworkNotFound)))
      else (node.(nets := node.nets[id := Added(copy, invitee, role).(id := id)]), Written(net))
    case Written(net) => (node.(nonces := node.nonces + {a.req.invite.nonce}), Consumed(net))
    case Consumed(net) => (node, Answered(Accepted(if id in node.nets then node.nets[id] else net)))
    case Answered(_) => (node, a.phase)
  }

  /** One acceptance goes on to its next await, or something else operates on the networks or stores one. */
  datatype Act = Go(i: nat) | Manage(op: Op) | Put(network: Network)

  predicate CanDo(w: World, a: Act) {
    a.Go? ==> a.i < |w.accs|
  }

  ghost predicate CanDoAll(w: World, acts: seq<Act>) {
    forall m :: 0 <= m < |acts| ==> CanDo(w, acts[m])
  }

  function Do(gate: Gate, w: World, a: Act): (r: World)
    requires CanDo(w, a)
    ensures |r.accs| == |w.accs| && forall k :: 0 <= k < |w.accs| ==> r.accs[k].req == w.accs[k].req
  {
    match a
    case Go(i) =>
      var (node, phase) := Advance(gate, w.node, w.accs[i]);
      World(node, w.accs[i := w.accs[i].(phase := phase)])
    case Manage(op) => w.(node := w.node.(nets := Exec(gate, w.node.nets, op).0))
    case Put(n) => w.(node := w.node.(nets := w.node.nets[n.id := n]))
  }

  ghost function DoAll(gate: Gate, w: World, acts: seq<Act>): (r: World)
    requires CanDoAll(w, acts)
    ensures |r.accs| == |w.accs|
    decreases |acts|
  {
    if acts == [] then w else DoAll(gate, Do(gate, w, acts[0]), acts[1..])
  }

  lemma DoCons(gate: Gate, w: World, a: Act, acts: seq<Act>)
    requires CanDo(w, a) && CanDoAll(w, acts)
    ensures CanDoAll(w, [a] + acts) && DoAll(gate, w, [a] + acts) == DoAll(gate, Do(gate, w, a), acts)
  {
    assert ([a] + acts)[1..] == acts;
  }

  /** Acceptance i going on n times with nothing in between. */
  function Alone(i: nat, n: nat): seq<Act> {
    if n == 0 then [] else [Go(i)] + Alone(i, n - 1)
  }

  lemma {:induction false} AloneCanDo(w: World, i: nat, n: nat)
    requires i < |w.accs|
    ensures CanDoAll(w, Alone(i, n))
  {
    if n > 0 {
      AloneCanDo(w, i, n - 1);
    }
  }

  lemma OneMore(gate: Gate, w: World, i: nat, n: nat)
    requires i < |w.accs| && n > 0
    ensures CanDoAll(w, Alone(i, n)) && CanDoAll(Do(gate, w, Go(i)), Alone(i, n - 1))
    ensures DoAll(gate, w, Alone(i, n)) == DoAll(gate, Do(gate, w, Go(i)), Alone(i, n - 1))
  {
    AloneCanDo(w, i, n - 1);
    DoCons(gate, w, Go(i), Alone(i, n - 1));
  }

  /** An answer stands. */
  lemma {:induction false} AnswerStands(gate: Gate, w: World, i: nat, n: nat)
    requires i < |w.accs| && w.accs[i].phase.Answered?
    ensures CanDoAll(w, Alone(i, n)) && DoAll(gate, w, Alone(i, n)) == w
  {
    if n > 0 {
      assert Do(gate, w, Go(i)).accs == w.accs;
      AnswerStands(gate, w, i, n - 1);
      OneMore(gate, w, i, n);
    }
  }

  predicate IsAccepted(p: Phase) {
    p.Answered? && p.response.Accepted?
  }

  /** Uninterrupted, the steps come to the outcome of one atomic acceptance. */
  lemma AloneIsAtomic(gate: Gate, w: World, i: nat)
    requires i < |w.accs| && w.accs[i].phase == Begun
    requires forall id :: id in w.node.nets ==> w.node.nets[id].id == id
    ensures CanDoAll(w, Alone(i, 6))
    ensures var (a, after) := (w.accs[i], DoAll(gate, w, Alone(i, 6)));
            (after.node, after.accs[i].phase) ==
            (Outcome(gate, w.node, a.self, a.req, a.now).0, Answered(Outcome(gate, w.node, a.self, a.req, a.now).1))
  {
    var w1 := Do(gate, w, Go(i));
    OneMore(gate, w, i, 6);
    if w1.accs[i].phase.Answered? {
      AnswerStands(gate, w1, i, 5);
    } else {
      var w2 := Do(gate, w1, Go(i));
      OneMore(gate, w1, i, 5);
      if w2.accs[i].phase.Answered? {
        AnswerStands(gate, w2, i, 4);
      } else {
        ClearedIsAtomic(gate, w2, i);
      }
    }
  }

  lemma ClearedIsAtomic(gate: Gate, w: World, i: nat)
    requires i < |w.accs| && w.accs[i].phase.Cleared? && w.accs[i].Id() in w.node.nets
    requires w.node.nets[w.accs[i].Id()].id == w.accs[i].Id()
    ensures CanDoAll(w, Alone(i, 4))
    ensures var (a, after) := (w.accs[i], DoAll(gate, w, Alone(i, 4)));
            (after.node, after.accs[i].phase) ==
            (Admit(gate, w.node, a.self, a.req).0, Answered(Admit(gate, w.node, a.self, a.req).1))
  {
    var w1 := Do(gate, w, Go(i));
    OneMore(gate, w, i, 4);
    if w1.accs[i].phase.Answered? {
      AnswerStands(gate, w1, i, 3);
    } else {
      FetchedGetsThrough(gate, w1, i);
    }
  }

  /** Once it has its copy, an acceptance that goes on alone gets through if the network is still there. */
  lemma FetchedGetsThrough(gate: Gate, w: World, i: nat)
    requires i < |w.accs| && w.accs[i].phase.Fetched? && w.accs[i].Id() in w.node.nets
    ensures CanDoAll(w, Alone(i, 3))
    ensures var (a, after, id) := (w.accs[i], DoAll(gate, w, Alone(i, 3)), w.accs[i].Id());
            var net := Added(a.phase.copy, a.req.inviteeDID, a.req.invite.role).(id := id);
            && after.node == Node(w.node.nets[id := net], w.node.nonces + {a.req.invite.nonce})
            && after.accs == w.accs[i := a.(phase := Answered(Accepted(net)))]
  {
    var w1 := Do(gate, w, Go(i));
    var w2 := Do(gate, w1, Go(i));
    var w3 := Do(gate, w2, Go(i));
    OneMore(gate, w, i, 3);
    OneMore(gate, w1, i, 2);
    OneMore(gate, w2, i, 1);
    AnswerStands(gate, w3, i, 0);
    assert w3.accs == w.accs[i := w3.accs[i]];
  }

  // ---------------------------------------------------------------------------------------
  // Single use, when acceptances overlap
  // ---------------------------------------------------------------------------------------

  /** The nonce check is behind it, and it has not been turned down. */
  predicate PastNonceCheck(p: Phase) {
    p.Cleared? || p.Fetched? || p.Written? || p.Consumed? || IsAccepted(p)
  }

  /** What the acceptance still needs to get through if it goes on alone. */
  predicate NothingInTheWay(gate: Gate, nets: Nets, a: Acceptance) {
    match a.phase
    case Cleared(_) =>
      Check(gate, nets, a.Id(), a.self).None? && (a.Id() in nets ==> a.req.inviteeDID !in nets[a.Id()].members)
    case Fetched(_, _) => a.Id() in nets
    case _ => true
  }

  /** The nonce is consumed, and the acceptance has yet to check it or has been turned down. */
  ghost predicate TooLate(w: World, j: nat) {
    && j < |w.accs| && w.accs[j].req.invite.nonce in w.node.nonces
    && !PastNonceCheck(w.accs[j].phase)
  }

  /**
   * An acceptance that has not checked the nonce when it is consumed is never accepted, whatever
   * other acceptances and the networks do.
   */
  lemma {:induction false} TooLateStaysOut(gate: Gate, w: World, j: nat, acts: seq<Act>)
    requires TooLate(w, j) && CanDoAll(w, acts)
    ensures TooLate(DoAll(gate, w, acts), j) && !IsAccepted(DoAll(gate, w, acts).accs[j].phase)
    decreases |acts|
  {
    if acts != [] {
      TooLateStaysOut(gate, Do(gate, w, acts[0]), j, acts[1..]);
    }
  }

  ghost predicate GetsAccepted(gate: Gate, w: World, j: nat, acts: seq<Act>) {
    j < |w.accs| && CanDoAll(w, acts) && IsAccepted(DoAll(gate, w, acts).accs[j].phase)
  }

  /** Going on alone, an acceptance past its nonce check gets through exactly if nothing is in the way. */
  lemma PassesAloneIff(gate: Gate, w: World, j: nat)
    requires j < |w.accs| && PastNonceCheck(w.accs[j].phase)
    ensures GetsAccepted(gate, w, j, Alone(j, 4)) <==> NothingInTheWay(gate, w.node.nets, w.accs[j])
  {
    var w1 := Do(gate, w, Go(j));
    OneMore(gate, w, j, 4);
    match w.accs[j].phase
    case Cleared(_) =>
      if w1.accs[j].phase.Answered? {
        AnswerStands(gate, w1, j, 3);
      } else {
        FetchedGetsThrough(gate, w1, j);
      }
    case Fetched(_, _) =>
      if w1.accs[j].phase.Answered? {
        AnswerStands(gate, w1, j, 3);
      } else {
        WrittenGetsThrough(gate, w1, j, 3);
      }
    case Written(_) =>
      WrittenGetsThrough(gate, w, j, 4);
    case Consumed(_) =>
      AnswerStands(gate, w1, j, 3);
    case Answered(_) =>
      AnswerStands(gate, w1, j, 3);
  }

  lemma WrittenGetsThrough(gate: Gate, w: World, j: nat, n: nat)
    requires j < |w.accs| && w.accs[j].phase.Written? && n >= 2
    ensures GetsAccepted(gate, w, j, Alone(j, n))
  {
    var w1 := Do(gate, w, Go(j));
    var w2 := Do(gate, w1, Go(j));
    OneMore(gate, w, j, n);
    OneMore(gate, w1, j, n - 1);
    AnswerStands(gate, w2, j, n - 2);
  }

  /**
   * The exact condition: at the moment acceptance `i` consumes the nonce, another acceptance `j`
   * with the same nonce can still be accepted, in some continuation, if and only if it is past its
   * own check of the nonce; and it is, if it goes on alone, exactly if moreover nothing is in its way.
   */
  lemma OverlappingAcceptancesShareNonceIff(gate: Gate, w: World, i: nat, j: nat)
    requires i < |w.accs| && j < |w.accs| && i != j && w.accs[i].phase.Written?
    requires w.accs[i].req.invite.nonce == w.accs[j].req.invite.nonce
    ensures var w1 := Do(gate, w, Go(i));
            && ((exists acts :: GetsAccepted(gate, w1, j, acts)) <==> PastNonceCheck(w.accs[j].phase))
            && (PastNonceCheck(w.accs[j].phase) ==>
                  (GetsAccepted(gate, w1, j, Alone(j, 4)) <==> NothingInTheWay(gate, w.node.nets, w.accs[j])))
  {
    var w1 := Do(gate, w, Go(i));
    assert w1.accs[j] == w.accs[j] && w1.node.nets == w.node.nets;
    if PastNonceCheck(w.accs[j].phase) {
      PassesAloneIff(gate, w1, j);
      // A stored network that lists nobody and gives the acceptance its standing clears the way.
      var clear := Put(Network(w.accs[j].Id(), "", [], map[w.accs[j].self := gate.adminRole]));
      var w2 := Do(gate, w1, clear);
      PassesAloneIff(gate, w2, j);
      DoCons(gate, w1, clear, Alone(j, 4));
      assert GetsAccepted(gate, w1, j, [clear] + Alone(j, 4));
    } else {
      forall acts | CanDoAll(w1, acts)
        ensures !GetsAccepted(gate, w1, j, acts)
      {
        TooLateStaysOut(gate, w1, j, acts);
      }
    }
  }

  // ---------------------------------------------------------------------------------------
  // Which invitee stays, when acceptances overlap
  // ---------------------------------------------------------------------------------------

  /** The acceptance will write back a copy without the member. */
  predicate Stale(w: World, id: NetworkId, did: Did, k: nat) {
    && k < |w.accs| && w.accs[k].Id() == id && w.accs[k].phase.Fetched?
    && did !in w.accs[k].phase.copy.members && w.accs[k].req.inviteeDID != did
  }

  /** The act takes the member out of the network, or replaces the network by one without it. */
  predicate TakesOut(a: Act, id: NetworkId, did: Did) {
    match a
    case Go(_) => false
    case Manage(op) =>
      || (op.Leave? && op.id == id && op.member == did)
      || (op.Kick? && op.id == id && op.target == did)
      || (op.Create? && op.newId == id)
    case Put(n) => n.id == id && did !in n.members
  }

  predicate IsMember(w: World, id: NetworkId, did: Did) {
    id in w.node.nets && did in w.node.nets[id].members
  }

  /** A member now and after each of the acts. */
  ghost predicate StaysMember(gate: Gate, w: World, id: NetworkId, did: Did, acts: seq<Act>)
    requires CanDoAll(w, acts)
    decreases |acts|
  {
    IsMember(w, id, did) && (acts != [] ==> StaysMember(gate, Do(gate, w, acts[0]), id, did, acts[1..]))
  }

  lemma ActKeepsMemberIff(gate: Gate, w: World, id: NetworkId, did: Did, a: Act)
    requires CanDo(w, a) && IsMember(w, id, did) && !TakesOut(a, id, did)
    ensures IsMember(Do(gate, w, a), id, did) <==> !(a.Go? && Stale(w, id, did, a.i))
    ensures !(a.Go? && Stale(w, id, did, a.i)) ==>
              forall k :: Stale(Do(gate, w, a), id, did, k) <==> Stale(w, id, did, k)
  {
    if a.Manage? && a.op.Leave? && a.op.id in w.node.nets {
      WithoutKeeps(w.node.nets[a.op.id].members, a.op.member);
    } else if a.Manage? && a.op.Kick? && a.op.id in w.node.nets {
      WithoutKeeps(w.node.nets[a.op.id].members, a.op.target);
    }
  }

  /**
   * Any number of acceptances, with operations and stored networks in between: a member whom nothing
   * else takes out stays one throughout if and only if no acceptance goes on that holds, at the
   * start, a copy of the network without it.
   */
  lemma {:induction false} MemberStaysIff(gate: Gate, w: World, id: NetworkId, did: Did, acts: seq<Act>)
    requires CanDoAll(w, acts) && IsMember(w, id, did)
    requires forall m :: 0 <= m < |acts| ==> !TakesOut(acts[m], id, did)
    ensures StaysMember(gate, w, id, did, acts) <==> NoStaleWriter(w, id, did, acts)
    decreases |acts|
  {
    if acts != [] {
      ActKeepsMemberIff(gate, w, id, did, acts[0]);
      if acts[0].Go? && Stale(w, id, did, acts[0].i) {
        assert !NoStaleWriter(w, id, did, acts);
        assert !IsMember(Do(gate, w, acts[0]), id, did);
      } else {
        var w', rest := Do(gate, w, acts[0]), acts[1..];
        MemberStaysIff(gate, w', id, did, rest);
        assert forall m :: 0 <= m < |rest| ==> rest[m] == acts[m + 1];
        assert forall m :: 0 < m < |acts| ==> acts[m] == rest[m - 1];
      }
    }
  }

  ghost predicate NoStaleWriter(w: World, id: NetworkId, did: Did, acts: seq<Act>) {
    forall m :: 0 <= m < |acts| && acts[m].Go? ==> !Stale(w, id, did, acts[m].i)
  }

  /**
   * So the invitee of an acceptance stays from its write on, as long as nobody takes it out, if and
   * only if no acceptance goes on afterwards that had fetched its own copy before that write.
   */
  lemma InviteeStaysIff(gate: Gate, w: World, i: nat, acts: seq<Act>)
    requires i < |w.accs| && w.accs[i].phase.Fetched? && w.accs[i].Id() in w.node.nets && CanDoAll(w, acts)
    requires forall m :: 0 <= m < |acts| ==> !TakesOut(acts[m], w.accs[i].Id(), w.accs[i].req.inviteeDID)
    ensures var id, did := w.accs[i].Id(), w.accs[i].req.inviteeDID;
            StaysMember(gate, Do(gate, w, Go(i)), id, did, acts) <==> NoStaleWriter(w, id, did, acts)
  {
    var id, did, w' := w.accs[i].Id(), w.accs[i].req.inviteeDID, Do(gate, w, Go(i));
    MemberStaysIff(gate, w', id, did, acts);
    assert forall k :: Stale(w', id, did, k) <==> Stale(w, id, did, k);
  }

  /** Acceptance `i` has written; `j` either saw that before it fetched, or its copy lacks the first invitee. */
  ghost predicate AfterFirstWrite(w: World, i: nat, j: nat, sawIt: bool) {
    && i < |w.accs| && j < |w.accs| && i != j
    && (w.accs[i].phase.Written? || w.accs[i].phase.Consumed? || w.accs[i].phase.Answered?)
    && var (a, b) := (w.accs[i], w.accs[j]);
       && a.Id() == b.Id() && a.req.inviteeDID != b.req.inviteeDID && a.Id() in w.node.nets
       && var members := w.node.nets[a.Id()].members;
          match b.phase
          case Fetched(_, copy) =>
            (a.req.inviteeDID in copy.members <==> sawIt) && (sawIt ==> a.req.inviteeDID in members)
          case Written(_) => SecondSurely(members, a, b, sawIt)
          case Consumed(_) => SecondSurely(members, a, b, sawIt)
          case Answered(r) => r.Accepted? ==> SecondSurely(members, a, b, sawIt)
          case _ => sawIt && a.req.inviteeDID in members
  }

  /** The second invitee for certain, the first exactly if it was seen. */
  ghost predicate SecondSurely(members: seq<Did>, a: Acceptance, b: Acceptance, sawIt: bool) {
    b.req.inviteeDID in members && (a.req.inviteeDID in members <==> sawIt)
  }

  /** One of the two goes on, or something happens to another network. */
  predicate LeavesToTheTwo(w: World, i: nat, j: nat, a: Act)
    requires i < |w.accs| && CanDo(w, a)
  {
    var id := w.accs[i].Id();
    match a
    case Go(k) => k == i || k == j || w.accs[k].Id() != id
    case Manage(op) => (if op.Create? then op.newId else op.id) != id
    case Put(n) => n.id != id
  }

  lemma FirstWriteStep(gate: Gate, w: World, i: nat, j: nat, sawIt: bool, a: Act)
    requires AfterFirstWrite(w, i, j, sawIt) && CanDo(w, a) && LeavesToTheTwo(w, i, j, a)
    ensures AfterFirstWrite(Do(gate, w, a), i, j, sawIt)
  {
    var id, w' := w.accs[i].Id(), Do(gate, w, a);
    if !(a.Go? && (a.i == i || a.i == j)) {
      assert w'.accs[i] == w.accs[i] && w'.accs[j] == w.accs[j];
      assert id in w'.node.nets && w'.node.nets[id] == w.node.nets[id];
    }
  }

  lemma {:induction false} FirstWriteCarries(gate: Gate, w: World, i: nat, j: nat, sawIt: bool, acts: seq<Act>)
    requires AfterFirstWrite(w, i, j, sawIt) && CanDoAll(w, acts)
    requires forall m :: 0 <= m < |acts| ==> LeavesToTheTwo(w, i, j, acts[m])
    ensures AfterFirstWrite(DoAll(gate, w, acts), i, j, sawIt)
    ensures DoAll(gate, w, acts).accs[i].req == w.accs[i].req && DoAll(gate, w, acts).accs[j].req == w.accs[j].req
    decreases |acts|
  {
    if acts != [] {
      FirstWriteStep(gate, w, i, j, sawIt, acts[0]);
      FirstWriteCarries(gate, Do(gate, w, acts[0]), i, j, sawIt, acts[1..]);
    }
  }

  /**
   * For two acceptances to one network this decides the outcome: take the moment `i` makes its
   * write, with `j` still to write, and any continuation in which `j` gets through and the network
   * is left to the two. Then the second invitee is a member, and the first is if and only if at that
   * moment `j` had not yet fetched its copy of the network.
   */
  lemma FirstInviteeSurvivesIff(gate: Gate, w: World, i: nat, j: nat, acts: seq<Act>)
    requires i < |w.accs| && j < |w.accs| && i != j && CanDoAll(w, acts)
    requires var (a, b) := (w.accs[i], w.accs[j]);
             && a.Id() == b.Id() && a.Id() in w.node.nets && a.req.inviteeDID != b.req.inviteeDID
             && a.phase.Fetched?
             && (|| b.phase.Begun? || b.phase.Vetted? || b.phase.Cleared?
                 || (b.phase.Fetched? && a.req.inviteeDID !in b.phase.copy.members))
    requires forall m :: 0 <= m < |acts| ==> LeavesToTheTwo(w, i, j, acts[m])
    requires var end := DoAll(gate, Do(gate, w, Go(i)), acts).accs[j].phase;
             end.Written? || end.Consumed? || IsAccepted(end)
    ensures var (a, b, nets) := (w.accs[i].req, w.accs[j].req, DoAll(gate, Do(gate, w, Go(i)), acts).node.nets);
            && w.accs[i].Id() in nets
            && b.inviteeDID in nets[w.accs[i].Id()].members
            && (a.inviteeDID in nets[w.accs[i].Id()].members <==> !w.accs[j].phase.Fetched?)
  {
    var w1, sawIt := Do(gate, w, Go(i)), !w.accs[j].phase.Fetched?;
    FirstWrite(gate, w, i, j);
    forall m | 0 <= m < |acts|
      ensures LeavesToTheTwo(w1, i, j, acts[m])
    {
      assert LeavesToTheTwo(w, i, j, acts[m]);
    }
    FirstWriteCarries(gate, w1, i, j, sawIt, acts);
    assert AfterFirstWrite(DoAll(gate, w1, acts), i, j, sawIt);
  }

  lemma FirstWrite(gate: Gate, w: World, i: nat, j: nat)
    requires i < |w.accs| && j < |w.accs| && i != j
    requires var (a, b) := (w.accs[i], w.accs[j]);
             && a.Id() == b.Id() && a.Id() in w.node.nets && a.req.inviteeDID != b.req.inviteeDID
             && a.phase.Fetched?
             && (|| b.phase.Begun? || b.phase.Vetted? || b.phase.Cleared?
                 || (b.phase.Fetched? && a.req.inviteeDID !in b.phase.copy.members))
    ensures AfterFirstWrite(Do(gate, w, Go(i)), i, j, !w.accs[j].phase.Fetched?)
  {
    assert Do(gate, w, Go(i)).accs[j] == w.accs[j];
  }

  /** Two cleared acceptances that both fetch before either writes are both answered ok, and one invitee is lost. */
  lemma OverlapLosesInvitee(gate: Gate, w: World, i: nat, j: nat)
    requires i < |w.accs| && j < |w.accs| && i != j
    requires var (a, b) := (w.accs[i], w.accs[j]);
             && a.Id() == b.Id() && a.req.inviteeDID != b.req.inviteeDID && a.phase.Cleared? && b.phase.Cleared?
             && Check(gate, w.node.nets, a.Id(), a.self).None? && Check(gate, w.node.nets, a.Id(), b.self).None?
             && a.req.inviteeDID !in w.node.nets[a.Id()].members && b.req.inviteeDID !in w.node.nets[a.Id()].members
    ensures var w2 := Do(gate, Do(gate, w, Go(i)), Go(j));
            && CanDoAll(w2, Alone(i, 3))
            && var w5 := DoAll(gate, w2, Alone(i, 3));
               && CanDoAll(w5, Alone(j, 3))
               && var after, id := DoAll(gate, w5, Alone(j, 3)), w.accs[i].Id();
                  && IsAccepted(after.accs[i].phase) && IsAccepted(after.accs[j].phase)
                  && id in after.node.nets
                  && after.node.nets[id].members == w.node.nets[id].members + [w.accs[j].req.inviteeDID]
  {
    var w2 := Do(gate, Do(gate, w, Go(i)), Go(j));
    FetchedGetsThrough(gate, w2, i);
    FetchedGetsThrough(gate, DoAll(gate, w2, Alone(i, 3)), j);
  }

  class MemConsumedNonceStore {
    var seen: set<string>

    constructor ()
      ensures seen == {}
    {
      seen := {};
    }

    method Has(nonce: string) returns (r: bool)
      ensures r == (nonce in seen)
    {
      r := nonce in seen;
    }

    method Add(nonce: string)
      modifies this
      ensures seen == old(seen) + {nonce}
    {
      seen := seen + {nonce};
    }
  }

  class JoinService {
    const networks: NetworkService
    const nonces: MemConsumedNonceStore

    function N(): Node
      reads networks.store, nonces
    {
      Node(networks.store.networks, nonces.seen)
    }

    constructor (networks: NetworkService, nonces: MemConsumedNonceStore)
      ensures this.networks == networks && this.nonces == nonces
    {
      this.networks, this.nonces := networks, nonces;
    }

    method Accept(self: Did, req: Request, now: int) returns (response: Response)
      requires networks.Valid()
      modifies networks.store, nonces
      ensures networks.Valid()
      ensures (N(), response) == Outcome(networks.gate, old(N()), self, req, now)
    {
      var gate, invite := networks.gate, req.invite;
      if now > invite.expiresAt {
        return Rejected(InviteExpired);
      }
      if !invite.authentic {
        return Rejected(InviteInvalid);
      }
      var net := networks.store.GetNetwork(invite.networkId);
      if net.None? {
        return Rejected(NotFound);
      }
      if invite.suiteId != net.value.suiteId {
        return Rejected(InviteInvalid);
      }
      if !IsAdmin(gate, net.value, invite.inviterDID) {
        return Rejected(InviterNotAdmin);
      }
      if !IsAdmin(gate, net.value, self) {
        return Rejected(NotAdmin);
      }
      var used := nonces.Has(invite.nonce);
      if used {
        return Rejected(InviteConsumed);
      }
      var error := networks.AddMember(invite.networkId, self, req.inviteeDID, invite.role);
      if error == Some(AlreadyMember) {
        return Rejected(Already);
      }
      // Any other error would be rethrown, and a vanished network replaced by the one fetched
      // before; after the checks neither can happen.
      assert error.None?;
      nonces.Add(invite.nonce);
      var updated := networks.store.GetNetwork(invite.networkId);
      response := Accepted(updated.value);
    }
  }
}
