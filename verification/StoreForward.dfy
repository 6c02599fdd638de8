/**
 * Store-and-forward (core/internal/storeforward/storeforward.go, ts/linkself/src/storeforward.ts):
 * messages wait per destination and are flushed when the peer is online. A flush gives up the
 * lock while it sends, so queueing and other flushes interleave with it.
 */
module StoreForward {
  import opened Common

  type Did = string

  type Pending = map<Did, seq<Bytes>>

  function Waiting(p: Pending, did: Did): seq<Bytes> {
    if did in p then p[did] else []
  }

  // The three critical sections.

  function Enqueue(p: Pending, did: Did, msg: Bytes): Pending {
    p[did := Waiting(p, did) + [msg]]
  }

  function Take(p: Pending, did: Did): Pending {
    p[did := []]
  }

  function Requeue(p: Pending, did: Did, rest: seq<Bytes>): Pending {
    p[did := rest + Waiting(p, did)]
  }

  // ---------------------------------------------------------------------------------------
  // All interleavings
  // ---------------------------------------------------------------------------------------

  /** A flush under way, with what it has still to send. */
  datatype Flush = Flush(did: Did, rest: seq<Bytes>)

  /** `queued` and `sent` record, per destination, everything ever queued and sent. */
  datatype World = World(pending: Pending, flushes: seq<Flush>, queued: Pending, sent: Pending)

  datatype Event =
    | Queue(did: Did, msg: Bytes)
    | Begin(did: Did)
    | Send(i: nat)
    | Fail(i: nat)
    | Finish(i: nat)

  const START := World(map[], [], map[], map[])

  ghost predicate Enabled(w: World, e: Event) {
    match e
    case Queue(_, _) => true
    case Begin(_) => true
    case Send(i) => i < |w.flushes| && w.flushes[i].rest != []
    case Fail(i) => i < |w.flushes| && w.flushes[i].rest != []
    case Finish(i) => i < |w.flushes| && w.flushes[i].rest == []
  }

  function Next(w: World, e: Event): World
    requires Enabled(w, e)
  {
    match e
    case Queue(did, msg) =>
      w.(pending := Enqueue(w.pending, did, msg), queued := Enqueue(w.queued, did, msg))
    case Begin(did) =>
      w.(pending := Take(w.pending, did), flushes := w.flushes + [Flush(did, Waiting(w.pending, did))])
    case Send(i) =>
      var f := w.flushes[i];
      w.(flushes := w.flushes[..i] + [Flush(f.did, f.rest[1..])] + w.flushes[i + 1..],
         sent := Enqueue(w.sent, f.did, f.rest[0]))
    case Fail(i) =>
      var f := w.flushes[i];
      w.(pending := Requeue(w.pending, f.did, f.rest), flushes := w.flushes[..i] + w.flushes[i + 1..])
    case Finish(i) =>
      w.(flushes := w.flushes[..i] + w.flushes[i + 1..])
  }

  ghost predicate IsRun(w: World, es: seq<Event>)
    decreases |es|
  {
    es == [] || (Enabled(w, es[0]) && IsRun(Next(w, es[0]), es[1..]))
  }

  function After(w: World, es: seq<Event>): World
    requires IsRun(w, es)
    decreases |es|
  {
    if es == [] then w else After(Next(w, es[0]), es[1..])
  }

  /** What the flushes hold for a destination, one flush after the other. */
  function Held(fs: seq<Flush>, did: Did): seq<Bytes> {
    if fs == [] then []
    else (if fs[0].did == did then fs[0].rest else []) + Held(fs[1..], did)
  }

  lemma {:induction false} HeldConcat(a: seq<Flush>, b: seq<Flush>, did: Did)
    ensures Held(a + b, did) == Held(a, did) + Held(b, did)
  {
    if a == [] {
      assert a + b == b;
    } else {
      assert (a + b)[1..] == a[1..] + b;
      HeldConcat(a[1..], b, did);
    }
  }

  /** What is held without flush i: before it and after it. */
  function Before(w: World, i: nat, did: Did): seq<Bytes>
    requires i < |w.flushes|
  {
    Held(w.flushes[..i], did)
  }

  function Behind(w: World, i: nat, did: Did): seq<Bytes>
    requires i < |w.flushes|
  {
    Held(w.flushes[i + 1..], did)
  }

  function Own(f: Flush, did: Did): seq<Bytes> {
    if f.did == did then f.rest else []
  }

  lemma HeldReplaced(w: World, i: nat, g: Flush, did: Did)
    requires i < |w.flushes|
    ensures Held(w.flushes[..i] + [g] + w.flushes[i + 1..], did) == Before(w, i, did) + Own(g, did) + Behind(w, i, did)
  {
    var fs := w.flushes;
    assert [g][1..] == [];
    HeldConcat(fs[..i] + [g], fs[i + 1..], did);
    HeldConcat(fs[..i], [g], did);
  }

  lemma HeldNow(w: World, i: nat, did: Did)
    requires i < |w.flushes|
    ensures Held(w.flushes, did) == Before(w, i, did) + Own(w.flushes[i], did) + Behind(w, i, did)
  {
    assert w.flushes == w.flushes[..i] + [w.flushes[i]] + w.flushes[i + 1..];
    HeldReplaced(w, i, w.flushes[i], did);
  }

  lemma HeldAfterSend(w: World, i: nat, did: Did)
    requires Enabled(w, Send(i))
    ensures var f := w.flushes[i];
            Held(Next(w, Send(i)).flushes, did) ==
            Before(w, i, did) + Own(Flush(f.did, f.rest[1..]), did) + Behind(w, i, did)
  {
    HeldReplaced(w, i, Flush(w.flushes[i].did, w.flushes[i].rest[1..]), did);
  }

  lemma HeldAfterDrop(w: World, i: nat, did: Did)
    requires i < |w.flushes|
    ensures Held(w.flushes[..i] + w.flushes[i + 1..], did) == Before(w, i, did) + Behind(w, i, did)
  {
    HeldConcat(w.flushes[..i], w.flushes[i + 1..], did);
  }

  /** The world from one destination's point of view. */
  datatype Tally = Tally(queued: seq<Bytes>, sent: seq<Bytes>, held: seq<Bytes>, pending: seq<Bytes>)

  function TallyOf(w: World, did: Did): Tally {
    Tally(Waiting(w.queued, did), Waiting(w.sent, did), Held(w.flushes, did), Waiting(w.pending, did))
  }

  lemma QueueTally(w: World, d: Did, msg: Bytes, did: Did)
    ensures var t := TallyOf(w, did);
            TallyOf(Next(w, Queue(d, msg)), did) ==
            if d == did then t.(queued := t.queued + [msg], pending := t.pending + [msg]) else t
  {
  }

  lemma BeginTally(w: World, d: Did, did: Did)
    ensures var t := TallyOf(w, did);
            TallyOf(Next(w, Begin(d)), did) ==
            if d == did then t.(held := t.held + t.pending, pending := []) else t
  {
    var f := Flush(d, Waiting(w.pending, d));
    HeldConcat(w.flushes, [f], did);
    assert [f][1..] == [];
  }

  lemma SendTally(w: World, i: nat, did: Did)
    requires Enabled(w, Send(i))
    ensures var f, t := w.flushes[i], TallyOf(w, did); var a, b := Before(w, i, did), Behind(w, i, did);
            && t.held == a + Own(f, did) + b
            && TallyOf(Next(w, Send(i)), did) ==
               if f.did == did then t.(sent := t.sent + [f.rest[0]], held := a + f.rest[1..] + b) else t
  {
    HeldNow(w, i, did);
    HeldAfterSend(w, i, did);
  }

  lemma FailTally(w: World, i: nat, did: Did)
    requires Enabled(w, Fail(i))
    ensures var f, t := w.flushes[i], TallyOf(w, did); var a, b := Before(w, i, did), Behind(w, i, did);
            && t.held == a + Own(f, did) + b
            && TallyOf(Next(w, Fail(i)), did) ==
               if f.did == did then t.(held := a + b, pending := f.rest + t.pending) else t
  {
    HeldNow(w, i, did);
    HeldAfterDrop(w, i, did);
    assert Before(w, i, did) + [] + Behind(w, i, did) == Before(w, i, did) + Behind(w, i, did);
  }

  lemma FinishTally(w: World, i: nat, did: Did)
    requires Enabled(w, Finish(i))
    ensures TallyOf(Next(w, Finish(i)), did) == TallyOf(w, did)
  {
    HeldNow(w, i, did);
    HeldAfterDrop(w, i, did);
    assert Before(w, i, did) + [] + Behind(w, i, did) == Before(w, i, did) + Behind(w, i, did);
  }

  ghost predicate Balanced(t: Tally) {
    multiset(t.queued) == multiset(t.sent) + multiset(t.held) + multiset(t.pending)
  }

  ghost predicate Conserves(w: World, did: Did) {
    Balanced(TallyOf(w, did))
  }

  lemma SendBalances(t: Tally, a: seq<Bytes>, rest: seq<Bytes>, b: seq<Bytes>)
    requires Balanced(t) && t.held == a + rest + b && rest != []
    ensures Balanced(t.(sent := t.sent + [rest[0]], held := a + rest[1..] + b))
  {
    assert rest == [rest[0]] + rest[1..];
  }

  lemma FailBalances(t: Tally, a: seq<Bytes>, rest: seq<Bytes>, b: seq<Bytes>)
    requires Balanced(t) && t.held == a + rest + b
    ensures Balanced(t.(held := a + b, pending := rest + t.pending))
  {
  }

  lemma StepConserves(w: World, e: Event, did: Did)
    requires Conserves(w, did) && Enabled(w, e)
    ensures Conserves(Next(w, e), did)
  {
    match e
    case Queue(d, msg) =>
      QueueTally(w, d, msg, did);
    case Begin(d) =>
      BeginTally(w, d, did);
    case Send(i) =>
      SendTally(w, i, did);
      if w.flushes[i].did == did {
        SendBalances(TallyOf(w, did), Before(w, i, did), w.flushes[i].rest, Behind(w, i, did));
      }
    case Fail(i) =>
      FailTally(w, i, did);
      if w.flushes[i].did == did {
        FailBalances(TallyOf(w, did), Before(w, i, did), w.flushes[i].rest, Behind(w, i, did));
      }
    case Finish(i) =>
      FinishTally(w, i, did);
  }

  lemma {:induction false} RunConserves(w: World, es: seq<Event>, did: Did)
    requires Conserves(w, did) && IsRun(w, es)
    ensures Conserves(After(w, es), did)
    decreases |es|
  {
    if es != [] {
      StepConserves(w, es[0], did);
      RunConserves(Next(w, es[0]), es[1..], did);
    }
  }

  /**
   * No message is lost or duplicated: under any interleaving of queueing, any number of concurrent
   * flushes and any failures, the messages queued for a destination are those sent, those held by
   * flushes under way, and those pending, counted with multiplicity.
   */
  lemma MessagesAreConserved(es: seq<Event>, did: Did)
    requires IsRun(START, es)
    ensures var w := After(START, es);
            multiset(Waiting(w.queued, did)) ==
            multiset(Waiting(w.sent, did)) + multiset(Held(w.flushes, did)) + multiset(Waiting(w.pending, did))
  {
    RunConserves(START, es, did);
  }

  // ---------------------------------------------------------------------------------------
  // Order
  // ---------------------------------------------------------------------------------------

  ghost predicate OneEach(fs: seq<Flush>) {
    forall i, j :: 0 <= i < j < |fs| ==> fs[i].did != fs[j].did
  }

  /** No flush begins while another of the same destination is under way. */
  ghost predicate NoOverlap(w: World, es: seq<Event>)
    requires IsRun(w, es)
    decreases |es|
  {
    es == [] ||
    (&& (es[0].Begin? ==> forall f :: f in w.flushes ==> f.did != es[0].did)
     && NoOverlap(Next(w, es[0]), es[1..]))
  }

  ghost predicate Straight(t: Tally) {
    t.queued == t.sent + t.held + t.pending
  }

  ghost predicate InOrderFor(w: World, did: Did) {
    Straight(TallyOf(w, did))
  }

  ghost predicate InOrder(w: World) {
    OneEach(w.flushes) && forall did :: InOrderFor(w, did)
  }

  lemma {:induction false} HeldNothing(fs: seq<Flush>, did: Did)
    requires forall f :: f in fs ==> f.did != did
    ensures Held(fs, did) == []
  {
    if fs != [] {
      HeldNothing(fs[1..], did);
    }
  }

  lemma OthersHoldNothing(w: World, i: nat)
    requires OneEach(w.flushes) && i < |w.flushes|
    ensures Held(w.flushes[..i], w.flushes[i].did) == [] && Held(w.flushes[i + 1..], w.flushes[i].did) == []
  {
    HeldNothing(w.flushes[..i], w.flushes[i].did);
    HeldNothing(w.flushes[i + 1..], w.flushes[i].did);
  }

  lemma StepKeepsOneEach(w: World, e: Event)
    requires OneEach(w.flushes) && Enabled(w, e)
    requires e.Begin? ==> forall f :: f in w.flushes ==> f.did != e.did
    ensures OneEach(Next(w, e).flushes)
  {
  }

  lemma SendStaysStraight(t: Tally, rest: seq<Bytes>)
    requires Straight(t) && t.held == rest != []
    ensures Straight(t.(sent := t.sent + [rest[0]], held := rest[1..]))
  {
  }

  lemma BeginStaysStraight(t: Tally)
    requires Straight(t) && t.held == []
    ensures Straight(t.(held := t.held + t.pending, pending := []))
  {
  }

  lemma FailStaysStraight(t: Tally)
    requires Straight(t)
    ensures Straight(t.(held := [], pending := t.held + t.pending))
  {
  }

  lemma SendKeepsOrder(w: World, i: nat, did: Did)
    requires OneEach(w.flushes) && InOrderFor(w, did) && Enabled(w, Send(i))
    ensures InOrderFor(Next(w, Send(i)), did)
  {
    SendTally(w, i, did);
    if w.flushes[i].did == did {
      OthersHoldNothing(w, i);
      var rest := w.flushes[i].rest;
      assert [] + rest + [] == rest && [] + rest[1..] + [] == rest[1..];
      SendStaysStraight(TallyOf(w, did), rest);
    }
  }

  lemma FailKeepsOrder(w: World, i: nat, did: Did)
    requires OneEach(w.flushes) && InOrderFor(w, did) && Enabled(w, Fail(i))
    ensures InOrderFor(Next(w, Fail(i)), did)
  {
    FailTally(w, i, did);
    if w.flushes[i].did == did {
      OthersHoldNothing(w, i);
      var rest := w.flushes[i].rest;
      assert [] + rest + [] == rest;
      FailStaysStraight(TallyOf(w, did));
    }
  }

  lemma BeginKeepsOrder(w: World, d: Did, did: Did)
    requires InOrderFor(w, did) && forall f :: f in w.flushes ==> f.did != d
    ensures InOrderFor(Next(w, Begin(d)), did)
  {
    BeginTally(w, d, did);
    if d == did {
      HeldNothing(w.flushes, d);
      BeginStaysStraight(TallyOf(w, did));
    }
  }

  lemma StepKeepsOrder(w: World, e: Event)
    requires InOrder(w) && Enabled(w, e)
    requires e.Begin? ==> forall f :: f in w.flushes ==> f.did != e.did
    ensures InOrder(Next(w, e))
  {
    StepKeepsOneEach(w, e);
    forall did
      ensures InOrderFor(Next(w, e), did)
    {
      StepKeepsOrderFor(w, e, did);
    }
  }

  lemma QueueKeepsOrder(w: World, d: Did, msg: Bytes, did: Did)
    requires InOrderFor(w, did)
    ensures InOrderFor(Next(w, Queue(d, msg)), did)
  {
    var t := TallyOf(w, did);
    QueueTally(w, d, msg, did);
    assert t.sent + t.held + t.pending + [msg] == t.sent + t.held + (t.pending + [msg]);
  }

  lemma StepKeepsOrderFor(w: World, e: Event, did: Did)
    requires OneEach(w.flushes) && InOrderFor(w, did) && Enabled(w, e)
    requires e.Begin? ==> forall f :: f in w.flushes ==> f.did != e.did
    ensures InOrderFor(Next(w, e), did)
  {
    match e
    case Queue(d, msg) => QueueKeepsOrder(w, d, msg, did);
    case Begin(d) => BeginKeepsOrder(w, d, did);
    case Send(i) => SendKeepsOrder(w, i, did);
    case Fail(i) => FailKeepsOrder(w, i, did);
    case Finish(i) => FinishTally(w, i, did);
  }

  lemma {:induction false} RunKeepsOrder(w: World, es: seq<Event>)
    requires InOrder(w) && IsRun(w, es) && NoOverlap(w, es)
    ensures InOrder(After(w, es))
    decreases |es|
  {
    if es != [] {
      StepKeepsOrder(w, es[0]);
      RunKeepsOrder(Next(w, es[0]), es[1..]);
    }
  }

  /** If flushes of one destination never overlap, what was sent is a prefix of what was queued. */
  lemma SentInOrder(es: seq<Event>, did: Did)
    requires IsRun(START, es) && NoOverlap(START, es)
    ensures Waiting(After(START, es).sent, did) <= Waiting(After(START, es).queued, did)
  {
    RunKeepsOrder(START, es);
    var t := TallyOf(After(START, es), did);
    assert InOrderFor(After(START, es), did);
    StraightIsPrefix(t);
  }

  lemma StraightIsPrefix(t: Tally)
    requires Straight(t)
    ensures t.sent <= t.queued
  {
    assert t.queued == t.sent + (t.held + t.pending);
  }

  /** The next flush under way, when it has sent n of the messages it took. */
  function Sends(i: nat, n: nat): seq<Event> {
    if n == 0 then [] else [Send(i)] + Sends(i, n - 1)
  }

  /** Sending n of what the last flush holds sends a prefix of it, and nothing is queued or put back. */
  lemma {:induction false} SendsTally(w: World, i: nat, n: nat, did: Did)
    requires i == |w.flushes| - 1 && n <= |w.flushes[i].rest| && w.flushes[i].did == did
    ensures IsRun(w, Sends(i, n))
    ensures var w' := After(w, Sends(i, n));
            && Waiting(w'.sent, did) == Waiting(w.sent, did) + w.flushes[i].rest[..n]
            && w'.queued == w.queued && w'.pending == w.pending
    decreases n
  {
    if n > 0 {
      var w1 := Next(w, Send(i));
      LastSends(w, i, did);
      SendsTally(w1, i, n - 1, did);
      RunCons(w, Send(i), Sends(i, n - 1));
      HeadThenRest(Waiting(w.sent, did), w.flushes[i].rest, n);
    }
  }

  lemma HeadThenRest(a: seq<Bytes>, b: seq<Bytes>, n: nat)
    requires 0 < n <= |b|
    ensures a + [b[0]] + b[1..][..n - 1] == a + b[..n]
  {
  }

  lemma LastSends(w: World, i: nat, did: Did)
    requires i == |w.flushes| - 1 && w.flushes[i].did == did && w.flushes[i].rest != []
    ensures var w', rest := Next(w, Send(i)), w.flushes[i].rest;
            && |w'.flushes| == i + 1 && w'.flushes[i] == Flush(did, rest[1..])
            && Waiting(w'.sent, did) == Waiting(w.sent, did) + [rest[0]]
            && w'.queued == w.queued && w'.pending == w.pending
  {
  }

  /** One more flush, after its first n messages. */
  lemma FlushSendsTally(w: World, did: Did, n: nat)
    requires n <= |Waiting(w.pending, did)|
    ensures var es := [Begin(did)] + Sends(|w.flushes|, n);
            && IsRun(w, es)
            && Waiting(After(w, es).sent, did) == Waiting(w.sent, did) + Waiting(w.pending, did)[..n]
            && After(w, es).queued == w.queued
  {
    SendsTally(Next(w, Begin(did)), |w.flushes|, n, did);
    RunCons(w, Begin(did), Sends(|w.flushes|, n));
  }

  /**
   * When one more flush keeps the order: started from any state in order, it has sent, after its
   * first n messages, a prefix of what was queued exactly when those n are also the next n overall,
   * counting what other flushes of the destination still hold before them.
   */
  lemma FlushKeepsOrderIff(w: World, did: Did, n: nat)
    requires InOrderFor(w, did) && n <= |Waiting(w.pending, did)|
    ensures var es := [Begin(did)] + Sends(|w.flushes|, n); var pending := Waiting(w.pending, did);
            && IsRun(w, es)
            && (Waiting(After(w, es).sent, did) <= Waiting(After(w, es).queued, did) <==>
                  pending[..n] <= Held(w.flushes, did) + pending)
  {
    FlushSendsTally(w, did, n);
    StraightPrefixIff(TallyOf(w, did), Waiting(w.pending, did)[..n]);
  }

  lemma StraightPrefixIff(t: Tally, next: seq<Bytes>)
    requires Straight(t)
    ensures t.sent + next <= t.queued <==> next <= t.held + t.pending
  {
    assert t.queued == t.sent + (t.held + t.pending);
    PrefixBehind(t.sent, next, t.held + t.pending);
  }

  lemma PrefixBehind(a: seq<Bytes>, b: seq<Bytes>, c: seq<Bytes>)
    ensures a + b <= a + c <==> b <= c
  {
    if |b| <= |c| {
      assert (a + c)[..|a| + |b|] == a + c[..|b|];
      assert a + b == a + c[..|b|] ==> b == (a + b)[|a|..] == (a + c[..|b|])[|a|..] == c[..|b|];
    }
  }

  /** So one overlapping send keeps the order exactly when nothing is held or the same message comes first anyway. */
  lemma OverlapKeepsOrderIff(w: World, did: Did)
    requires InOrderFor(w, did) && Waiting(w.pending, did) != []
    ensures var es := [Begin(did)] + Sends(|w.flushes|, 1);
            var pending, held := Waiting(w.pending, did), Held(w.flushes, did);
            && IsRun(w, es)
            && (Waiting(After(w, es).sent, did) <= Waiting(After(w, es).queued, did) <==>
                  held == [] || held[0] == pending[0])
  {
    FlushKeepsOrderIff(w, did, 1);
    var pending, held := Waiting(w.pending, did), Held(w.flushes, did);
    assert pending[..1] == [pending[0]];
    assert (held + pending)[0] == if held == [] then pending[0] else held[0];
  }

  /** In particular two messages go out in the wrong order whenever the second is flushed while the first is held. */
  lemma OverlapReorders(w: World, did: Did)
    requires InOrderFor(w, did) && Waiting(w.pending, did) != [] && Held(w.flushes, did) != []
    requires Held(w.flushes, did)[0] != Waiting(w.pending, did)[0]
    ensures var es := [Begin(did)] + Sends(|w.flushes|, 1);
            IsRun(w, es) && !(Waiting(After(w, es).sent, did) <= Waiting(After(w, es).queued, did))
  {
    OverlapKeepsOrderIff(w, did);
  }

  /** Such a state is soon reached: queue one message, take it up in a flush, and queue another. */
  lemma OverlapArises(did: Did, m: Bytes, n: Bytes)
    requires m != n
    ensures var es := [Queue(did, m), Begin(did), Queue(did, n)];
            && IsRun(START, es) && InOrder(After(START, es))
            && Held(After(START, es).flushes, did) == [m] && Waiting(After(START, es).pending, did) == [n]
  {
    var w1 := Next(START, Queue(did, m));
    var w2 := Next(w1, Begin(did));
    var w3 := Next(w2, Queue(did, n));
    StepKeepsOrder(START, Queue(did, m));
    StepKeepsOrder(w1, Begin(did));
    StepKeepsOrder(w2, Queue(did, n));
    RunCons(w2, Queue(did, n), []);
    RunCons(w1, Begin(did), [Queue(did, n)]);
    RunCons(START, Queue(did, m), [Begin(did), Queue(did, n)]);
    assert [] + [m] == [m] && [] + [n] == [n] && [Flush(did, [m])][1..] == [];
    assert w1.pending == map[did := [m]];
    assert w2.flushes == [Flush(did, [m])] && w2.pending == map[did := []];
    assert w3.pending == map[did := [n]];
  }

  lemma RunCons(w: World, e: Event, es: seq<Event>)
    requires Enabled(w, e) && IsRun(Next(w, e), es)
    ensures IsRun(w, [e] + es) && After(w, [e] + es) == After(Next(w, e), es)
  {
    assert ([e] + es)[1..] == es;
  }

  lemma {:induction false} RunConcat(w: World, a: seq<Event>, b: seq<Event>)
    requires IsRun(w, a) && IsRun(After(w, a), b)
    ensures IsRun(w, a + b) && After(w, a + b) == After(After(w, a), b)
    decreases |a|
  {
    if a == [] {
      assert a + b == b;
    } else {
      assert (a + b)[1..] == a[1..] + b;
      RunConcat(Next(w, a[0]), a[1..], b);
    }
  }

  // ---------------------------------------------------------------------------------------
  // The queue itself
  // ---------------------------------------------------------------------------------------

  /** What others leave of the queues during each of the first n sends, when the lock is free. */
  function During(p: Pending, others: (nat, Pending) -> Pending, n: nat): Pending {
    if n == 0 then p else others(n - 1, During(p, others, n - 1))
  }

  /** Where flush i stands after an event of another caller: flushes that end make room. */
  function Track(i: nat, e: Event): nat {
    if (e.Fail? || e.Finish?) && e.i < i then i - 1 else i
  }

  function TrackAll(i: nat, es: seq<Event>): nat {
    if es == [] then i else TrackAll(Track(i, es[0]), es[1..])
  }

  /** The events are other callers': none of them is flush i's own. */
  ghost predicate Apart(i: nat, es: seq<Event>) {
    es == [] || ((es[0].Send? || es[0].Fail? || es[0].Finish? ==> es[0].i != i) && Apart(Track(i, es[0]), es[1..]))
  }

  lemma {:induction false} ApartLeaves(w: World, i: nat, es: seq<Event>)
    requires IsRun(w, es) && Apart(i, es) && i < |w.flushes|
    ensures TrackAll(i, es) < |After(w, es).flushes|
    ensures After(w, es).flushes[TrackAll(i, es)] == w.flushes[i]
    decreases |es|
  {
    if es != [] {
      var w' := Next(w, es[0]);
      assert Track(i, es[0]) < |w'.flushes| && w'.flushes[Track(i, es[0])] == w.flushes[i];
      ApartLeaves(w', Track(i, es[0]), es[1..]);
    }
  }

  /** From round j to round n: what others do, then the flush's own next send. */
  function Rounds(i: nat, acts: nat -> seq<Event>, j: nat, n: nat): seq<Event>
    decreases n - j
  {
    if j >= n then []
    else
      var i' := TrackAll(i, acts(j));
      acts(j) + [Send(i')] + Rounds(i', acts, j + 1, n)
  }

  function Place(i: nat, acts: nat -> seq<Event>, j: nat, n: nat): nat
    decreases n - j
  {
    if j >= n then i else Place(TrackAll(i, acts(j)), acts, j + 1, n)
  }

  /** In each round the others' acts are possible, are not the flush's own, and leave the queues as `others` says. */
  ghost predicate Lets(w: World, i: nat, acts: nat -> seq<Event>, others: (nat, Pending) -> Pending, j: nat, n: nat)
    decreases n - j
  {
    j >= n ||
    (&& IsRun(w, acts(j)) && Apart(i, acts(j))
     && After(w, acts(j)).pending == others(j, w.pending)
     && var w', i' := After(w, acts(j)), TrackAll(i, acts(j));
        Enabled(w', Send(i')) ==> Lets(Next(w', Send(i')), i', acts, others, j + 1, n))
  }

  lemma {:induction false} RoundsRun(w: World, i: nat, acts: nat -> seq<Event>, others: (nat, Pending) -> Pending,
                                     base: Pending, j: nat, n: nat, end: nat)
    requires i < |w.flushes| && j <= n <= end && n - j <= |w.flushes[i].rest|
    requires Lets(w, i, acts, others, j, end) && w.pending == During(base, others, j)
    ensures var es, place, f := Rounds(i, acts, j, n), Place(i, acts, j, n), w.flushes[i];
            && IsRun(w, es)
            && var w' := After(w, es);
               && w'.pending == During(base, others, n)
               && place < |w'.flushes| && w'.flushes[place] == Flush(f.did, f.rest[n - j..])
               && Lets(w', place, acts, others, n, end)
    decreases n - j
  {
    if j < n {
      var w1, i1 := After(w, acts(j)), TrackAll(i, acts(j));
      ApartLeaves(w, i, acts(j));
      var w2, rest := Next(w1, Send(i1)), w.flushes[i].rest;
      OwnSend(w1, i1);
      RoundsRun(w2, i1, acts, others, base, j + 1, n, end);
      DropTail(rest, n - j);
      OneRound(w, i, acts, j, n);
    }
  }

  lemma DropTail(a: seq<Bytes>, n: nat)
    requires 0 < n <= |a|
    ensures a[1..][n - 1..] == a[n..]
  {
  }

  lemma OwnSend(w: World, i: nat)
    requires Enabled(w, Send(i))
    ensures var w', f := Next(w, Send(i)), w.flushes[i];
            w'.pending == w.pending && i < |w'.flushes| && w'.flushes[i] == Flush(f.did, f.rest[1..])
  {
  }

  lemma OneRound(w: World, i: nat, acts: nat -> seq<Event>, j: nat, n: nat)
    requires j < n && IsRun(w, acts(j)) && Enabled(After(w, acts(j)), Send(TrackAll(i, acts(j))))
    requires var i1 := TrackAll(i, acts(j)); IsRun(Next(After(w, acts(j)), Send(i1)), Rounds(i1, acts, j + 1, n))
    ensures IsRun(w, Rounds(i, acts, j, n))
    ensures var i1 := TrackAll(i, acts(j));
            After(w, Rounds(i, acts, j, n)) == After(Next(After(w, acts(j)), Send(i1)), Rounds(i1, acts, j + 1, n))
  {
    var w1, i1 := After(w, acts(j)), TrackAll(i, acts(j));
    var rest := Rounds(i1, acts, j + 1, n);
    RunCons(w1, Send(i1), rest);
    RunConcat(w, acts(j), [Send(i1)] + rest);
    assert acts(j) + [Send(i1)] + rest == acts(j) + ([Send(i1)] + rest);
  }

  /** A flush that sends everything, or fails after some, as a run of the step system. */
  function FlushEvents(w: World, did: Did, acts: nat -> seq<Event>, sent: nat, ok: bool): seq<Event> {
    var i := Place(|w.flushes|, acts, 0, sent);
    [Begin(did)] + (Rounds(|w.flushes|, acts, 0, sent) +
                    if ok then [Finish(i)] else acts(sent) + [Fail(TrackAll(i, acts(sent)))])
  }

  /**
   * A call of `FlushForDID` is a run of the step system: it begins a flush, lets others act before
   * each of its sends, and finishes or, on the first refusal, fails; and the run leaves the queues
   * as the method says.
   */
  lemma FlushIsRun(w: World, did: Did, acts: nat -> seq<Event>, others: (nat, Pending) -> Pending, sent: nat, ok: bool)
    requires sent <= |Waiting(w.pending, did)| && (ok <==> sent == |Waiting(w.pending, did)|)
    requires Lets(Next(w, Begin(did)), |w.flushes|, acts, others, 0, if ok then sent else sent + 1)
    ensures var es, base := FlushEvents(w, did, acts, sent, ok), Take(w.pending, did);
            && IsRun(w, es)
            && After(w, es).pending ==
               if ok then During(base, others, sent)
               else Requeue(During(base, others, sent + 1), did, Waiting(w.pending, did)[sent..])
  {
    var w1, base, msgs := Next(w, Begin(did)), Take(w.pending, did), Waiting(w.pending, did);
    var rounds, i := Rounds(|w.flushes|, acts, 0, sent), Place(|w.flushes|, acts, 0, sent);
    RoundsRun(w1, |w.flushes|, acts, others, base, 0, sent, if ok then sent else sent + 1);
    var w2 := After(w1, rounds);
    if ok {
      RunCons(w2, Finish(i), []);
      RunConcat(w1, rounds, [Finish(i)]);
      RunCons(w, Begin(did), rounds + [Finish(i)]);
    } else {
      var i' := TrackAll(i, acts(sent));
      ApartLeaves(w2, i, acts(sent));
      RunCons(After(w2, acts(sent)), Fail(i'), []);
      RunConcat(w2, acts(sent), [Fail(i')]);
      RunConcat(w1, rounds, acts(sent) + [Fail(i')]);
      RunCons(w, Begin(did), rounds + (acts(sent) + [Fail(i')]));
    }
  }

  class Queues {
    var pending: Pending

    constructor ()
      ensures pending == map[]
    {
      pending := map[];
    }

    method Queue(did: Did, msg: Bytes)
      modifies this
      ensures pending == Enqueue(old(pending), did, msg)
    {
      if did !in pending {
        pending := pending[did := []];
      }
      pending := pending[did := pending[did] + [msg]];
    }

    /**
     * `attempts` are the messages handed to the send function, `accepts(i)` the outcome of the i-th;
     * `others(i, _)` is what other callers make of the queues while it is under way and the lock is
     * free, by queueing and by flushing. On the first failure the unsent messages go back in front of
     * what is pending by then.
     */
    method FlushForDID(did: Did, accepts: nat -> bool, others: (nat, Pending) -> Pending)
      returns (sent: nat, ok: bool, attempts: seq<Bytes>)
      modifies this
      ensures var msgs, base := Waiting(old(pending), did), Take(old(pending), did);
              && sent <= |msgs|
              && (forall i :: 0 <= i < sent ==> accepts(i))
              && (ok ==> sent == |msgs| && attempts == msgs && pending == During(base, others, sent))
              && (!ok ==> sent < |msgs| && !accepts(sent) && attempts == msgs[..sent + 1]
                          && pending == Requeue(During(base, others, sent + 1), did, msgs[sent..]))
    {
      var msgs := if did in pending then pending[did] else [];
      pending := pending[did := []];
      sent, attempts := 0, [];
      for i := 0 to |msgs|
        invariant attempts == msgs[..i]
        invariant sent == i && forall j :: 0 <= j < i ==> accepts(j)
        invariant pending == During(Take(old(pending), did), others, i)
      {
        attempts := attempts + [msgs[i]];
        pending := others(i, pending);
        if !accepts(i) {
          pending := pending[did := msgs[sent..] + Waiting(pending, did)];
          return sent, false, attempts;
        }
        sent := sent + 1;
      }
      ok := true;
    }

    method PendingCount(did: Did) returns (n: nat)
      ensures n == |Waiting(pending, did)|
    {
      n := if did in pending then |pending[did]| else 0;
    }
  }
}
