/**
 * Mutual authentication (ts/linkself/src/auth.ts:110-206): the two honest sides as a step system
 * over byte streams, and one side as the program it is. Signatures are ideal: a signature
 * verifies if it is the one the named DID's key makes.
 */
module MutualAuth {
  import opened Common
  import opened Framing

  const CHALLENGE_SIZE := 32
  const MAX_DID_SIZE := 0x1000
  const MAX_SIGNATURE_SIZE := 0x10_0000

  datatype Role = Initiator | Responder

  function Peer(x: Role): Role {
    if x == Initiator then Responder else Initiator
  }

  datatype Instr =
    | SendIntro | ReadDidLen | ReadDid | ReadChallenge | CheckPeer
    | SendSig | ReadSigLen | ReadSig | VerifySig

  /** The order in which each side talks and listens: nine instructions each. */
  function InstrAt(x: Role, pc: nat): Instr {
    match x
    case Initiator =>
      if pc == 0 then SendIntro else if pc == 1 then ReadDidLen else if pc == 2 then ReadDid
      else if pc == 3 then ReadChallenge else if pc == 4 then CheckPeer else if pc == 5 then SendSig
      else if pc == 6 then ReadSigLen else if pc == 7 then ReadSig else VerifySig
    case Responder =>
      if pc == 0 then ReadDidLen else if pc == 1 then ReadDid else if pc == 2 then ReadChallenge
      else if pc == 3 then SendIntro else if pc == 4 then CheckPeer else if pc == 5 then ReadSigLen
      else if pc == 6 then ReadSig else if pc == 7 then SendSig else VerifySig
  }

  datatype Error = DidTooLarge | WrongPeer | SignatureTooLarge | AuthFailed | Ended

  /** A side's identity, its random challenge, and the DID it insists on, if any. */
  datatype Party = Party(did: Bytes, challenge: Bytes, expected: Option<Bytes>)

  datatype Setup = Setup(initiator: Party, responder: Party, sign: (Bytes, Bytes) -> Bytes)
  {
    function Of(x: Role): Party {
      if x == Initiator then initiator else responder
    }
  }

  function Intro(p: Party): Bytes {
    U32(|p.did|) + p.did + p.challenge
  }

  function SigFrame(sig: Bytes): Bytes {
    U32(|sig|) + sig
  }

  /** The signature side x makes over its peer's challenge. */
  function Signature(t: Setup, x: Role): Bytes {
    t.sign(t.Of(x).did, t.Of(Peer(x)).challenge)
  }

  /** Lengths fit their 32-bit prefixes and challenges have their fixed size. */
  ghost predicate WellSized(t: Setup) {
    forall x: Role ::
      |t.Of(x).challenge| == CHALLENGE_SIZE && |t.Of(x).did| < 0x1_0000_0000 && |Signature(t, x)| < 0x1_0000_0000
  }

  /** What each side demands of the other. */
  ghost predicate Acceptable(t: Setup, x: Role) {
    && |t.Of(x).did| <= MAX_DID_SIZE
    && |Signature(t, x)| <= MAX_SIGNATURE_SIZE
    && (t.Of(Peer(x)).expected.Some? ==> t.Of(Peer(x)).expected.value == t.Of(x).did)
  }

  // ---------------------------------------------------------------------------------------
  // The step system
  // ---------------------------------------------------------------------------------------

  /** `buffer` has arrived and is unread; `inbox` is still under way to this side. */
  datatype Local = Local(pc: nat, failed: Option<Error>, buffer: Bytes, inbox: Bytes,
                         len: nat, did: Bytes, challenge: Bytes, sig: Bytes)

  datatype World = World(initiator: Local, responder: Local)
  {
    function Of(x: Role): Local {
      if x == Initiator then initiator else responder
    }

    function With(x: Role, l: Local): World {
      if x == Initiator then this.(initiator := l) else this.(responder := l)
    }
  }

  const IDLE := Local(0, None, [], [], 0, [], [], [])
  const START := World(IDLE, IDLE)

  predicate Running(l: Local) {
    l.failed.None? && l.pc < 9
  }

  predicate Returned(l: Local) {
    l.failed.None? && l.pc == 9
  }

  function Need(i: Instr, l: Local): nat {
    match i
    case ReadDidLen => 4
    case ReadDid => l.len
    case ReadChallenge => CHALLENGE_SIZE
    case ReadSigLen => 4
    case ReadSig => l.len
    case _ => 0
  }

  function Current(w: World, x: Role): Instr
    requires w.Of(x).pc < 9
  {
    InstrAt(x, w.Of(x).pc)
  }

  /** A read waits until its bytes have arrived; everything else goes ahead. */
  predicate CanAct(w: World, x: Role) {
    Running(w.Of(x)) && |w.Of(x).buffer| >= Need(Current(w, x), w.Of(x))
  }

  /** What one instruction does to its own side. */
  function Do(t: Setup, x: Role, i: Instr, l: Local): Local
    requires |l.buffer| >= Need(i, l)
  {
    var n := Need(i, l);
    var next := l.(pc := l.pc + 1, buffer := l.buffer[n..]);
    match i
    case SendIntro => next
    case ReadDidLen =>
      var len := FromU32(l.buffer[..4]);
      if len > MAX_DID_SIZE then l.(failed := Some(DidTooLarge)) else next.(len := len)
    case ReadDid => next.(did := l.buffer[..n])
    case ReadChallenge => next.(challenge := l.buffer[..n])
    case CheckPeer =>
      var expected := t.Of(x).expected;
      if expected.Some? && l.did != expected.value then l.(failed := Some(WrongPeer)) else next
    case SendSig => next
    case ReadSigLen =>
      var len := FromU32(l.buffer[..4]);
      if len > MAX_SIGNATURE_SIZE then l.(failed := Some(SignatureTooLarge)) else next.(len := len)
    case ReadSig => next.(sig := l.buffer[..n])
    case VerifySig =>
      if l.sig == t.sign(l.did, t.Of(x).challenge) then next else l.(failed := Some(AuthFailed))
  }

  /** The bytes one instruction sends to the peer. */
  function Sends(t: Setup, x: Role, i: Instr, l: Local): Bytes {
    match i
    case SendIntro => Intro(t.Of(x))
    case SendSig => SigFrame(t.sign(t.Of(x).did, l.challenge))
    case _ => []
  }

  function Act(t: Setup, w: World, x: Role): World
    requires CanAct(w, x)
  {
    var i, l, p := Current(w, x), w.Of(x), w.Of(Peer(x));
    w.With(x, Do(t, x, i, l)).With(Peer(x), p.(inbox := p.inbox + Sends(t, x, i, l)))
  }

  /** The transport hands over the next k bytes, in whatever portions it likes. */
  predicate CanDeliver(w: World, x: Role, k: nat) {
    0 < k <= |w.Of(x).inbox|
  }

  function Deliver(w: World, x: Role, k: nat): World
    requires CanDeliver(w, x, k)
  {
    var l := w.Of(x);
    w.With(x, l.(buffer := l.buffer + l.inbox[..k], inbox := l.inbox[k..]))
  }

  datatype Event = Acts(x: Role) | Delivers(x: Role, k: nat)

  predicate Enabled(w: World, e: Event) {
    match e
    case Acts(x) => CanAct(w, x)
    case Delivers(x, k) => CanDeliver(w, x, k)
  }

  function Next(t: Setup, w: World, e: Event): World
    requires Enabled(w, e)
  {
    match e
    case Acts(x) => Act(t, w, x)
    case Delivers(x, k) => Deliver(w, x, k)
  }

  predicate IsRun(t: Setup, w: World, es: seq<Event>)
    decreases |es|
  {
    es == [] || (Enabled(w, es[0]) && IsRun(t, Next(t, w, es[0]), es[1..]))
  }

  function After(t: Setup, w: World, es: seq<Event>): World
    requires IsRun(t, w, es)
    decreases |es|
  {
    if es == [] then w else After(t, Next(t, w, es[0]), es[1..])
  }

  /** A run takes its steps one after the other. */
  lemma {:induction false} AfterAppend(t: Setup, w: World, es: seq<Event>, e: Event)
    requires IsRun(t, w, es)
    ensures IsRun(t, w, es + [e]) <==> Enabled(After(t, w, es), e)
    ensures Enabled(After(t, w, es), e) ==> After(t, w, es + [e]) == Next(t, After(t, w, es), e)
    decreases |es|
  {
    if es == [] {
      assert es + [e] == [e] && [e][1..] == [];
    } else {
      assert (es + [e])[0] == es[0] && (es + [e])[1..] == es[1..] + [e];
      AfterAppend(t, Next(t, w, es[0]), es[1..], e);
    }
  }

  // ---------------------------------------------------------------------------------------
  // The invariant
  // ---------------------------------------------------------------------------------------

  /** Everything side x will ever send. */
  function Stream(t: Setup, x: Role): Bytes {
    Intro(t.Of(x)) + SigFrame(Signature(t, x))
  }

  /** How much of its stream side x has sent when it stands at pc. */
  function SentLen(t: Setup, x: Role, pc: nat): nat {
    var intro, total := |Intro(t.Of(x))|, |Stream(t, x)|;
    match x
    case Initiator => if pc < 1 then 0 else if pc < 6 then intro else total
    case Responder => if pc < 4 then 0 else if pc < 8 then intro else total
  }

  /** How much of its peer's stream side x has read when it stands at pc. */
  function ReadLen(t: Setup, x: Role, pc: nat): nat {
    var y := Peer(x);
    var did, sig := |t.Of(y).did|, |Signature(t, y)|;
    var intro := |Intro(t.Of(y))|;
    match x
    case Initiator =>
      if pc < 2 then 0 else if pc < 3 then 4 else if pc < 4 then 4 + did
      else if pc < 7 then intro else if pc < 8 then intro + 4 else intro + 4 + sig
    case Responder =>
      if pc < 1 then 0 else if pc < 2 then 4 else if pc < 3 then 4 + did
      else if pc < 6 then intro else if pc < 7 then intro + 4 else intro + 4 + sig
  }

  /** What side x has read is what its peer sent: arrived and coming bytes continue it exactly. */
  ghost predicate InStep(t: Setup, w: World, x: Role) {
    var l, y := w.Of(x), Peer(x);
    var read, sent := ReadLen(t, x, l.pc), SentLen(t, y, w.Of(y).pc);
    && l.pc <= 9
    && read <= sent <= |Stream(t, y)|
    && l.buffer + l.inbox == Stream(t, y)[read..sent]
  }

  /** What side x has parsed is its peer's, and its peer has passed the checks x has made. */
  ghost predicate Parsed(t: Setup, x: Role, l: Local) {
    var y := Peer(x);
    var first, sigAt := if x == Initiator then 1 else 0, if x == Initiator then 6 else 5;
    && (l.pc == first + 1 ==> l.len == |t.Of(y).did|)
    && (l.pc > first ==> |t.Of(y).did| <= MAX_DID_SIZE)
    && (l.pc > first + 1 ==> l.did == t.Of(y).did)
    && (l.pc > first + 2 ==> l.challenge == t.Of(y).challenge)
    && (l.pc > 4 ==> t.Of(x).expected.Some? ==> t.Of(x).expected.value == t.Of(y).did)
    && (l.pc == sigAt + 1 ==> l.len == |Signature(t, y)|)
    && (l.pc > sigAt ==> |Signature(t, y)| <= MAX_SIGNATURE_SIZE)
    && (l.pc > sigAt + 1 ==> l.sig == Signature(t, y))
  }

  /** The first thing side x has to object to in its honest peer, if any. */
  function Objection(t: Setup, x: Role): Option<Error> {
    var y, expected := Peer(x), t.Of(x).expected;
    if |t.Of(y).did| > MAX_DID_SIZE then Some(DidTooLarge)
    else if expected.Some? && expected.value != t.Of(y).did then Some(WrongPeer)
    else if |Signature(t, y)| > MAX_SIGNATURE_SIZE then Some(SignatureTooLarge)
    else None
  }

  /** Where a side stands when it raises an objection. */
  predicate RaisedAt(i: Instr, e: Error) {
    match e
    case DidTooLarge => i == ReadDidLen
    case WrongPeer => i == CheckPeer
    case SignatureTooLarge => i == ReadSigLen
    case AuthFailed => i == VerifySig
    case Ended => false
  }

  /** A side fails only over that, and at the instruction that checks it. */
  ghost predicate Blames(t: Setup, x: Role, l: Local) {
    l.failed.Some? ==> l.failed == Objection(t, x) && l.pc < 9 && RaisedAt(InstrAt(x, l.pc), l.failed.value)
  }

  ghost predicate SideInv(t: Setup, w: World, x: Role) {
    InStep(t, w, x) && Parsed(t, x, w.Of(x)) && Blames(t, x, w.Of(x))
  }

  ghost predicate Inv(t: Setup, w: World) {
    SideInv(t, w, Initiator) && SideInv(t, w, Responder)
  }

  /** The fields of a stream, by position. */
  lemma StreamParts(t: Setup, x: Role)
    requires WellSized(t)
    ensures var s, did, sig := Stream(t, x), t.Of(x).did, Signature(t, x);
            var intro := 4 + |did| + CHALLENGE_SIZE;
            && |Intro(t.Of(x))| == intro
            && |s| == intro + 4 + |sig|
            && s[..4] == U32(|did|) && FromU32(U32(|did|)) == |did|
            && s[4..4 + |did|] == did
            && s[4 + |did|..intro] == t.Of(x).challenge
            && s[..intro] == Intro(t.Of(x))
            && s[intro..intro + 4] == U32(|sig|) && FromU32(U32(|sig|)) == |sig|
            && s[intro + 4..] == sig
  {
    var p, sig := t.Of(x), Signature(t, x);
    assert FromU32(U32(|p.did|)) == |p.did| && FromU32(U32(|sig|)) == |sig| by {
      U32RoundTrip(|p.did|);
      U32RoundTrip(|sig|);
    }
    assert |p.challenge| == CHALLENGE_SIZE;
    PiecesOf(p, sig);
  }

  lemma PiecesOf(p: Party, sig: Bytes)
    ensures var s := Intro(p) + SigFrame(sig); var i := 4 + |p.did|; var intro := i + |p.challenge|;
            && |Intro(p)| == intro && |SigFrame(sig)| == 4 + |sig|
            && s[..4] == U32(|p.did|) && s[4..i] == p.did && s[i..intro] == p.challenge
            && s[..intro] == Intro(p) && s[intro..intro + 4] == U32(|sig|) && s[intro + 4..] == sig
  {
    Pieces(U32(|p.did|), p.did, p.challenge, U32(|sig|), sig);
  }

  lemma Pieces(a: Bytes, b: Bytes, c: Bytes, d: Bytes, e: Bytes)
    ensures var s := a + b + c + (d + e); var i := |a| + |b| + |c|;
            && s[..|a|] == a && s[|a|..|a| + |b|] == b && s[|a| + |b|..i] == c
            && s[..i] == a + b + c && s[i..i + |d|] == d && s[i + |d|..] == e
  {
  }

  /** Reading n bytes off a buffer that continues a stream yields the stream's next n bytes. */
  lemma ReadAhead(s: Bytes, from: nat, to: nat, buffer: Bytes, inbox: Bytes, n: nat)
    requires from <= to <= |s| && buffer + inbox == s[from..to] && n <= |buffer|
    ensures from + n <= to
    ensures buffer[..n] == s[from..from + n]
    ensures buffer[n..] + inbox == s[from + n..to]
  {
    assert (buffer + inbox)[..n] == buffer[..n];
    assert (buffer + inbox)[n..] == buffer[n..] + inbox;
    assert s[from..to][..n] == s[from..from + n];
    assert s[from..to][n..] == s[from + n..to];
  }

  /** Sending appends the next part of the own stream to what is under way. */
  lemma SendAhead(s: Bytes, from: nat, to: nat, more: nat, buffer: Bytes, inbox: Bytes, out: Bytes)
    requires from <= to <= more <= |s| && buffer + inbox == s[from..to] && out == s[to..more]
    ensures buffer + (inbox + out) == s[from..more]
  {
    assert buffer + (inbox + out) == buffer + inbox + out;
    assert s[from..to] + s[to..more] == s[from..more];
  }

  /** A step either fails in place or moves on by one instruction, consuming what it read. */
  lemma DoShape(t: Setup, x: Role, i: Instr, l: Local)
    requires |l.buffer| >= Need(i, l) && l.failed.None?
    ensures var l' := Do(t, x, i, l);
            && l'.inbox == l.inbox
            && (l'.failed.Some? ==> l'.pc == l.pc && l'.buffer == l.buffer && !i.SendIntro? && !i.SendSig?)
            && (l'.failed.None? ==> l'.pc == l.pc + 1 && l'.buffer == l.buffer[Need(i, l)..])
  {
  }

  lemma ActShape(t: Setup, w: World, x: Role)
    requires CanAct(w, x)
    ensures var w', y := Act(t, w, x), Peer(x); var i, l := Current(w, x), w.Of(x);
            && w'.Of(x) == Do(t, x, i, l)
            && w'.Of(y) == w.Of(y).(inbox := w.Of(y).inbox + Sends(t, x, i, l))
  {
  }

  lemma ReadLenAdvances(t: Setup, x: Role, l: Local)
    requires WellSized(t) && Parsed(t, x, l) && l.pc < 9
    ensures ReadLen(t, x, l.pc + 1) == ReadLen(t, x, l.pc) + Need(InstrAt(x, l.pc), l)
  {
    StreamParts(t, Peer(x));
  }

  lemma SentLenSteps(t: Setup, x: Role, pc: nat)
    requires pc < 9
    ensures var intro := |Intro(t.Of(x))|; var from, to := SentLen(t, x, pc), SentLen(t, x, pc + 1);
            match InstrAt(x, pc)
            case SendIntro => from == 0 && to == intro
            case SendSig => from == intro && to == |Stream(t, x)|
            case _ => from == to <= |Stream(t, x)|
  {
  }

  /** By the time a side signs, it knows its peer's challenge. */
  lemma SendsSignature(t: Setup, x: Role, l: Local)
    requires Parsed(t, x, l) && l.pc < 9 && InstrAt(x, l.pc) == SendSig
    ensures Sends(t, x, SendSig, l) == SigFrame(Signature(t, x))
  {
  }

  /** What a step sends is the next part of the side's stream. */
  lemma SentAdvances(t: Setup, x: Role, l: Local)
    requires Parsed(t, x, l) && l.pc < 9 && l.failed.None? && |l.buffer| >= Need(InstrAt(x, l.pc), l)
    ensures var i := InstrAt(x, l.pc); var l' := Do(t, x, i, l);
            && SentLen(t, x, l.pc) <= SentLen(t, x, l'.pc) <= |Stream(t, x)|
            && Sends(t, x, i, l) == Stream(t, x)[SentLen(t, x, l.pc)..SentLen(t, x, l'.pc)]
  {
    var i := InstrAt(x, l.pc);
    var pc' := Do(t, x, i, l).pc;
    assert pc' == l.pc + 1 || (pc' == l.pc && !i.SendIntro? && !i.SendSig?) by {
      DoShape(t, x, i, l);
    }
    SentLenSteps(t, x, l.pc);
    if i == SendIntro {
      IntroComesFirst(t, x);
    } else if i == SendSig {
      SendsSignature(t, x, l);
      SigComesNext(t, x);
    } else {
      assert Sends(t, x, i, l) == [];
    }
  }

  lemma IntroComesFirst(t: Setup, x: Role)
    ensures Intro(t.Of(x)) == Stream(t, x)[0..|Intro(t.Of(x))|]
  {
  }

  lemma SigComesNext(t: Setup, x: Role)
    ensures SigFrame(Signature(t, x)) == Stream(t, x)[|Intro(t.Of(x))|..|Stream(t, x)|]
  {
  }

  /** What the acting side is about to read is the next piece of its peer's stream. */
  lemma ReadsNext(t: Setup, w: World, x: Role)
    requires InStep(t, w, x) && CanAct(w, x)
    ensures var l, y := w.Of(x), Peer(x); var n, s := Need(Current(w, x), l), Stream(t, y);
            var from, to := ReadLen(t, x, l.pc), SentLen(t, y, w.Of(y).pc);
            && from + n <= to <= |s|
            && l.buffer[..n] == s[from..from + n]
            && l.buffer[n..] + l.inbox == s[from + n..to]
  {
    var l, y := w.Of(x), Peer(x);
    ReadAhead(Stream(t, y), ReadLen(t, x, l.pc), SentLen(t, y, w.Of(y).pc), l.buffer, l.inbox, Need(Current(w, x), l));
  }

  /** The peer neither moves nor sends on behalf of the acting side. */
  lemma PeerStands(t: Setup, w: World, x: Role)
    requires CanAct(w, x)
    ensures Act(t, w, x).Of(Peer(x)).pc == w.Of(Peer(x)).pc
  {
    ActShape(t, w, x);
  }

  lemma ActKeepsInStep(t: Setup, w: World, x: Role)
    requires WellSized(t) && SideInv(t, w, x) && CanAct(w, x)
    ensures InStep(t, Act(t, w, x), x)
  {
    var i, l, l' := Current(w, x), w.Of(x), Act(t, w, x).Of(x);
    ActShape(t, w, x);
    DoShape(t, x, i, l);
    assert ReadLen(t, x, l.pc + 1) == ReadLen(t, x, l.pc) + Need(i, l) by {
      ReadLenAdvances(t, x, l);
    }
    if l'.failed.Some? {
      assert l'.buffer + l'.inbox == l.buffer + l.inbox;
    } else {
      ReadsNext(t, w, x);
      assert l'.buffer + l'.inbox == l.buffer[Need(i, l)..] + l.inbox;
    }
    PeerStands(t, w, x);
  }

  /** The field of the peer that an instruction reads. */
  ghost predicate ReadsFieldOf(t: Setup, y: Role, i: Instr, got: Bytes) {
    match i
    case ReadDidLen => |got| == 4 && FromU32(got) == |t.Of(y).did|
    case ReadDid => got == t.Of(y).did
    case ReadChallenge => got == t.Of(y).challenge
    case ReadSigLen => |got| == 4 && FromU32(got) == |Signature(t, y)|
    case ReadSig => got == Signature(t, y)
    case _ => true
  }

  /** Each instruction reads its own field of the peer's stream. */
  lemma ReadsField(t: Setup, w: World, x: Role)
    requires WellSized(t) && SideInv(t, w, x) && CanAct(w, x)
    ensures ReadsFieldOf(t, Peer(x), Current(w, x), w.Of(x).buffer[..Need(Current(w, x), w.Of(x))])
  {
    var l, s := w.Of(x), Stream(t, Peer(x));
    var from, n := ReadLen(t, x, l.pc), Need(Current(w, x), l);
    assert from + n <= |s| && l.buffer[..n] == s[from..from + n] by {
      ReadsNext(t, w, x);
    }
    FieldInStream(t, x, l);
  }

  /** The field each instruction reads lies where the reader then stands. */
  lemma FieldInStream(t: Setup, x: Role, l: Local)
    requires WellSized(t) && Parsed(t, x, l) && l.pc < 9
    requires ReadLen(t, x, l.pc) + Need(InstrAt(x, l.pc), l) <= |Stream(t, Peer(x))|
    ensures var from, i := ReadLen(t, x, l.pc), InstrAt(x, l.pc);
            ReadsFieldOf(t, Peer(x), i, Stream(t, Peer(x))[from..from + Need(i, l)])
  {
    StreamParts(t, Peer(x));
    match x
    case Initiator =>
    case Responder =>
  }

  /** Having read the right field, a side has parsed the right value, and fails only with reason. */
  lemma DoKeepsParsed(t: Setup, x: Role, l: Local)
    requires Parsed(t, x, l) && l.failed.None? && l.pc < 9 && |l.buffer| >= Need(InstrAt(x, l.pc), l)
    requires ReadsFieldOf(t, Peer(x), InstrAt(x, l.pc), l.buffer[..Need(InstrAt(x, l.pc), l)])
    ensures Parsed(t, x, Do(t, x, InstrAt(x, l.pc), l)) && Blames(t, x, Do(t, x, InstrAt(x, l.pc), l))
  {
    match x
    case Initiator =>
    case Responder =>
  }

  lemma ActKeepsOwn(t: Setup, w: World, x: Role)
    requires WellSized(t) && SideInv(t, w, x) && CanAct(w, x)
    ensures SideInv(t, Act(t, w, x), x)
  {
    ActKeepsInStep(t, w, x);
    ReadsField(t, w, x);
    DoKeepsParsed(t, x, w.Of(x));
    ActShape(t, w, x);
  }

  /** Its peer's half survives too: what was sent is the next part of the stream. */
  lemma ActKeepsPeer(t: Setup, w: World, x: Role)
    requires CanAct(w, x) && Parsed(t, x, w.Of(x)) && SideInv(t, w, Peer(x))
    ensures SideInv(t, Act(t, w, x), Peer(x))
  {
    var l, p := w.Of(x), w.Of(Peer(x));
    ActShape(t, w, x);
    SentAdvances(t, x, l);
    SendAhead(Stream(t, x), ReadLen(t, Peer(x), p.pc), SentLen(t, x, l.pc),
              SentLen(t, x, Do(t, x, Current(w, x), l).pc), p.buffer, p.inbox, Sends(t, x, Current(w, x), l));
  }

  /** Delivery moves bytes from under way to arrived, and touches nothing else. */
  lemma DeliverKeepsSide(t: Setup, w: World, x: Role, k: nat, z: Role)
    requires SideInv(t, w, z) && CanDeliver(w, x, k)
    ensures SideInv(t, Deliver(w, x, k), z)
  {
    var l, w' := w.Of(x), Deliver(w, x, k);
    assert l.buffer + l.inbox[..k] + l.inbox[k..] == l.buffer + l.inbox;
    assert w'.Of(x).pc == w.Of(x).pc && w'.Of(Peer(x)) == w.Of(Peer(x));
    assert z == x || z == Peer(x);
  }

  lemma NextKeepsInv(t: Setup, w: World, e: Event)
    requires WellSized(t) && Inv(t, w) && Enabled(w, e)
    ensures Inv(t, Next(t, w, e))
  {
    match e
    case Acts(x) =>
      ActKeepsOwn(t, w, x);
      ActKeepsPeer(t, w, x);
    case Delivers(x, k) =>
      DeliverKeepsSide(t, w, x, k, x);
      DeliverKeepsSide(t, w, x, k, Peer(x));
  }

  lemma {:induction false} RunKeepsInv(t: Setup, w: World, es: seq<Event>)
    requires WellSized(t) && Inv(t, w) && IsRun(t, w, es)
    ensures Inv(t, After(t, w, es))
    decreases |es|
  {
    if es != [] {
      NextKeepsInv(t, w, es[0]);
      RunKeepsInv(t, Next(t, w, es[0]), es[1..]);
    }
  }

  // ---------------------------------------------------------------------------------------
  // No deadlock, termination, agreement
  // ---------------------------------------------------------------------------------------

  /** A side that waits has read all its peer has sent so far. */
  lemma WaitingMeansBehind(t: Setup, w: World, x: Role)
    requires WellSized(t) && Inv(t, w) && Running(w.Of(x)) && !CanAct(w, x) && w.Of(x).inbox == []
    ensures SentLen(t, Peer(x), w.Of(Peer(x)).pc) < ReadLen(t, x, w.Of(x).pc + 1)
  {
    StreamParts(t, Peer(x));
    ReadLenAdvances(t, x, w.Of(x));
  }

  /** As long as nobody has failed and somebody has not returned, somebody can move. */
  lemma SomebodyCanMove(t: Setup, w: World)
    requires WellSized(t) && Inv(t, w)
    requires w.initiator.failed.None? && w.responder.failed.None?
    requires !(Returned(w.initiator) && Returned(w.responder))
    ensures exists e :: Enabled(w, e)
  {
    var i, r := w.initiator, w.responder;
    StreamParts(t, Initiator);
    StreamParts(t, Responder);
    if i.inbox != [] {
      assert Enabled(w, Delivers(Initiator, 1));
    } else if r.inbox != [] {
      assert Enabled(w, Delivers(Responder, 1));
    } else if CanAct(w, Initiator) {
      assert Enabled(w, Acts(Initiator));
    } else if CanAct(w, Responder) {
      assert Enabled(w, Acts(Responder));
    } else {
      if Running(i) {
        WaitingMeansBehind(t, w, Initiator);
      }
      if Running(r) {
        WaitingMeansBehind(t, w, Responder);
      }
      assert false;
    }
  }

  /** Instructions left, plus bytes of the peer's stream that have not arrived, on both sides. */
  function Remaining(t: Setup, w: World): int {
    RemainingOf(t, Initiator, w.initiator) + RemainingOf(t, Responder, w.responder)
  }

  /** One side's share of what remains. */
  function RemainingOf(t: Setup, x: Role, l: Local): int {
    (9 - l.pc) + (|Stream(t, Peer(x))| - ReadLen(t, x, l.pc) - |l.buffer|) + (if l.failed.None? then 1 else 0)
  }

  lemma RemainingOfIsNat(t: Setup, w: World, x: Role)
    requires SideInv(t, w, x)
    ensures RemainingOf(t, x, w.Of(x)) >= 0
  {
    var l, y := w.Of(x), Peer(x);
    assert |l.buffer + l.inbox| == SentLen(t, y, w.Of(y).pc) - ReadLen(t, x, l.pc);
  }

  lemma DoFalls(t: Setup, x: Role, l: Local)
    requires WellSized(t) && Parsed(t, x, l) && l.pc < 9 && l.failed.None? && |l.buffer| >= Need(InstrAt(x, l.pc), l)
    ensures RemainingOf(t, x, Do(t, x, InstrAt(x, l.pc), l)) < RemainingOf(t, x, l)
  {
    ReadLenAdvances(t, x, l);
    DoShape(t, x, InstrAt(x, l.pc), l);
  }

  /** A step brings its own side nearer the end and leaves the other side where it was. */
  lemma RemainingFallsOf(t: Setup, w: World, e: Event)
    requires WellSized(t) && SideInv(t, w, e.x) && Enabled(w, e)
    ensures var w', y := Next(t, w, e), Peer(e.x);
            && RemainingOf(t, e.x, w'.Of(e.x)) < RemainingOf(t, e.x, w.Of(e.x))
            && RemainingOf(t, y, w'.Of(y)) == RemainingOf(t, y, w.Of(y))
  {
    match e
    case Acts(x) =>
      ActShape(t, w, x);
      DoFalls(t, x, w.Of(x));
      SameRemaining(t, Peer(x), w.Of(Peer(x)), Next(t, w, e).Of(Peer(x)));
    case Delivers(x, k) =>
      assert |w.Of(x).buffer + w.Of(x).inbox[..k]| == |w.Of(x).buffer| + k;
      SameRemaining(t, Peer(x), w.Of(Peer(x)), Next(t, w, e).Of(Peer(x)));
  }

  lemma SameRemaining(t: Setup, x: Role, l: Local, l': Local)
    requires l.pc == l'.pc && l.failed == l'.failed && |l.buffer| == |l'.buffer|
    ensures RemainingOf(t, x, l) == RemainingOf(t, x, l')
  {
  }

  lemma RemainingFalls(t: Setup, w: World, e: Event)
    requires WellSized(t) && Inv(t, w) && Enabled(w, e)
    ensures 0 <= Remaining(t, Next(t, w, e)) < Remaining(t, w)
  {
    var w' := Next(t, w, e);
    assert RemainingOf(t, Initiator, w'.Of(Initiator)) >= 0 && RemainingOf(t, Responder, w'.Of(Responder)) >= 0 by {
      NextKeepsInv(t, w, e);
      RemainingOfIsNat(t, w', Initiator);
      RemainingOfIsNat(t, w', Responder);
    }
    RemainingFallsOf(t, w, e);
    assert e.x == Initiator || e.x == Responder;
  }

  /**
   * Two honest sides, any interleaving of their steps and any chunking of the streams. If each is
   * acceptable to the other, nobody ever fails, somebody can always move until both have
   * returned, and each step brings the end nearer; and whenever both have returned, each returned
   * the other's DID.
   */
  lemma ExchangeCompletes(t: Setup, es: seq<Event>)
    requires WellSized(t) && IsRun(t, START, es)
    requires Acceptable(t, Initiator) && Acceptable(t, Responder)
    ensures var w := After(t, START, es);
            && w.initiator.failed.None? && w.responder.failed.None?
            && ((Returned(w.initiator) && Returned(w.responder)) || exists e :: Enabled(w, e))
            && (forall e :: Enabled(w, e) ==> 0 <= Remaining(t, Next(t, w, e)) < Remaining(t, w))
            && (Returned(w.initiator) ==> w.initiator.did == t.responder.did)
            && (Returned(w.responder) ==> w.responder.did == t.initiator.did)
  {
    var w := After(t, START, es);
    assert Inv(t, w) by {
      StartInv(t);
      RunKeepsInv(t, START, es);
    }
    forall e | Enabled(w, e)
      ensures 0 <= Remaining(t, Next(t, w, e)) < Remaining(t, w)
    {
      RemainingFalls(t, w, e);
    }
    assert w.initiator.failed.None? && w.responder.failed.None? && Learned(t, w) by {
      InvBlamesAndLearns(t, w);
    }
    if !(Returned(w.initiator) && Returned(w.responder)) {
      SomebodyCanMove(t, w);
    }
  }

  lemma StartInv(t: Setup)
    ensures Inv(t, START)
  {
    assert Stream(t, Initiator)[0..0] == [] && Stream(t, Responder)[0..0] == [];
  }

  /** A side that has returned has returned its peer's DID. */
  ghost predicate Learned(t: Setup, w: World) {
    && (Returned(w.initiator) ==> w.initiator.did == t.responder.did)
    && (Returned(w.responder) ==> w.responder.did == t.initiator.did)
  }

  lemma InvBlamesAndLearns(t: Setup, w: World)
    requires Inv(t, w)
    ensures Acceptable(t, Responder) ==> w.initiator.failed.None?
    ensures Acceptable(t, Initiator) ==> w.responder.failed.None?
    ensures Learned(t, w)
  {
    ObjectionIff(t, Initiator);
    ObjectionIff(t, Responder);
    assert Parsed(t, Initiator, w.initiator) && Parsed(t, Responder, w.responder);
  }

  /** And only then can both return. */
  lemma BothReturnOnlyIfAcceptable(t: Setup, es: seq<Event>)
    requires WellSized(t) && IsRun(t, START, es)
    requires var w := After(t, START, es); Returned(w.initiator) && Returned(w.responder)
    ensures Acceptable(t, Initiator) && Acceptable(t, Responder)
  {
    var w := After(t, START, es);
    assert Inv(t, w) by {
      StartInv(t);
      RunKeepsInv(t, START, es);
    }
    ReturnedMeansAcceptable(t, w, Initiator);
    ReturnedMeansAcceptable(t, w, Responder);
  }

  lemma ReturnedMeansAcceptable(t: Setup, w: World, x: Role)
    requires Parsed(t, x, w.Of(x)) && Returned(w.Of(x))
    ensures Acceptable(t, Peer(x))
  {
  }

  // ---------------------------------------------------------------------------------------
  // One side as a program
  // ---------------------------------------------------------------------------------------

  datatype Heard = Heard(did: Bytes, challenge: Bytes)

  /** The intro at the front of a byte stream, and what follows it. */
  function ParseIntro(s: Bytes): (Result<Heard, Error>, Bytes) {
    var (prefix, r1) := Take(s, 4);
    if prefix.Err? then (Err(Ended), r1)
    else if FromU32(prefix.value) > MAX_DID_SIZE then (Err(DidTooLarge), r1)
    else
      var (did, r2) := Take(r1, FromU32(prefix.value));
      if did.Err? then (Err(Ended), r2)
      else
        var (challenge, r3) := Take(r2, CHALLENGE_SIZE);
        if challenge.Err? then (Err(Ended), r3) else (Ok(Heard(did.value, challenge.value)), r3)
  }

  function ParseSig(s: Bytes): (Result<Bytes, Error>, Bytes) {
    var (prefix, r1) := Take(s, 4);
    if prefix.Err? then (Err(Ended), r1)
    else if FromU32(prefix.value) > MAX_SIGNATURE_SIZE then (Err(SignatureTooLarge), r1)
    else
      var (sig, r2) := Take(r1, FromU32(prefix.value));
      if sig.Err? then (Err(Ended), r2) else (Ok(sig.value), r2)
  }

  /** What side x returns and sends, given all the bytes it will ever receive. */
  function Transcript(t: Setup, x: Role, s: Bytes): (Result<Bytes, Error>, Bytes) {
    var me := t.Of(x);
    var (heard, rest) := ParseIntro(s);
    if heard.Err? then (Err(heard.error), if x == Initiator then Intro(me) else [])
    else if me.expected.Some? && heard.value.did != me.expected.value then (Err(WrongPeer), Intro(me))
    else
      var frame := SigFrame(t.sign(me.did, heard.value.challenge));
      var (sig, _) := ParseSig(rest);
      if sig.Err? then (Err(sig.error), if x == Initiator then Intro(me) + frame else Intro(me))
      else if sig.value == t.sign(heard.value.did, me.challenge) then (Ok(heard.value.did), Intro(me) + frame)
      else (Err(AuthFailed), Intro(me) + frame)
  }

  lemma ParseIntroOf(p: Party, rest: Bytes)
    requires |p.challenge| == CHALLENGE_SIZE && |p.did| < 0x1_0000_0000
    ensures |p.did| <= MAX_DID_SIZE ==> ParseIntro(Intro(p) + rest) == (Ok(Heard(p.did, p.challenge)), rest)
    ensures |p.did| > MAX_DID_SIZE ==> ParseIntro(Intro(p) + rest).0 == Err(DidTooLarge)
  {
    var s, n := Intro(p) + rest, |p.did|;
    assert FromU32(U32(n)) == n by {
      U32RoundTrip(n);
    }
    assert s[..4] == U32(n) && s[4..] == p.did + (p.challenge + rest);
    SplitAt(p.did, p.challenge + rest);
    SplitAt(p.challenge, rest);
  }

  lemma SplitAt(a: Bytes, b: Bytes)
    ensures (a + b)[..|a|] == a && (a + b)[|a|..] == b
  {
  }

  lemma ParseSigOf(sig: Bytes, rest: Bytes)
    requires |sig| < 0x1_0000_0000
    ensures |sig| <= MAX_SIGNATURE_SIZE ==> ParseSig(SigFrame(sig) + rest) == (Ok(sig), rest)
    ensures |sig| > MAX_SIGNATURE_SIZE ==> ParseSig(SigFrame(sig) + rest).0 == Err(SignatureTooLarge)
  {
    var s := SigFrame(sig) + rest;
    U32RoundTrip(|sig|);
    assert s[..4] == U32(|sig|) && s[4..] == sig + rest;
    assert (sig + rest)[..|sig|] == sig && (sig + rest)[|sig|..] == rest;
  }

  /**
   * On an honest peer's stream a side fails exactly over its first objection, and otherwise, which
   * is if the peer is acceptable, returns the peer's DID, having sent its own stream.
   */
  lemma HonestPeerIff(t: Setup, x: Role)
    requires WellSized(t)
    ensures var (r, out) := Transcript(t, x, Stream(t, Peer(x)));
            && (r.Ok? <==> Acceptable(t, Peer(x)))
            && (r.Ok? ==> r.value == t.Of(Peer(x)).did && out == Stream(t, x))
            && (r.Err? ==> Objection(t, x) == Some(r.error))
  {
    var y := Peer(x);
    assert |t.Of(y).challenge| == CHALLENGE_SIZE && |t.Of(y).did| < 0x1_0000_0000 && |Signature(t, y)| < 0x1_0000_0000;
    ParseIntroOf(t.Of(y), SigFrame(Signature(t, y)));
    ParseSigOf(Signature(t, y), []);
    assert SigFrame(Signature(t, y)) + [] == SigFrame(Signature(t, y));
  }

  // What happens on any stream, whoever the peer is.

  /** Why an intro is not heard: its DID is announced as too large, or the stream ends in it. */
  lemma NotHeardIff(s: Bytes)
    ensures var r := ParseIntro(s).0; var tooLarge := |s| >= 4 && FromU32(s[..4]) > 4_096;
            && (r == Err(DidTooLarge) <==> tooLarge)
            && (r == Err(Ended) <==> !tooLarge && (|s| < 4 || |s| < 4 + FromU32(s[..4]) + 32))
            && (r.Err? ==> r.error.DidTooLarge? || r.error.Ended?)
  {
  }

  lemma NotSignedIff(s: Bytes)
    ensures var r := ParseSig(s).0; var tooLarge := |s| >= 4 && FromU32(s[..4]) > 1_048_576;
            && (r == Err(SignatureTooLarge) <==> tooLarge)
            && (r == Err(Ended) <==> !tooLarge && (|s| < 4 || |s| < 4 + FromU32(s[..4])))
            && (r.Err? ==> r.error.SignatureTooLarge? || r.error.Ended?)
  {
  }

  /** Which objection a side comes to, in order. */
  lemma FailsIff(t: Setup, x: Role, s: Bytes)
    ensures var (heard, rest) := ParseIntro(s); var r := Transcript(t, x, s).0;
            && (heard.Err? ==> r == Err(heard.error))
            && (heard.Ok? ==>
                  var wrong := t.Of(x).expected.Some? && t.Of(x).expected.value != heard.value.did;
                  var sig := ParseSig(rest).0;
                  && (r == Err(WrongPeer) <==> wrong)
                  && (!wrong && sig.Err? ==> r == Err(sig.error))
                  && (r == Err(AuthFailed) <==>
                        !wrong && sig.Ok? && sig.value != t.sign(heard.value.did, t.Of(x).challenge)))
  {
  }

  /**
   * Strict alternation: the initiator's intro always goes out, the responder's once it has heard the
   * initiator's; a signature over the challenge heard goes out once the DID heard is found acceptable,
   * and the responder's only once it has the initiator's.
   */
  lemma SpeaksInTurn(t: Setup, x: Role, s: Bytes)
    ensures var (heard, rest) := ParseIntro(s); var me := t.Of(x);
            var agreed := heard.Ok? && (me.expected.Some? ==> me.expected.value == heard.value.did);
            Transcript(t, x, s).1 ==
            (if x == Initiator || heard.Ok? then Intro(me) else []) +
            (if agreed && (x == Initiator || ParseSig(rest).0.Ok?)
             then SigFrame(t.sign(me.did, heard.value.challenge)) else [])
  {
  }

  // What a return means, whoever the peer is.

  /**
   * The bytes a stream must start with to stand for a DID: its length, itself, a challenge of 32
   * bytes; then the length of its signature over our challenge, and the signature.
   */
  ghost predicate Presents(t: Setup, x: Role, s: Bytes, did: Bytes, challenge: Bytes, rest: Bytes) {
    var sig := t.sign(did, t.Of(x).challenge);
    && |challenge| == 32
    && s == U32(|did|) + did + challenge + (U32(|sig|) + sig + rest)
  }

  /** The DID, and its signature over our challenge, are within bounds, and the DID is the expected one. */
  predicate Admissible(t: Setup, x: Role, did: Bytes) {
    && |did| <= 4_096
    && |t.sign(did, t.Of(x).challenge)| <= 1_048_576
    && (t.Of(x).expected.Some? ==> t.Of(x).expected.value == did)
  }

  lemma U32Inverse(b: Bytes)
    requires |b| == 4
    ensures U32(FromU32(b)) == b
  {
    var hi, lo := FromU16(b[..2]), FromU16(b[2..]);
    assert FromU32(b) / 0x1_0000 == hi && FromU32(b) % 0x1_0000 == lo && FromU32(b) < 0x1_0000_0000;
    assert U16(hi) == b[..2] && U16(lo) == b[2..];
  }

  lemma ParsedIntro(s: Bytes)
    requires ParseIntro(s).0.Ok?
    ensures var (r, rest) := ParseIntro(s);
            && |r.value.did| <= MAX_DID_SIZE && |r.value.challenge| == CHALLENGE_SIZE
            && s == Intro(Party(r.value.did, r.value.challenge, None)) + rest
  {
    var n := FromU32(s[..4]);
    U32Inverse(s[..4]);
    assert s == s[..4] + (s[4..][..n] + (s[4..][n..][..CHALLENGE_SIZE] + s[4..][n..][CHALLENGE_SIZE..]));
  }

  lemma ParsedSig(s: Bytes)
    requires ParseSig(s).0.Ok?
    ensures var (r, rest) := ParseSig(s); |r.value| <= MAX_SIGNATURE_SIZE && s == SigFrame(r.value) + rest
  {
    var n := FromU32(s[..4]);
    U32Inverse(s[..4]);
    assert s == s[..4] + (s[4..][..n] + s[4..][n..]);
  }

  /**
   * Against any peer whatever: a side returns a DID exactly if the DID is admissible and the bytes
   * received start with that DID's intro and that DID's signature over this side's own challenge.
   */
  lemma ReturnsIff(t: Setup, x: Role, s: Bytes, did: Bytes)
    ensures Transcript(t, x, s).0 == Ok(did) <==>
            Admissible(t, x, did) && exists challenge, rest :: Presents(t, x, s, did, challenge, rest)
  {
    if Transcript(t, x, s).0 == Ok(did) {
      var (heard, tail) := ParseIntro(s);
      ParsedIntro(s);
      ParsedSig(tail);
      assert Presents(t, x, s, did, heard.value.challenge, ParseSig(tail).1);
    }
    if Admissible(t, x, did) {
      forall challenge, rest | Presents(t, x, s, did, challenge, rest)
        ensures Transcript(t, x, s).0 == Ok(did)
      {
        var sig := t.sign(did, t.Of(x).challenge);
        ParseIntroOf(Party(did, challenge, None), SigFrame(sig) + rest);
        ParseSigOf(sig, rest);
      }
    }
  }

  /**
   * The DID may be the side's own: an initiator that gets its own bytes back accepts them exactly
   * if it expects no particular DID, or its own.
   */
  lemma OwnBytesReturnIff(t: Setup)
    requires var me := t.initiator;
             |me.challenge| == CHALLENGE_SIZE && |me.did| <= MAX_DID_SIZE
             && |t.sign(me.did, me.challenge)| <= MAX_SIGNATURE_SIZE
    ensures var me := t.initiator; var own := Intro(me) + SigFrame(t.sign(me.did, me.challenge));
            && (Transcript(t, Initiator, own).0 == Ok(me.did) <==>
                  me.expected.None? || me.expected.value == me.did)
            && (Transcript(t, Initiator, own).0.Ok? ==> Transcript(t, Initiator, own).1 == own)
  {
    var me := t.initiator;
    var frame := SigFrame(t.sign(me.did, me.challenge));
    ParseIntroOf(me, frame);
    ParseSigOf(t.sign(me.did, me.challenge), []);
    assert frame + [] == frame;
  }

  predicate Finished(l: Local) {
    l.failed.Some? || l.pc == 9
  }

  /** Everything a side has sent so far. */
  function SentSoFar(t: Setup, x: Role, l: Local): Bytes
    requires SentLen(t, x, l.pc) <= |Stream(t, x)|
  {
    Stream(t, x)[..SentLen(t, x, l.pc)]
  }

  /**
   * The steps refine the program: however two honest sides are interleaved and their streams cut
   * up, a side that has finished has the result that the program computes from its peer's stream,
   * and has sent what the program sends.
   */
  lemma StepsRefineProgram(t: Setup, es: seq<Event>, x: Role)
    requires WellSized(t) && IsRun(t, START, es)
    ensures var l, (result, sent) := After(t, START, es).Of(x), Transcript(t, x, Stream(t, Peer(x)));
            && (l.failed.Some? ==> result == Err(l.failed.value))
            && (l.failed.None? && l.pc == 9 ==> result == Ok(l.did))
            && (l.failed.Some? || l.pc == 9 ==> SentLen(t, x, l.pc) <= |Stream(t, x)| && SentSoFar(t, x, l) == sent)
  {
    var w := After(t, START, es);
    assert SideInv(t, w, x) by {
      StartInv(t);
      RunKeepsInv(t, START, es);
    }
    if Finished(w.Of(x)) {
      FinishedHasResult(t, w, x);
      FinishedHasSent(t, x, w.Of(x));
    }
  }

  lemma FinishedHasResult(t: Setup, w: World, x: Role)
    requires WellSized(t) && SideInv(t, w, x) && Finished(w.Of(x))
    ensures var l, result := w.Of(x), Transcript(t, x, Stream(t, Peer(x))).0;
            && result == (if l.failed.Some? then Err(l.failed.value) else Ok(l.did))
            && l.failed == Objection(t, x)
  {
    HonestPeerIff(t, x);
    ObjectionIff(t, x);
    if Returned(w.Of(x)) {
      ReturnedMeansAcceptable(t, w, x);
    }
  }

  lemma FinishedHasSent(t: Setup, x: Role, l: Local)
    requires WellSized(t) && Finished(l) && Blames(t, x, l) && l.failed == Objection(t, x)
    ensures SentLen(t, x, l.pc) <= |Stream(t, x)|
    ensures SentSoFar(t, x, l) == Transcript(t, x, Stream(t, Peer(x))).1
  {
    HonestPeerIsSent(t, x);
    StreamSplits(t, x);
  }

  lemma StreamSplits(t: Setup, x: Role)
    ensures Stream(t, x)[..0] == [] && Stream(t, x)[..|Intro(t.Of(x))|] == Intro(t.Of(x))
    ensures Stream(t, x)[..|Stream(t, x)|] == Stream(t, x)
  {
  }

  /**
   * What a side sends to an honest peer. The initiator speaks first; the responder only once it has
   * the initiator's intro. Either signs only for an acceptable DID, and the responder only once it has
   * the initiator's signature.
   */
  lemma HonestPeerIsSent(t: Setup, x: Role)
    requires WellSized(t)
    ensures Transcript(t, x, Stream(t, Peer(x))).1 ==
            match Objection(t, x)
            case None => Stream(t, x)
            case Some(DidTooLarge) => if x == Initiator then Intro(t.Of(x)) else []
            case Some(SignatureTooLarge) => if x == Initiator then Stream(t, x) else Intro(t.Of(x))
            case Some(_) => Intro(t.Of(x))
  {
    var y := Peer(x);
    assert |t.Of(y).challenge| == CHALLENGE_SIZE && |t.Of(y).did| < 0x1_0000_0000 && |Signature(t, y)| < 0x1_0000_0000;
    ParseIntroOf(t.Of(y), SigFrame(Signature(t, y)));
    ParseSigOf(Signature(t, y), []);
    assert SigFrame(Signature(t, y)) + [] == SigFrame(Signature(t, y));
  }

  lemma ObjectionIff(t: Setup, x: Role)
    ensures Objection(t, x).None? <==> Acceptable(t, Peer(x))
  {
  }

  method ReadIntro(reader: StreamReader) returns (r: Result<Heard, Error>)
    modifies reader
    ensures (r, reader.Available()) == ParseIntro(old(reader.Available()))
  {
    var didLen := reader.ReadUint32();
    if didLen.Err? {
      return Err(Ended);
    }
    if didLen.value > MAX_DID_SIZE {
      return Err(DidTooLarge);
    }
    var did := reader.Read(didLen.value);
    if did.Err? {
      return Err(Ended);
    }
    var challenge := reader.Read(CHALLENGE_SIZE);
    if challenge.Err? {
      return Err(Ended);
    }
    r := Ok(Heard(did.value, challenge.value));
  }

  method ReadSigFrame(reader: StreamReader) returns (r: Result<Bytes, Error>)
    modifies reader
    ensures (r, reader.Available()) == ParseSig(old(reader.Available()))
  {
    var sigLen := reader.ReadUint32();
    if sigLen.Err? {
      return Err(Ended);
    }
    if sigLen.value > MAX_SIGNATURE_SIZE {
      return Err(SignatureTooLarge);
    }
    var sig := reader.Read(sigLen.value);
    r := if sig.Ok? then Ok(sig.value) else Err(Ended);
  }

  /** `out` collects what is sent. */
  method Authenticate(reader: StreamReader, t: Setup, x: Role) returns (r: Result<Bytes, Error>, out: Bytes)
    modifies reader
    ensures (r, out) == Transcript(t, x, old(reader.Available()))
  {
    var me := t.Of(x);
    out := [];
    var peer: Result<Heard, Error>;
    if x == Initiator {
      out := Intro(me);
      peer := ReadIntro(reader);
      if peer.Err? {
        return Err(peer.error), out;
      }
    } else {
      peer := ReadIntro(reader);
      if peer.Err? {
        return Err(peer.error), out;
      }
      out := Intro(me);
    }
    if me.expected.Some? && peer.value.did != me.expected.value {
      return Err(WrongPeer), out;
    }
    var mySig := t.sign(me.did, peer.value.challenge);
    var peerSig: Result<Bytes, Error>;
    if x == Initiator {
      out := out + SigFrame(mySig);
      peerSig := ReadSigFrame(reader);
      if peerSig.Err? {
        return Err(peerSig.error), out;
      }
    } else {
      peerSig := ReadSigFrame(reader);
      if peerSig.Err? {
        return Err(peerSig.error), out;
      }
      out := out + SigFrame(mySig);
    }
    if peerSig.value != t.sign(peer.value.did, me.challenge) {
      return Err(AuthFailed), out;
    }
    r := Ok(peer.value.did);
  }
}
