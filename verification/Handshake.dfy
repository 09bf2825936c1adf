/** The two-message key exchange of src/koe_handshake.c, run by any number of contexts at once. */
module Handshake {
  import opened Bytes
  import opened Version
  import opened Packet
  import opened Crypto
  import Crc32

  const HELLO_PAYLOAD := 130
  const TYPE_HELLO: byte := 0x01
  const TYPE_HELLO_ACK: byte := 0x02

  datatype Phase = Idle | SentHello | Complete | Failed

  datatype Ephemeral = Ephemeral(pk: Key, sk: Key)

  datatype Context = Context(phase: Phase, eph: Ephemeral, remotePk: Key, session: Session, version: Version)

  const ZEROED := Context(Idle, Ephemeral(ZERO_KEY, ZERO_KEY), ZERO_KEY, NO_SESSION, Version(0, 0))

  // ---------------------------------------------------------------- the payload

  /** version(2) + eph_pk(32) + id_pk(32), the signed part. */
  function Signed(v: Version, eph: Key, pk: Key): (s: seq<byte>)
    ensures |s| == 66
  {
    [v.major, v.minor] + eph + pk
  }

  function HelloPayload(c: Suite, v: Version, eph: Key, id: Identity): (s: seq<byte>)
    ensures |s| == HELLO_PAYLOAD
  {
    Signed(v, eph, id.pk) + c.sign(Signed(v, eph, id.pk), id.sk)
  }

  function HelloHeader(kind: byte, from: Key, to: Key): Header
  {
    var h := Header(MAGIC, LOCAL.major, LOCAL.minor, kind, FLAG_SIGNED, HELLO_PAYLOAD, from, to, EMPTY_HEADER.nonce, 0);
    h.(checksum := Crc32.Crc(Prefix(h)))
  }

  function HelloPacket(c: Suite, kind: byte, v: Version, eph: Key, id: Identity, to: Key): OwnedPacket
  {
    Packet(HelloHeader(kind, id.pk, to), Some(HelloPayload(c, v, eph, id)))
  }

  predicate HasHello(p: OwnedPacket)
  {
    p.payload.Some? && p.header.length >= HELLO_PAYLOAD
  }

  function HelloVersion(p: OwnedPacket): Version
    requires HasHello(p)
  {
    Version(p.payload.value[0], p.payload.value[1])
  }

  function HelloEph(p: OwnedPacket): Key
    requires HasHello(p)
  {
    p.payload.value[2..34]
  }

  function HelloIdentity(p: OwnedPacket): Key
    requires HasHello(p)
  {
    p.payload.value[34..66]
  }

  predicate HelloVerifies(c: Suite, p: OwnedPacket)
    requires HasHello(p)
  {
    c.verify(p.payload.value[66..130], p.payload.value[..66], HelloIdentity(p))
  }

  /** What a receiver reads out of a hello it is sent. */
  lemma HelloParts(c: Suite, kind: byte, v: Version, eph: Key, id: Identity, to: Key)
    ensures var p := HelloPacket(c, kind, v, eph, id, to);
            && HasHello(p) && HelloVersion(p) == v && HelloEph(p) == eph && HelloIdentity(p) == id.pk
            && p.header.from == id.pk && p.header.to == to && p.header.kind == kind
            && (Lawful(c) && Genuine(c, id) ==> HelloVerifies(c, p))
  {
    hide Crc32.Crc, Prefix;
    var pay := HelloPayload(c, v, eph, id);
    assert pay[0] == v.major && pay[1] == v.minor;
    assert pay[2..34] == eph && pay[34..66] == id.pk && pay[..66] == Signed(v, eph, id.pk);
    assert pay[66..130] == c.sign(Signed(v, eph, id.pk), id.sk);
  }

  /** Type 1 asks and type 2 answers, both signed, with 130 bytes of payload, and both pass validation. */
  lemma HelloOnWire(kind: byte, from: Key, to: Key, local: Version)
    requires Compatible(local, LOCAL)
    ensures var h := HelloHeader(kind, from, to);
            && Prefix(h)[..12] == [0x4B, 0x4F, 0x45, 0x01, 0, 1, kind, 0x02, 0, 0, 0, 130]
            && Prefix(h)[12..44] == from && Prefix(h)[44..76] == to && Validates(local, h)
    ensures TYPE_HELLO == 0x01 && TYPE_HELLO_ACK == 0x02
  {
    hide Crc32.Crc, Compatible, Be;
    HelloLength();
    PrefixIgnores(HelloHeader(kind, from, to), 0);
  }

  lemma HelloLength()
    ensures Be(HELLO_PAYLOAD, 4) == [0, 0, 0, 130]
  {
    hide Be, Low;
    BeAt(130, 4, 0);
    BeAt(130, 4, 1);
    BeAt(130, 4, 2);
    BeAt(130, 4, 3);
    Pow256Values();
    HelloLow();
  }

  lemma HelloLow()
    ensures Low(130) == 130 && Low(0) == 0
  {
  }

  // ---------------------------------------------------------------- the three operations, on values

  /** A device: its identity and the protocol version it was built with. */
  datatype Party = Party(id: Identity, version: Version)

  function Started(c: Suite, me: Party, remotePk: Key, secret: Key): (Context, OwnedPacket)
  {
    var eph := Ephemeral(c.ephemeralPublic(secret), secret);
    (ZEROED.(phase := SentHello, eph := eph, remotePk := remotePk),
     HelloPacket(c, TYPE_HELLO, me.version, eph.pk, me.id, remotePk))
  }

  /** None is the error return. */
  function Responded(c: Suite, me: Party, hello: OwnedPacket, secret: Key): (Context, Option<OwnedPacket>)
  {
    if !HasHello(hello) then
      (ZEROED, None)
    else
      var v := Negotiate(me.version, HelloVersion(hello));
      if v.None? then
        (ZEROED, None)
      else if !HelloVerifies(c, hello) then
        (ZEROED.(version := v.value), None)
      else
        var remotePk := HelloIdentity(hello);
        var eph := Ephemeral(c.ephemeralPublic(secret), secret);
        var s := Derive(c, secret, HelloEph(hello), me.id.pk, remotePk, false);
        if s.None? then
          (ZEROED.(version := v.value, remotePk := remotePk, eph := eph), None)
        else
          (Context(Complete, eph.(sk := ZERO_KEY), remotePk, s.value, v.value),
           Some(HelloPacket(c, TYPE_HELLO_ACK, v.value, eph.pk, me.id, remotePk)))
  }

  /** The new context and whether the call succeeded. */
  function Finalised(c: Suite, me: Party, hs: Context, ack: OwnedPacket): (Context, bool)
  {
    if !HasHello(ack) then
      (hs, false)
    else
      var v := Negotiate(me.version, HelloVersion(ack));
      if v.None? then
        (hs, false)
      else if !HelloVerifies(c, ack) then
        (hs.(version := v.value), false)
      else
        var s := Derive(c, hs.eph.sk, HelloEph(ack), me.id.pk, HelloIdentity(ack), true);
        if s.None? then
          (hs.(version := v.value), false)
        else
          (hs.(phase := Complete, eph := hs.eph.(sk := ZERO_KEY), session := s.value, version := v.value), true)
  }

  /** Neither end accepts anything without a signature of its first 66 bytes under the identity it names. */
  lemma SignatureNeeded(c: Suite, me: Party, hs: Context, p: OwnedPacket, secret: Key)
    requires Responded(c, me, p, secret).1.Some? || Finalised(c, me, hs, p).1
    ensures p.payload.Some? && |p.payload.value| >= 130
    ensures c.verify(p.payload.value[66..130], p.payload.value[..66], p.payload.value[34..66])
    ensures Compatible(me.version, Version(p.payload.value[0], p.payload.value[1]))
  {
    hide Derive, Compatible, NotAbove;
  }

  /** The version a packet's hello is negotiated to, or what was there before. */
  function Settled(me: Party, p: OwnedPacket, otherwise: Version): Version
  {
    if HasHello(p) && Negotiate(me.version, HelloVersion(p)).Some?
    then Negotiate(me.version, HelloVersion(p)).value else otherwise
  }

  /** A failed finalisation leaves everything as it was, except that the version is already the one negotiated. */
  lemma FailureKeeps(c: Suite, me: Party, hs: Context, p: OwnedPacket)
    requires !Finalised(c, me, hs, p).1
    ensures Finalised(c, me, hs, p).0 == hs.(version := Settled(me, p, hs.version))
  {
    hide Derive, Negotiate;
  }

  /** A refused hello leaves a context without keys; version, peer and secret are there as far as the checks came. */
  lemma RefusalLeaves(c: Suite, me: Party, p: OwnedPacket, secret: Key)
    requires Responded(c, me, p, secret).1.None?
    ensures var hs := Responded(c, me, p, secret).0;
            var checked := HasHello(p) && Negotiate(me.version, HelloVersion(p)).Some? && HelloVerifies(c, p);
            && hs.phase == Idle && hs.session == Session(Zeros(32), Zeros(32))
            && hs.version == Settled(me, p, Version(0, 0))
            && (if checked then hs.remotePk == HelloIdentity(p) && hs.eph.sk == secret
                else hs.remotePk == Zeros(32) && hs.eph.sk == Zeros(32))
  {
    hide Derive, Negotiate, HelloVerifies;
  }

  // ---------------------------------------------------------------- one exchange

  /** Both ends hold the same keys, crossed, at the same version, and have erased their secrets. */
  predicate Agree(a: Context, b: Context)
  {
    && a.phase == Complete && b.phase == Complete
    && a.session.tx == b.session.rx && a.session.rx == b.session.tx
    && a.version == b.version
    && a.eph.sk == ZERO_KEY && b.eph.sk == ZERO_KEY
  }

  /** The responder's side of an exchange started by `a`. */
  function Answered(c: Suite, a: Party, b: Party, remotePk: Key, sa: Key, sb: Key): (Context, Option<OwnedPacket>)
  {
    Responded(c, b, Started(c, a, remotePk, sa).1, sb)
  }

  /** The initiator's side once it has the answer. */
  function Finished(c: Suite, a: Party, b: Party, remotePk: Key, sa: Key, sb: Key): (Context, bool)
    requires Answered(c, a, b, remotePk, sa, sb).1.Some?
  {
    Finalised(c, a, Started(c, a, remotePk, sa).0, Answered(c, a, b, remotePk, sa, sb).1.value)
  }

  /**
   A responder accepts a genuine hello exactly when the versions are compatible and the key
   exchange yields a secret; its answer then completes the initiator, and both ends agree.
   */
  lemma ExchangeAgrees(c: Suite, a: Party, b: Party, remotePk: Key, sa: Key, sb: Key)
    requires Lawful(c) && Genuine(c, a.id) && Genuine(c, b.id)
    ensures Answered(c, a, b, remotePk, sa, sb).1.Some?
            <==> Compatible(a.version, b.version) && c.scalarMult(sb, c.ephemeralPublic(sa)).Some?
    ensures Answered(c, a, b, remotePk, sa, sb).1.Some? ==>
              && Finished(c, a, b, remotePk, sa, sb).1
              && Agree(Finished(c, a, b, remotePk, sa, sb).0, Answered(c, a, b, remotePk, sa, sb).0)
  {
    hide HelloPacket, HelloVersion, HelloEph, HelloIdentity, HelloVerifies, HasHello, Derive, Compatible, Negotiate;
    HelloParts(c, TYPE_HELLO, a.version, c.ephemeralPublic(sa), a.id, remotePk);
    NegotiationAgrees(a.version, b.version);
    DeriveMirrors(c, sa, sb, a.id.pk, b.id.pk);
    DeriveFails(c, sb, c.ephemeralPublic(sa), b.id.pk, a.id.pk, false);
    var v := Negotiate(b.version, a.version);
    if v.Some? {
      HelloParts(c, TYPE_HELLO_ACK, v.value, c.ephemeralPublic(sb), b.id, a.id.pk);
    }
  }

  lemma DeriveFails(c: Suite, secret: Key, remoteEph: Key, localPk: Key, remotePk: Key, initiator: bool)
    ensures Derive(c, secret, remoteEph, localPk, remotePk, initiator).Some?
            <==> c.scalarMult(secret, remoteEph).Some?
  {
  }

  // ---------------------------------------------------------------- many exchanges at once

  /** A context with what it saw: the secret it drew and the packets it sent and accepted. */
  datatype Role =
    | Initiator(me: Party, remotePk: Key, secret: Key, hello: OwnedPacket, hs: Context, accepted: Option<OwnedPacket>)
    | Responder(me: Party, secret: Key, hello: OwnedPacket, answer: OwnedPacket, hs: Context)

  type World = map<nat, Role>

  /** Contexts start, answer and finish in any order; any packet at all may be delivered to any. */
  datatype Action =
    | Starts(n: nat, me: Party, remotePk: Key, secret: Key)
    | Answers(n: nat, me: Party, hello: OwnedPacket, secret: Key)
    | Finishes(n: nat, ack: OwnedPacket)

  ghost predicate Enabled(c: Suite, w: World, a: Action)
  {
    match a
    case Starts(n, me, _, _) => n !in w && Genuine(c, me.id)
    case Answers(n, me, _, _) => n !in w && Genuine(c, me.id)
    case Finishes(n, _) => n in w && w[n].Initiator? && w[n].hs.phase == SentHello
  }

  function Step(c: Suite, w: World, a: Action): World
    requires a.Finishes? ==> a.n in w && w[a.n].Initiator?
  {
    match a
    case Starts(n, me, remotePk, secret) =>
      var start := Started(c, me, remotePk, secret);
      w[n := Initiator(me, remotePk, secret, start.1, start.0, None)]
    case Answers(n, me, hello, secret) =>
      var r := Responded(c, me, hello, secret);
      if r.1.Some? then w[n := Responder(me, secret, hello, r.1.value, r.0)] else w
    case Finishes(n, ack) =>
      var r := w[n];
      var f := Finalised(c, r.me, r.hs, ack);
      w[n := r.(hs := f.0, accepted := if f.1 then Some(ack) else r.accepted)]
  }

  /** `hs` is what finalising `ack` made of a context that had sent its hello with this key pair. */
  ghost predicate FinishedBy(c: Suite, me: Party, eph: Ephemeral, ack: OwnedPacket, hs: Context)
  {
    exists before: Context ::
      before.phase == SentHello && before.eph == eph && Finalised(c, me, before, ack) == (hs, true)
  }

  ghost predicate RoleOk(c: Suite, r: Role)
  {
    && Genuine(c, r.me.id)
    && match r
       case Initiator(me, remotePk, secret, hello, hs, accepted) =>
         var start := Started(c, me, remotePk, secret);
         && hello == start.1 && hs.remotePk == remotePk
         && (if accepted.None? then hs.phase == SentHello && hs.eph == start.0.eph
             else FinishedBy(c, me, start.0.eph, accepted.value, hs))
       case Responder(me, secret, hello, answer, hs) =>
         Responded(c, me, hello, secret) == (hs, Some(answer))
  }

  ghost predicate WorldOk(c: Suite, w: World)
  {
    forall n :: n in w ==> RoleOk(c, w[n])
  }

  lemma StepKeeps(c: Suite, w: World, a: Action)
    requires WorldOk(c, w) && Enabled(c, w, a)
    ensures WorldOk(c, Step(c, w, a))
  {
    hide Started, Responded, Finalised;
    if a.Starts? {
      InitShape(c, a.me, a.remotePk, a.secret);
    } else if a.Finishes? {
      var r := w[a.n];
      assert RoleOk(c, r);
      NotYetFinished(c, r);
      FinaliseShape(c, r.me, r.hs, a.ack);
      var f := Finalised(c, r.me, r.hs, a.ack);
      assert f.1 ==> f == (f.0, true);
    }
  }

  lemma NotYetFinished(c: Suite, r: Role)
    requires RoleOk(c, r) && r.Initiator? && r.hs.phase == SentHello
    ensures r.accepted.None?
  {
  }

  lemma InitShape(c: Suite, me: Party, remotePk: Key, secret: Key)
    ensures Started(c, me, remotePk, secret).0.phase == SentHello
    ensures Started(c, me, remotePk, secret).0.remotePk == remotePk
  {
  }

  lemma FinaliseShape(c: Suite, me: Party, hs: Context, ack: OwnedPacket)
    ensures !Finalised(c, me, hs, ack).1 ==>
              Finalised(c, me, hs, ack).0.phase == hs.phase && Finalised(c, me, hs, ack).0.eph == hs.eph
    ensures Finalised(c, me, hs, ack).0.remotePk == hs.remotePk
  {
  }

  ghost predicate IsRun(c: Suite, worlds: seq<World>, actions: seq<Action>)
  {
    && |worlds| == |actions| + 1 && worlds[0] == map[]
    && forall i :: 0 <= i < |actions| ==>
         Enabled(c, worlds[i], actions[i]) && worlds[i + 1] == Step(c, worlds[i], actions[i])
  }

  lemma {:induction false} RunKeeps(c: Suite, worlds: seq<World>, actions: seq<Action>, i: nat)
    requires IsRun(c, worlds, actions) && i < |worlds|
    ensures WorldOk(c, worlds[i])
  {
    if i == 0 {
    } else {
      RunKeeps(c, worlds, actions, i - 1);
      StepKeeps(c, worlds[i - 1], actions[i - 1]);
    }
  }

  /** Context `i` finished with the answer that context `j` gave to its hello. */
  predicate Matched(w: World, i: nat, j: nat)
  {
    && i in w && j in w && w[i].Initiator? && w[j].Responder?
    && w[j].hello == w[i].hello && w[i].accepted == Some(w[j].answer)
  }

  /** In every state of every run, matched contexts agree. */
  lemma MatchedAgree(c: Suite, worlds: seq<World>, actions: seq<Action>, t: nat, i: nat, j: nat)
    requires Lawful(c) && IsRun(c, worlds, actions) && t < |worlds| && Matched(worlds[t], i, j)
    ensures Agree(worlds[t][i].hs, worlds[t][j].hs)
  {
    RunKeeps(c, worlds, actions, t);
    RolesAgree(c, worlds[t][i], worlds[t][j]);
  }

  lemma RolesAgree(c: Suite, a: Role, b: Role)
    requires Lawful(c) && RoleOk(c, a) && RoleOk(c, b)
    requires a.Initiator? && b.Responder? && b.hello == a.hello && a.accepted == Some(b.answer)
    ensures Agree(a.hs, b.hs)
  {
    hide Started, Responded, Finalised, Agree;
    var before: Context :|
      before.phase == SentHello && before.eph == Started(c, a.me, a.remotePk, a.secret).0.eph
      && Finalised(c, a.me, before, b.answer) == (a.hs, true);
    ExchangeAgrees(c, a.me, b.me, a.remotePk, a.secret, b.secret);
    FinaliseUses(c, a.me, before, Started(c, a.me, a.remotePk, a.secret).0, b.answer, b.hs);
  }

  /** Only the ephemeral key of the context matters to the outcome. */
  lemma FinaliseUses(c: Suite, me: Party, x: Context, y: Context, ack: OwnedPacket, other: Context)
    requires x.eph == y.eph && Finalised(c, me, y, ack).1
    ensures Agree(Finalised(c, me, x, ack).0, other) <==> Agree(Finalised(c, me, y, ack).0, other)
  {
  }

  // ---------------------------------------------------------------- the peer that was meant

  /**
   Finalising never compares the identity in the answer with the peer the hello was meant for.  In every state of
   every run a matched initiator therefore shares its keys with the identity in the answer it accepted: with the
   peer it meant exactly when that identity is the one meant.  The responder always names the initiator.
   */
  lemma PeerMeant(c: Suite, worlds: seq<World>, actions: seq<Action>, t: nat, i: nat, j: nat)
    requires Lawful(c) && IsRun(c, worlds, actions) && t < |worlds| && Matched(worlds[t], i, j)
    ensures var a, b := worlds[t][i], worlds[t][j];
            && Agree(a.hs, b.hs) && HasHello(a.accepted.value)
            && a.hs.remotePk == a.remotePk && b.hs.remotePk == a.me.id.pk
            && (b.me.id.pk == a.remotePk <==> HelloIdentity(a.accepted.value) == a.remotePk)
  {
    hide Agree, IsRun, HelloIdentity, HasHello, Started, Responded;
    RunKeeps(c, worlds, actions, t);
    MatchedAgree(c, worlds, actions, t, i, j);
    AnswerNames(c, worlds[t][i], worlds[t][j]);
  }

  lemma AnswerNames(c: Suite, a: Role, b: Role)
    requires RoleOk(c, a) && RoleOk(c, b) && a.Initiator? && b.Responder? && b.hello == a.hello
    ensures HasHello(b.answer) && HelloIdentity(b.answer) == b.me.id.pk && b.hs.remotePk == a.me.id.pk
  {
    hide HelloPacket, HelloVersion, HelloEph, HelloIdentity, HelloVerifies, HasHello, Derive, Negotiate, Finalised;
    HelloParts(c, TYPE_HELLO, a.me.version, c.ephemeralPublic(a.secret), a.me.id, a.remotePk);
    var v := Negotiate(b.me.version, a.me.version);
    if v.Some? {
      HelloParts(c, TYPE_HELLO_ACK, v.value, c.ephemeralPublic(b.secret), b.me.id, a.me.id.pk);
    }
  }

  /** One whole exchange as contexts `n` and `n + 1`, from any world that has neither. */
  lemma ExchangeFrom(c: Suite, w: World, n: nat, a: Party, b: Party, meant: Key, sa: Key, sb: Key)
    returns (ws: seq<World>, steps: seq<Action>)
    requires Lawful(c) && Genuine(c, a.id) && Genuine(c, b.id) && n !in w && n + 1 !in w
    requires Compatible(a.version, b.version) && c.scalarMult(sb, c.ephemeralPublic(sa)).Some?
    ensures |steps| == 3 && |ws| == 4 && ws[0] == w && ws[3].Keys == w.Keys + {n, n + 1}
    ensures forall k :: 0 <= k < 3 ==> Enabled(c, ws[k], steps[k]) && ws[k + 1] == Step(c, ws[k], steps[k])
    ensures forall k :: k in w ==> k in ws[3] && ws[3][k] == w[k]
    ensures Matched(ws[3], n, n + 1)
    ensures ws[3][n].me == a && ws[3][n].remotePk == meant && ws[3][n + 1].me == b
    ensures Derive(c, sa, c.ephemeralPublic(sb), a.id.pk, b.id.pk, true) == Some(ws[3][n].hs.session)
  {
    hide Started, Responded, Finalised, Agree, Compatible, Derive;
    ExchangeAgrees(c, a, b, meant, sa, sb);
    var start, answer := Started(c, a, meant, sa), Answered(c, a, b, meant, sa, sb);
    var done := Finished(c, a, b, meant, sa, sb);
    InitShape(c, a, meant, sa);
    ExchangeSession(c, a, b, meant, sa, sb);
    var w1: World := w[n := Initiator(a, meant, sa, start.1, start.0, None)];
    var w2: World := w1[n + 1 := Responder(b, sb, start.1, answer.1.value, answer.0)];
    var w3: World := w2[n := Initiator(a, meant, sa, start.1, done.0, Some(answer.1.value))];
    steps := [Starts(n, a, meant, sa), Answers(n + 1, b, start.1, sb), Finishes(n, answer.1.value)];
    ws := [w, w1, w2, w3];
    assert Step(c, w, steps[0]) == w1;
    assert Step(c, w1, steps[1]) == w2;
    assert Step(c, w2, steps[2]) == w3;
  }

  /** The session an exchange ends with is derived from the two secrets and the two identities. */
  lemma ExchangeSession(c: Suite, a: Party, b: Party, meant: Key, sa: Key, sb: Key)
    requires Lawful(c) && Genuine(c, a.id) && Genuine(c, b.id) && Answered(c, a, b, meant, sa, sb).1.Some?
    ensures Finished(c, a, b, meant, sa, sb).1
    ensures Derive(c, sa, c.ephemeralPublic(sb), a.id.pk, b.id.pk, true)
            == Some(Finished(c, a, b, meant, sa, sb).0.session)
  {
    hide HelloPacket, HelloVersion, HelloEph, HelloIdentity, HelloVerifies, HasHello, Derive, Compatible, Negotiate;
    ExchangeAgrees(c, a, b, meant, sa, sb);
    HelloParts(c, TYPE_HELLO, a.version, c.ephemeralPublic(sa), a.id, meant);
    var v := Negotiate(b.version, a.version);
    if v.Some? {
      HelloParts(c, TYPE_HELLO_ACK, v.value, c.ephemeralPublic(sb), b.id, a.id.pk);
    }
  }

  /** Any genuine party that answers the hello completes it, whoever was meant. */
  lemma AnyoneAnswers(c: Suite, a: Party, b: Party, meant: Key, sa: Key, sb: Key)
    returns (worlds: seq<World>, actions: seq<Action>)
    requires Lawful(c) && Genuine(c, a.id) && Genuine(c, b.id)
    requires Compatible(a.version, b.version) && c.scalarMult(sb, c.ephemeralPublic(sa)).Some?
    ensures IsRun(c, worlds, actions) && |worlds| == 4 && Matched(worlds[3], 0, 1)
    ensures worlds[3][0].me == a && worlds[3][0].remotePk == meant && worlds[3][1].me == b
    ensures Agree(worlds[3][0].hs, worlds[3][1].hs)
  {
    hide Agree, Compatible, Step, Enabled;
    worlds, actions := ExchangeFrom(c, map[], 0, a, b, meant, sa, sb);
    MatchedAgree(c, worlds, actions, 3, 0, 1);
  }

  /** A run in which the initiator meant one peer and shares its keys with another. */
  lemma WrongPeer() returns (c: Suite, worlds: seq<World>, actions: seq<Action>)
    ensures Lawful(c) && IsRun(c, worlds, actions) && |worlds| == 4 && Matched(worlds[3], 0, 1)
    ensures Agree(worlds[3][0].hs, worlds[3][1].hs)
    ensures worlds[3][1].me.id.pk != worlds[3][0].remotePk && worlds[3][1].me.id.pk != worlds[3][0].me.id.pk
  {
    hide Agree, IsRun, Lawful, Compatible;
    c := LawsConsistent(m => Window(m, 0), (x, y) => Some(ZERO_KEY));
    var skA: SignKey := Zeros(64);
    var skB: SignKey := [1] + Zeros(63);
    var a := Party(Identity(c.identityPublic(skA), skA), LOCAL);
    var b := Party(Identity(c.identityPublic(skB), skB), LOCAL);
    var meant: Key := [2] + Zeros(31);
    WithSelf(LOCAL);
    assert a.id.pk[0] == 0 && b.id.pk[0] == 1 && meant[0] == 2;
    worlds, actions := AnyoneAnswers(c, a, b, meant, ZERO_KEY, ZERO_KEY);
  }

  /** Some lawful suite has a run in which the same two identities exchange twice and get different keys. */
  lemma FreshKeys() returns (c: Suite, worlds: seq<World>, actions: seq<Action>)
    ensures Lawful(c) && IsRun(c, worlds, actions) && |worlds| == 7
    ensures Matched(worlds[6], 0, 1) && Matched(worlds[6], 2, 3)
    ensures worlds[6][0].me == worlds[6][2].me && worlds[6][1].me == worlds[6][3].me
    ensures worlds[6][0].hs.session.tx != worlds[6][2].hs.session.tx
  {
    hide Agree, Lawful, Compatible, Step, Enabled, Derive, Window;
    var one: Key := [1] + Zeros(31);
    c := LawsConsistent(m => Window(m, 0), (x, y) => Some(if x == ZERO_KEY && y == ZERO_KEY then ZERO_KEY else one));
    var skA: SignKey := Zeros(64);
    var skB: SignKey := [1] + Zeros(63);
    var a := Party(Identity(c.identityPublic(skA), skA), LOCAL);
    var b := Party(Identity(c.identityPublic(skB), skB), LOCAL);
    WithSelf(LOCAL);
    var ws1, steps1 := ExchangeFrom(c, map[], 0, a, b, b.id.pk, ZERO_KEY, ZERO_KEY);
    var ws2, steps2 := ExchangeFrom(c, ws1[3], 2, a, b, b.id.pk, one, one);
    worlds, actions := ws1 + ws2[1..], steps1 + steps2;
    JoinRuns(c, ws1, steps1, ws2, steps2);
    ShownKey(c, ZERO_KEY, ZERO_KEY, ZERO_KEY, a.id.pk, b.id.pk);
    ShownKey(c, one, one, one, a.id.pk, b.id.pk);
    assert one[0] != ZERO_KEY[0];
  }

  /** Where the hash shows the front of its input, the first key is the shared secret. */
  lemma ShownKey(c: Suite, sa: Key, remote: Key, dh: Key, pkA: Key, pkB: Key)
    requires (forall m: seq<byte> :: c.hash(m) == Window(m, 0)) && c.scalarMult(sa, remote) == Some(dh)
    ensures Derive(c, sa, remote, pkA, pkB, true).Some? && Derive(c, sa, remote, pkA, pkB, true).value.tx == dh
  {
    hide Window;
    WindowParts(dh, pkA, pkB);
  }

  lemma JoinRuns(c: Suite, ws1: seq<World>, steps1: seq<Action>, ws2: seq<World>, steps2: seq<Action>)
    requires |ws1| == |ws2| == 4 && |steps1| == |steps2| == 3 && ws1[0] == map[] && ws2[0] == ws1[3]
    requires forall k :: 0 <= k < 3 ==> Enabled(c, ws1[k], steps1[k]) && ws1[k + 1] == Step(c, ws1[k], steps1[k])
    requires forall k :: 0 <= k < 3 ==> Enabled(c, ws2[k], steps2[k]) && ws2[k + 1] == Step(c, ws2[k], steps2[k])
    ensures IsRun(c, ws1 + ws2[1..], steps1 + steps2)
  {
    hide Step;
    var worlds, actions := ws1 + ws2[1..], steps1 + steps2;
    forall i | 0 <= i < 6
      ensures Enabled(c, worlds[i], actions[i]) && worlds[i + 1] == Step(c, worlds[i], actions[i])
    {
      if i >= 3 {
        assert worlds[i] == ws2[i - 3] && worlds[i + 1] == ws2[i - 2] && actions[i] == steps2[i - 3];
      }
    }
  }

  // ---------------------------------------------------------------- the C functions

  /** koe_handshake_t. */
  class Live {
    var phase: Phase
    var eph: Ephemeral
    var remotePk: Key
    var session: Session
    var version: Version

    function Value(): Context
      reads this
    {
      Context(phase, eph, remotePk, session, version)
    }

    constructor ()
      ensures Value() == ZEROED
    {
      phase, eph, remotePk, session, version :=
        Idle, Ephemeral(ZERO_KEY, ZERO_KEY), ZERO_KEY, NO_SESSION, Version(0, 0);
    }

    method Zero()
      modifies this
      ensures Value() == ZEROED
    {
      phase, eph, remotePk, session, version :=
        Idle, Ephemeral(ZERO_KEY, ZERO_KEY), ZERO_KEY, NO_SESSION, Version(0, 0);
    }

    /** The payload and header both messages share. */
    static method BuildHello(c: Suite, crc: Crc32.Table, kind: byte, v: Version, ephPk: Key, id: Identity, to: Key)
      returns (p: OwnedPacket)
      requires crc.Valid()
      modifies crc, crc.entries
      ensures crc.Valid()
      ensures p == HelloPacket(c, kind, v, ephPk, id, to)
    {
      hide Crc32.Crc, Prefix, Filled;
      var buf := new byte[HELLO_PAYLOAD];
      ghost var before := buf[..];
      ghost var acc: seq<byte> := [];
      FilledAtStart(before);
      var off := 0;
      off, acc := Put(buf, off, [v.major, v.minor], acc, before);
      off, acc := Put(buf, off, ephPk, acc, before);
      off, acc := Put(buf, off, id.pk, acc, before);
      FilledAtEnd(buf[..], acc, before, 66);
      assert buf[..66] == buf[..][..66] == Signed(v, ephPk, id.pk);
      off, acc := Put(buf, off, c.sign(buf[..66], id.sk), acc, before);
      FilledAtEnd(buf[..], acc, before, HELLO_PAYLOAD);
      assert buf[..] == buf[..][..HELLO_PAYLOAD] == HelloPayload(c, v, ephPk, id);
      var h := Header(MAGIC, LOCAL.major, LOCAL.minor, kind, FLAG_SIGNED, HELLO_PAYLOAD, id.pk, to,
                      EMPTY_HEADER.nonce, 0);
      var checksum := Checksum(crc, h);
      assert HeaderBytes(h)[..CHECKED] == Prefix(h);
      p := Packet(h.(checksum := checksum), Some(buf[..]));
    }

    /** koe_session_derive: on success the keys are set and the ephemeral secret is erased. */
    method DeriveSession(c: Suite, remoteEph: Key, localPk: Key, remote: Key, initiator: bool) returns (rc: int)
      modifies this`session, this`eph
      ensures var s := Derive(c, old(eph.sk), remoteEph, localPk, remote, initiator);
              if s.None? then rc == -1 && session == old(session) && eph == old(eph)
              else rc == 0 && session == s.value && eph == old(eph).(sk := ZERO_KEY)
    {
      var dh := c.scalarMult(eph.sk, remoteEph);
      if dh.None? {
        return -1;
      }
      eph := eph.(sk := ZERO_KEY);
      var input: seq<byte> := dh.value;
      if initiator {
        input := input + localPk;
        input := input + remote;
      } else {
        input := input + remote;
        input := input + localPk;
      }
      assert input == dh.value + (if initiator then localPk + remote else remote + localPk);
      var combined := c.hash(input);
      if initiator {
        session := Session(combined[..32], combined[32..]);
      } else {
        session := Session(combined[32..], combined[..32]);
      }
      return 0;
    }

    method Init(c: Suite, crc: Crc32.Table, me: Party, remote: Key, secret: Key) returns (hello: OwnedPacket)
      requires crc.Valid() && {this as object} !! {crc as object, crc.entries}
      modifies this, crc, crc.entries
      ensures crc.Valid()
      ensures (Value(), hello) == Started(c, me, remote, secret)
    {
      hide HelloPacket;
      Zero();
      remotePk := remote;
      eph := Ephemeral(c.ephemeralPublic(secret), secret);
      hello := BuildHello(c, crc, TYPE_HELLO, me.version, eph.pk, me.id, remote);
      phase := SentHello;
    }

    /** None is the error return. */
    method Respond(c: Suite, crc: Crc32.Table, me: Party, hello: OwnedPacket, secret: Key)
      returns (ack: Option<OwnedPacket>)
      requires crc.Valid() && {this as object} !! {crc as object, crc.entries}
      modifies this, crc, crc.entries
      ensures crc.Valid()
      ensures (Value(), ack) == Responded(c, me, hello, secret)
    {
      hide HelloPacket, Derive, Negotiate;
      Zero();
      if hello.payload.None? || hello.header.length < HELLO_PAYLOAD {
        return None;
      }
      var pay := hello.payload.value;
      var v := Negotiate(me.version, Version(pay[0], pay[1]));
      if v.None? {
        return None;
      }
      version := v.value;
      var remoteEph, remoteId, sig := pay[2..34], pay[34..66], pay[66..130];
      if !c.verify(sig, pay[..66], remoteId) {
        return None;
      }
      remotePk := remoteId;
      eph := Ephemeral(c.ephemeralPublic(secret), secret);
      var rc := DeriveSession(c, remoteEph, me.id.pk, remoteId, false);
      if rc != 0 {
        return None;
      }
      var p := BuildHello(c, crc, TYPE_HELLO_ACK, version, eph.pk, me.id, remoteId);
      phase := Complete;
      return Some(p);
    }

    method Finalise(c: Suite, me: Party, ack: OwnedPacket) returns (rc: int)
      modifies this
      ensures Value() == Finalised(c, me, old(Value()), ack).0
      ensures rc == if Finalised(c, me, old(Value()), ack).1 then 0 else -1
    {
      hide Derive, Negotiate;
      if ack.payload.None? || ack.header.length < HELLO_PAYLOAD {
        return -1;
      }
      var pay := ack.payload.value;
      var v := Negotiate(me.version, Version(pay[0], pay[1]));
      if v.None? {
        return -1;
      }
      version := v.value;
      var remoteEph, remoteId, sig := pay[2..34], pay[34..66], pay[66..130];
      if !c.verify(sig, pay[..66], remoteId) {
        return -1;
      }
      rc := DeriveSession(c, remoteEph, me.id.pk, remoteId, true);
      if rc == 0 {
        phase := Complete;
      }
    }
  }
}
