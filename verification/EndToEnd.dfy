/** The layers together: handshake, encryption, serialisation, framing and back. */
module EndToEnd {
  import opened Bytes
  import opened Packet
  import opened Crypto
  import opened Handshake
  import opened Message
  import opened Transport
  import Media

  /** A message short enough for one packet, with the nonce drawn for it. */
  datatype Outgoing = Outgoing(msg: Message, nonce: Nonce)

  type Small = o: Outgoing | |o.msg.body| + TAG_LEN <= MAX_PAYLOAD
    witness Outgoing(Message(Pending, ZERO_KEY, ZERO_KEY, [], 0), Zeros(24))

  ghost function Wire(c: Suite, out: seq<Small>, sess: Session): seq<SendablePacket>
    requires Lawful(c)
  {
    if out == [] then []
    else
      EncryptedSendable(c, out[0], sess);
      [Encrypted(c, out[0].msg, sess, out[0].nonce)] + Wire(c, out[1..], sess)
  }

  lemma EncryptedSendable(c: Suite, o: Small, sess: Session)
    requires Lawful(c)
    ensures Sendable(Encrypted(c, o.msg, sess, o.nonce))
  {
  }

  /** What the receiver makes of each packet it got. */
  function Opened(c: Suite, ps: seq<Packet>, sess: Session, into: Message, now: int): seq<Option<Message>>
  {
    if ps == [] then []
    else [if Readable(ps[0]) then Decrypted(c, into, ps[0], sess, now) else None] + Opened(c, ps[1..], sess, into, now)
  }

  function Arrived(out: seq<Small>, now: int): seq<Option<Message>>
  {
    if out == [] then []
    else [Some(Message(Delivered, out[0].msg.from, out[0].msg.to, out[0].msg.body, now))] + Arrived(out[1..], now)
  }

  lemma {:induction false} OpenedWire(c: Suite, out: seq<Small>, a: Session, b: Session, into: Message, now: int)
    requires Lawful(c) && a.tx == b.rx
    ensures Opened(c, Wire(c, out, a), b, into, now) == Arrived(out, now)
  {
    hide Encrypted, Decrypted, Lawful, Readable;
    if out == [] {
    } else {
      EncryptedSendable(c, out[0], a);
      DecryptEncrypt(c, out[0].msg, out[0].nonce, a, b, into, now);
      OpenedWire(c, out[1..], a, b, into, now);
      assert Wire(c, out, a)[1..] == Wire(c, out[1..], a);
    }
  }

  /**
   Whatever either end of a matched pair sends as a stream of frames, cut off anywhere, the other
   end receives and decrypts to exactly the messages whose frames are complete, in order.
   */
  lemma MessagesArrive(c: Suite, worlds: seq<World>, actions: seq<Action>, t: nat, i: nat, j: nat,
                       out: seq<Small>, last: SendablePacket, k: nat, into: Message, now: int)
    requires Lawful(c) && IsRun(c, worlds, actions) && t < |worlds| && Matched(worlds[t], i, j)
    requires k < |Frame(last)|
    ensures var a, b := worlds[t][i].hs.session, worlds[t][j].hs.session;
            && Opened(c, ReceiveAll(Frames(Wire(c, out, a)) + Frame(last)[..k]), b, into, now) == Arrived(out, now)
            && Opened(c, ReceiveAll(Frames(Wire(c, out, b)) + Frame(last)[..k]), a, into, now) == Arrived(out, now)
  {
    hide Opened, ReceiveAll, Frames, Frame, Lawful, IsRun;
    MatchedAgree(c, worlds, actions, t, i, j);
    var a, b := worlds[t][i].hs.session, worlds[t][j].hs.session;
    SelfDelimiting(Wire(c, out, a), last, k);
    SelfDelimiting(Wire(c, out, b), last, k);
    OpenedWire(c, out, a, b, into, now);
    OpenedWire(c, out, b, a, into, now);
  }

  lemma ChunkSendable(c: Suite, offer: Media.Offer, sess: Session, index: uint32, data: seq<byte>, nonce: Nonce)
    requires Lawful(c) && |data| <= Media.CHUNK_SIZE
    ensures Sendable(Media.ChunkPacket(c, offer, sess, index, data, nonce))
  {
    hide Be, Media.ChunkFlags, Prefix;
    var plain := Be(index, 4) + data;
    assert |c.seal(plain, nonce, sess.tx)| == |plain| + TAG_LEN;
  }

  /** The chunk packets of `order`, as packets that fit a frame. */
  ghost function ChunkWire(c: Suite, file: seq<byte>, offer: Media.Offer, sess: Session, order: seq<uint32>,
                           nonces: seq<Nonce>): seq<SendablePacket>
    requires Lawful(c) && Media.Describes(offer, file) && |nonces| == |order|
    requires forall k :: 0 <= k < |order| ==> order[k] < offer.chunkCount
    decreases |order|
  {
    if order == [] then []
    else
      var n := |order| - 1;
      Media.ChunkFits(file, offer, order[n]);
      ChunkSendable(c, offer, sess, order[n], Media.ChunkOf(file, offer, order[n]), nonces[n]);
      ChunkWire(c, file, offer, sess, order[..n], nonces[..n])
      + [Media.ChunkPacket(c, offer, sess, order[n], Media.ChunkOf(file, offer, order[n]), nonces[n])]
  }

  lemma {:induction false} ChunkWireSent(c: Suite, file: seq<byte>, offer: Media.Offer, sess: Session,
                                         order: seq<uint32>, nonces: seq<Nonce>)
    requires Lawful(c) && Media.Describes(offer, file) && |nonces| == |order|
    requires forall k :: 0 <= k < |order| ==> order[k] < offer.chunkCount
    ensures ChunkWire(c, file, offer, sess, order, nonces) == Media.Sent(c, file, offer, sess, order, nonces)
    decreases |order|
  {
    hide Lawful, Media.Describes, Media.ChunkOf, Media.ChunkPacket, Sendable;
    if order == [] {
    } else {
      var n := |order| - 1;
      ChunkWireSent(c, file, offer, sess, order[..n], nonces[..n]);
    }
  }

  /**
   A file of up to 512 MiB sent by either end as a stream of framed, encrypted chunks, whatever
   incomplete frame follows, is rebuilt byte for byte and accepted at the other end.
   */
  lemma FileArrives(c: Suite, worlds: seq<World>, actions: seq<Action>, t: nat, i: nat, j: nat,
                    sha: seq<byte> -> Media.Hash, file: seq<byte>, recipient: Key, nonces: seq<Nonce>,
                    last: SendablePacket, k: nat)
    requires Lawful(c) && IsRun(c, worlds, actions) && t < |worlds| && Matched(worlds[t], i, j)
    requires |file| <= Media.MAX_FILE && k < |Frame(last)|
    requires |nonces| == Media.OfferFor(sha, file, recipient).value.chunkCount
    ensures var a, b := worlds[t][i].hs.session, worlds[t][j].hs.session;
            var offer := Media.OfferFor(sha, file, recipient).value;
            Media.Describes(offer, file) &&
            var all, done := Media.Upto(offer.chunkCount), Media.Transfer(offer, file, offer.chunkCount);
            var fromA := Frames(ChunkWire(c, file, offer, a, all, nonces)) + Frame(last)[..k];
            var fromB := Frames(ChunkWire(c, file, offer, b, all, nonces)) + Frame(last)[..k];
            && Media.ReceivedAll(c, offer, b, ReceiveAll(fromA)) == Some(done)
            && Media.ReceivedAll(c, offer, a, ReceiveAll(fromB)) == Some(done)
            && Media.Accepted(sha, done)
  {
    hide Media.ReceivedAll, Media.Upto, Media.Sent, Media.Describes;
    hide Lawful, IsRun, Frames, Frame, ReceiveAll, ChunkWire;
    MatchedAgree(c, worlds, actions, t, i, j);
    var a, b := worlds[t][i].hs.session, worlds[t][j].hs.session;
    var offer := Media.OfferFor(sha, file, recipient).value;
    Media.TransferCompletes(c, sha, file, recipient, a, b, nonces);
    Media.TransferCompletes(c, sha, file, recipient, b, a, nonces);
    var all := Media.Upto(offer.chunkCount);
    ChunkWireSent(c, file, offer, a, all, nonces);
    ChunkWireSent(c, file, offer, b, all, nonces);
    SelfDelimiting(ChunkWire(c, file, offer, a, all, nonces), last, k);
    SelfDelimiting(ChunkWire(c, file, offer, b, all, nonces), last, k);
  }
}
