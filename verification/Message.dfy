/** Encrypting a message into a packet and back (src/koe_message.c:147-222). */
module Message {
  import opened Bytes
  import opened Version
  import opened Packet
  import opened Crypto
  import opened Handshake
  import Crc32

  const TYPE_MSG: byte := 0x04

  datatype Status = Pending | Sent | Delivered | Read | Failed

  datatype Message = Message(status: Status, from: Key, to: Key, body: seq<byte>, deliveredAt: int)

  function EncryptedHeader(msg: Message, nonce: Nonce): Header
  {
    Header(MAGIC, LOCAL.major, LOCAL.minor, TYPE_MSG, FLAG_ENCRYPTED | FLAG_SIGNED,
           Length32(|msg.body| + TAG_LEN), msg.from, msg.to, nonce, 0)
  }

  /** koe_message_encrypt; the nonce is drawn by the caller. */
  function Encrypted(c: Suite, msg: Message, sess: Session, nonce: Nonce): Packet
  {
    Packet(EncryptedHeader(msg, nonce), Some(c.seal(msg.body, nonce, sess.tx)))
  }

  /** The packet can be read: it has the bytes its header counts. */
  predicate Readable(p: Packet)
  {
    Owned(p) && (p.header.length >= TAG_LEN ==> p.payload.Some?)
  }

  /** koe_message_decrypt into `msg` at time `now`; None is the error return. */
  function Decrypted(c: Suite, msg: Message, p: Packet, sess: Session, now: int): Option<Message>
    requires Readable(p)
  {
    if p.header.flags & FLAG_ENCRYPTED == 0 || p.header.length < TAG_LEN then
      None
    else
      var plain := c.unseal(p.payload.value[..p.header.length], p.header.nonce, sess.rx);
      if plain.None? then None
      else Some(msg.(body := plain.value, from := p.header.from, to := p.header.to,
                     status := Delivered, deliveredAt := now))
  }

  lemma FlagsSet()
    ensures (FLAG_ENCRYPTED | FLAG_SIGNED) & FLAG_ENCRYPTED != 0
  {
  }

  /**
   What one end encrypts the other decrypts to the same body, addresses and all, exactly when the
   ciphertext length fits the 32-bit header field.
   */
  lemma DecryptEncrypt(c: Suite, msg: Message, nonce: Nonce, a: Session, b: Session, into: Message, now: int)
    requires Lawful(c) && a.tx == b.rx
    ensures var p := Encrypted(c, msg, a, nonce);
            && Readable(p)
            && (|msg.body| + 16 < 0x1_0000_0000 ==>
                  Decrypted(c, into, p, b, now) == Some(Message(Delivered, msg.from, msg.to, msg.body, now)))
            && (|msg.body| + 16 >= 0x1_0000_0000 ==>
                  Decrypted(c, into, p, b, now).Some? ==> Decrypted(c, into, p, b, now).value.body != msg.body)
  {
    hide FLAG_ENCRYPTED, FLAG_SIGNED;
    FlagsSet();
    var ct := c.seal(msg.body, nonce, a.tx);
    assert |ct| == |msg.body| + TAG_LEN;
    assert ct[..|ct|] == ct;
  }

  /** What an encrypted message looks like on the wire up to its flags: version 0.1, type 4, encrypted and signed. */
  lemma WireStart(msg: Message, nonce: Nonce)
    ensures Prefix(EncryptedHeader(msg, nonce))[..8] == [0x4B, 0x4F, 0x45, 0x01, 0, 1, 0x04, 0x03]
    ensures EncryptedHeader(msg, nonce).nonce == nonce
  {
    hide Be;
  }

  /** Nothing is decrypted without the flag, the tag and an authentic ciphertext under the receive key. */
  lemma OnlyAuthentic(c: Suite, msg: Message, p: Packet, sess: Session, now: int)
    requires Readable(p)
    ensures Decrypted(c, msg, p, sess, now).Some?
            <==> && p.header.flags & 0x01 != 0 && p.header.length >= 16
                 && c.unseal(p.payload.value[..p.header.length], p.header.nonce, sess.rx).Some?
  {
  }

  /**
   The header checksum is left at zero, so such a packet passes koe_packet_validate exactly when
   the peer's version is compatible and the CRC of its header happens to be zero.
   */
  lemma ChecksumUnset(c: Suite, msg: Message, sess: Session, nonce: Nonce, local: Version)
    ensures Validates(local, Encrypted(c, msg, sess, nonce).header)
            <==> Compatible(local, LOCAL) && Crc32.Crc(Prefix(Encrypted(c, msg, sess, nonce).header)) == 0
  {
    hide Compatible, Crc32.Crc, Prefix;
  }

  /** Two nonces that differ only inside four adjacent bytes are never both accepted. */
  lemma NoncesNotBoth(c: Suite, msg: Message, sess: Session, n1: Nonce, n2: Nonce, i: nat, local: Version)
    requires n1 != n2 && forall k :: 0 <= k < 24 && !(i <= k < i + 4) ==> n1[k] == n2[k]
    ensures !(&& Validates(local, Encrypted(c, msg, sess, n1).header)
              && Validates(local, Encrypted(c, msg, sess, n2).header))
  {
    hide Compatible, Crc32.Crc, Prefix, Crc32.DifferWithin;
    var h1, h2 := EncryptedHeader(msg, n1), EncryptedHeader(msg, n2);
    NonceLast(h1, n1);
    NonceLast(h1, n2);
    assert Prefix(h1)[76..] == n1 && Prefix(h2)[76..] == n2;
    Crc32.BytesWithin(Prefix(h1), Prefix(h2), 76 + i, 4);
    Crc32.BurstDetected(Prefix(h1), Prefix(h2), 8 * (76 + i));
  }

  /**
   Whatever the message and the first twenty bytes of the nonce, exactly one choice of the last four
   gives a packet that a compatible peer's koe_packet_validate accepts.
   */
  lemma OneNonceAccepted(c: Suite, msg: Message, sess: Session, start: seq<byte>, local: Version)
    returns (last: seq<byte>)
    requires |start| == 20
    ensures |last| == 4
    ensures forall end: seq<byte> :: |end| == 4 ==>
              (Validates(local, Encrypted(c, msg, sess, start + end).header)
               <==> end == last && Compatible(local, LOCAL))
  {
    hide Compatible, Crc32.Crc, Prefix;
    var h := EncryptedHeader(msg, EMPTY_HEADER.nonce);
    last := Crc32.OneEnding(Prefix(h)[..76] + start, 0);
    forall end: seq<byte> | |end| == 4
      ensures Validates(local, Encrypted(c, msg, sess, start + end).header) <==> end == last && Compatible(local, LOCAL)
    {
      NonceLast(h, start + end);
      assert Prefix(h)[..76] + (start + end) == Prefix(h)[..76] + start + end;
    }
  }

  /**
   In every state of every run of concurrent handshakes, a message encrypted at either end of a
   matched pair is decrypted at the other end to the same body.
   */
  lemma MatchedDeliver(c: Suite, worlds: seq<World>, actions: seq<Action>, t: nat, i: nat, j: nat,
                       msg: Message, nonce: Nonce, into: Message, now: int)
    requires Lawful(c) && IsRun(c, worlds, actions) && t < |worlds| && Matched(worlds[t], i, j)
    requires |msg.body| + TAG_LEN < UINT32
    ensures var a, b := worlds[t][i].hs.session, worlds[t][j].hs.session;
            var delivered := Message(Delivered, msg.from, msg.to, msg.body, now);
            && Readable(Encrypted(c, msg, a, nonce)) && Readable(Encrypted(c, msg, b, nonce))
            && Decrypted(c, into, Encrypted(c, msg, a, nonce), b, now) == Some(delivered)
            && Decrypted(c, into, Encrypted(c, msg, b, nonce), a, now) == Some(delivered)
  {
    hide Encrypted, Decrypted, Lawful, IsRun, Readable;
    MatchedAgree(c, worlds, actions, t, i, j);
    var a, b := worlds[t][i].hs.session, worlds[t][j].hs.session;
    DecryptEncrypt(c, msg, nonce, a, b, into, now);
    DecryptEncrypt(c, msg, nonce, b, a, into, now);
  }

  // ---------------------------------------------------------------- the C functions

  method Encrypt(c: Suite, msg: Message, sess: Session, nonce: Nonce) returns (p: Packet)
    ensures p == Encrypted(c, msg, sess, nonce)
  {
    var h := EMPTY_HEADER.(magic := MAGIC, major := LOCAL.major, minor := LOCAL.minor,
                           kind := TYPE_MSG, flags := FLAG_ENCRYPTED);
    h := h.(from := msg.from, to := msg.to);
    h := h.(nonce := nonce);
    var ctLen := |msg.body| + TAG_LEN;
    var ciphertext := c.seal(msg.body, h.nonce, sess.tx);
    h := h.(length := Length32(ctLen));
    h := h.(flags := h.flags | FLAG_SIGNED);
    p := Packet(h, Some(ciphertext));
  }

  /** koe_message_t as the receiver updates it. */
  class Inbound {
    var value: Message

    constructor (m: Message)
      ensures value == m
    {
      value := m;
    }

    /** `faults` is where the source would hand a null payload to the decryption. */
    method Decrypt(c: Suite, p: Packet, sess: Session, now: int) returns (rc: int, faults: bool)
      requires Owned(p)
      modifies this
      ensures faults <==> p.header.flags & FLAG_ENCRYPTED != 0 && !Readable(p)
      ensures !Readable(p) ==> value == old(value) && (!faults ==> rc == -1)
      ensures Readable(p) ==>
                var r := Decrypted(c, old(value), p, sess, now);
                if r.None? then rc == -1 && value == old(value) else rc == 0 && value == r.value
    {
      if p.header.flags & FLAG_ENCRYPTED == 0 {
        return -1, false;
      }
      if p.header.length < TAG_LEN {
        return -1, false;
      }
      if p.payload.None? {
        return 0, true;
      }
      var plain := c.unseal(p.payload.value[..p.header.length], p.header.nonce, sess.rx);
      if plain.None? {
        return -1, false;
      }
      value := value.(body := plain.value);
      value := value.(from := p.header.from, to := p.header.to);
      value := value.(status := Delivered, deliveredAt := now);
      return 0, false;
    }
  }
}
