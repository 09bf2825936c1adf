/**
 The primitives of src/koe_crypto.c as a record of functions with the laws the protocol relies
 on, and the session key derivation built from them.
 */
module Crypto {
  import opened Bytes
  import opened Packet

  const TAG_LEN := 16

  type SignKey = s: seq<byte> | |s| == 64 witness Zeros(64)
  type Signature = s: seq<byte> | |s| == 64 witness Zeros(64)
  type Digest = s: seq<byte> | |s| == 64 witness Zeros(64)

  const ZERO_KEY: Key := Zeros(32)

  datatype Suite = Suite(
    ephemeralPublic: Key -> Key,
    scalarMult: (Key, Key) -> Option<Key>,
    identityPublic: SignKey -> Key,
    hash: seq<byte> -> Digest,
    sign: (seq<byte>, SignKey) -> Signature,
    verify: (Signature, seq<byte>, Key) -> bool,
    seal: (seq<byte>, Nonce, Key) -> seq<byte>,
    unseal: (seq<byte>, Nonce, Key) -> Option<seq<byte>>)

  /** X25519 commutes (section 6.1 of RFC 7748), signatures verify, decryption inverts encryption. */
  ghost predicate Lawful(c: Suite)
  {
    && (forall a: Key, b: Key :: c.scalarMult(a, c.ephemeralPublic(b)) == c.scalarMult(b, c.ephemeralPublic(a)))
    && (forall m: seq<byte>, sk: SignKey :: c.verify(c.sign(m, sk), m, c.identityPublic(sk)))
    && (forall p: seq<byte>, n: Nonce, k: Key ::
          |c.seal(p, n, k)| == |p| + TAG_LEN && c.unseal(c.seal(p, n, k), n, k) == Some(p))
    && (forall ct: seq<byte>, n: Nonce, k: Key ::
          c.unseal(ct, n, k).Some? ==> |ct| == |c.unseal(ct, n, k).value| + TAG_LEN)
  }

  /** The laws have models, with any hash and any symmetric key exchange. */
  lemma LawsConsistent(hash: seq<byte> -> Digest, exchange: (Key, Key) -> Option<Key>) returns (c: Suite)
    requires forall a: Key, b: Key :: exchange(a, b) == exchange(b, a)
    ensures Lawful(c) && (forall m: seq<byte> :: c.hash(m) == hash(m))
    ensures forall a: Key, b: Key :: c.ephemeralPublic(a) == a && c.scalarMult(a, b) == exchange(a, b)
    ensures forall sk: SignKey :: c.identityPublic(sk) == sk[..32]
  {
    c := Suite(
      k => k,
      exchange,
      sk => sk[..32],
      hash,
      (m, sk) => Zeros(64),
      (s, m, pk) => true,
      (p, n, k) => p + Zeros(TAG_LEN),
      (ct, n, k) => if |ct| < TAG_LEN then None else Some(ct[..|ct| - TAG_LEN]));
    forall p: seq<byte>, n: Nonce, k: Key
      ensures |c.seal(p, n, k)| == |p| + TAG_LEN && c.unseal(c.seal(p, n, k), n, k) == Some(p)
    {
      assert (p + Zeros(TAG_LEN))[..|p|] == p;
    }
  }

  datatype Identity = Identity(pk: Key, sk: SignKey)

  predicate Genuine(c: Suite, id: Identity)
  {
    id.pk == c.identityPublic(id.sk)
  }

  datatype Session = Session(tx: Key, rx: Key)

  const NO_SESSION := Session(ZERO_KEY, ZERO_KEY)

  /** koe_session_derive; None when the scalar multiplication fails. */
  function Derive(c: Suite, secret: Key, remoteEph: Key, localPk: Key, remotePk: Key, initiator: bool): Option<Session>
  {
    var dh := c.scalarMult(secret, remoteEph);
    if dh.None? then
      None
    else
      var combined := c.hash(dh.value + (if initiator then localPk + remotePk else remotePk + localPk));
      Some(if initiator then Session(combined[..32], combined[32..])
           else Session(combined[32..], combined[..32]))
  }

  /** The two ends of an exchange derive the same keys with the directions swapped, or both fail. */
  lemma DeriveMirrors(c: Suite, a: Key, b: Key, pkA: Key, pkB: Key)
    requires Lawful(c)
    ensures var sa := Derive(c, a, c.ephemeralPublic(b), pkA, pkB, true);
            var sb := Derive(c, b, c.ephemeralPublic(a), pkB, pkA, false);
            && (sa.Some? <==> sb.Some?)
            && (sa.Some? ==> sa.value.tx == sb.value.rx && sa.value.rx == sb.value.tx)
  {
  }

  // ---------------------------------------------------------------- what the keys depend on

  /** A "hash" that shows its input: 64 bytes of it from `at` on. */
  function Window(m: seq<byte>, at: nat): Digest
  {
    if |m| >= at + 64 then m[at..at + 64] else Zeros(64)
  }

  /**
   The hash is taken over the shared secret, the initiator's identity and the responder's, in this order: in a lawful
   suite whose hash shows the front of its input the keys are the secret and the initiator's identity, in one
   whose hash shows the back they are the two identities, crossed at the two ends.
   */
  lemma KeysExpose(secret: Key, pkA: Key, pkB: Key) returns (front: Suite, back: Suite)
    ensures Lawful(front) && Lawful(back)
    ensures forall a: Key, b: Key ::
              && Derive(front, a, b, pkA, pkB, true) == Some(Session(secret, pkA))
              && Derive(front, b, a, pkB, pkA, false) == Some(Session(pkA, secret))
              && Derive(back, a, b, pkA, pkB, true) == Some(Session(pkA, pkB))
              && Derive(back, b, a, pkB, pkA, false) == Some(Session(pkB, pkA))
  {
    front := LawsConsistent(m => Window(m, 0), (a, b) => Some(secret));
    back := LawsConsistent(m => Window(m, 32), (a, b) => Some(secret));
    WindowParts(secret, pkA, pkB);
  }

  lemma WindowParts(x: Key, y: Key, z: Key)
    ensures Window(x + (y + z), 0)[..32] == x && Window(x + (y + z), 0)[32..] == y
    ensures Window(x + (y + z), 32)[..32] == y && Window(x + (y + z), 32)[32..] == z
  {
    var m := x + (y + z);
    assert m[..64][..32] == x && m[..64][32..] == y;
    assert m[32..96][..32] == y && m[32..96][32..] == z;
  }
}
