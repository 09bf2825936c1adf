/** Protocol versions and their negotiation (src/koe_version.c). */
module Version {
  import opened Bytes

  datatype Version = Version(major: byte, minor: byte)

  /** The version this build speaks: KOE_PROTO_MAJOR.KOE_PROTO_MINOR. */
  const LOCAL := Version(0, 1)

  function Major(v: Version): int
  {
    v.major as int
  }

  predicate Compatible(a: Version, b: Version)
  {
    if a.major == b.major then
      true
    else
      var diff := Major(a) - Major(b);
      var distance := if diff < 0 then -diff else diff;
      if distance != 1 then false
      else if Major(a) > Major(b) then a.minor == 0
      else b.minor == 0
  }

  function Negotiate(local: Version, remote: Version): Option<Version>
  {
    if !Compatible(local, remote) then
      None
    else if NotAbove(local, remote) then
      Some(local)
    else
      Some(remote)
  }

  /** The order of releases. */
  predicate NotAbove(a: Version, b: Version)
  {
    a.major as int < b.major as int || (a.major == b.major && a.minor as int <= b.minor as int)
  }

  /** A later major is later whatever the minor; within a major the minor decides. */
  lemma ReleaseOrder()
    ensures NotAbove(Version(0, 5), Version(1, 0)) && !NotAbove(Version(1, 0), Version(0, 5))
    ensures NotAbove(Version(1, 2), Version(1, 3)) && !NotAbove(Version(1, 3), Version(1, 2))
  {
  }

  lemma ByteEquality(a: byte, b: byte)
    requires a as int == b as int
    ensures a == b
  {
  }

  lemma CompatibleSymmetric(a: Version, b: Version)
    ensures Compatible(a, b) == Compatible(b, a)
  {
  }

  /** 0.1 speaks with 1.0 and 1.0 with 1.5, but 0.1 does not speak with 1.5. */
  lemma CompatibleNotTransitive()
    ensures Compatible(Version(0, 1), Version(1, 0))
    ensures Compatible(Version(1, 0), Version(1, 5))
    ensures !Compatible(Version(0, 1), Version(1, 5))
  {
  }

  /** How many majors `b` is ahead of `a`. */
  function Gap(a: Version, b: Version): int
  {
    Major(b) - Major(a)
  }

  /** The header's account in practice: a client also speaks with every release of the previous major. */
  predicate Documented(client: Version, peer: Version)
  {
    var gap := Gap(client, peer);
    gap == 0 || (gap == 1 && peer.minor == 0) || gap == -1
  }

  lemma CompatibleByGap(a: Version, b: Version)
    ensures Compatible(a, b)
            <==> Gap(a, b) == 0 || (Gap(a, b) == 1 && b.minor == 0) || (Gap(a, b) == -1 && a.minor == 0)
  {
    hide Major;
    SameMajor(a, b);
  }

  lemma SameMajor(a: Version, b: Version)
    ensures a.major == b.major <==> Major(a) == Major(b)
  {
    if Major(a) == Major(b) {
      ByteEquality(a.major, b.major);
    }
  }

  /** The code follows it except for a client beyond its .0 release that meets the previous major. */
  lemma DocumentedExactly(client: Version, peer: Version)
    ensures Compatible(client, peer) == Documented(client, peer) <==> !(Gap(client, peer) == -1 && client.minor != 0)
  {
    hide Compatible, Gap;
    CompatibleByGap(client, peer);
  }

  /** A 1.5 client is said to speak with 0.1; the code refuses. */
  lemma PreviousRefused()
    ensures Documented(Version(1, 5), Version(0, 1)) && !Compatible(Version(1, 5), Version(0, 1))
  {
  }

  /**
   The responder negotiates against the initiator's version and echoes the outcome; the initiator
   negotiates again against the echo.  For all builds on both sides: one succeeds when the other
   does, both end at the same version, and it is the lower of the two.
   */
  lemma NegotiationAgrees(initiator: Version, responder: Version)
    ensures Negotiate(responder, initiator).Some? <==> Compatible(initiator, responder)
    ensures Negotiate(responder, initiator).Some? ==>
              var v := Negotiate(responder, initiator).value;
              && Negotiate(initiator, v) == Some(v)
              && (v == initiator || v == responder)
              && NotAbove(v, initiator) && NotAbove(v, responder)
  {
    hide Compatible, NotAbove;
    CompatibleSymmetric(initiator, responder);
    WithSelf(initiator);
    WithSelf(responder);
    TotalOrder(initiator, responder);
  }

  /** The higher of the two versions, which is what "highest mutually compatible" would pick. */
  function Higher(a: Version, b: Version): Version
  {
    if NotAbove(a, b) then b else a
  }

  /** Of two compatible versions both are mutually compatible; the higher is picked exactly when they are equal. */
  lemma HighestExactly(local: Version, remote: Version)
    requires Compatible(local, remote)
    ensures Compatible(Higher(local, remote), local) && Compatible(Higher(local, remote), remote)
    ensures Negotiate(local, remote) == Some(Higher(local, remote)) <==> local == remote
  {
    hide Compatible, NotAbove;
    CompatibleSymmetric(local, remote);
    WithSelf(local);
    WithSelf(remote);
    TotalOrder(local, remote);
  }

  /** Builds 0.1 and 0.2 settle on 0.1, although 0.2 is compatible with both. */
  lemma LowerPicked()
    ensures Negotiate(Version(0, 1), Version(0, 2)) == Some(Version(0, 1))
    ensures Compatible(Version(0, 2), Version(0, 1)) && Compatible(Version(0, 2), Version(0, 2))
    ensures Higher(Version(0, 1), Version(0, 2)) == Version(0, 2)
  {
  }

  lemma WithSelf(a: Version)
    ensures Compatible(a, a) && NotAbove(a, a)
  {
  }

  lemma TotalOrder(a: Version, b: Version)
    ensures NotAbove(a, b) || NotAbove(b, a)
    ensures NotAbove(a, b) && NotAbove(b, a) ==> a == b
  {
    if a.major as int == b.major as int {
      ByteEquality(a.major, b.major);
    }
    if a.minor as int == b.minor as int {
      ByteEquality(a.minor, b.minor);
    }
  }
}
