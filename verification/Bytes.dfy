/** Bytes, fixed-width integers on the wire, and the little vocabulary the other modules share. */
module Bytes {

  type byte = bv8

  datatype Option<+T> = None | Some(value: T)

  /** One more than the largest `uint32_t`, and than the largest `uint64_t` or `size_t`. */
  const UINT32 := 0x1_0000_0000
  const UINT64 := 0x1_0000_0000_0000_0000

  function Min(a: nat, b: nat): nat
  {
    if a <= b then a else b
  }

  function Zeros(n: nat): (s: seq<byte>)
    ensures |s| == n
  {
    seq(n, _ => 0)
  }

  /** The cast to `uint8_t`. */
  function Low(n: nat): byte
  {
    (n % 256) as bv8
  }

  function Pow256(k: nat): (p: nat)
    ensures p >= 1
  {
    if k == 0 then 1 else 256 * Pow256(k - 1)
  }

  /** `n` in `k` bytes, most significant first (what `htonl` and the shift loops produce). */
  function Be(n: nat, k: nat): (s: seq<byte>)
    ensures |s| == k
  {
    if k == 0 then [] else Be(n / 256, k - 1) + [Low(n)]
  }

  function FromBe(s: seq<byte>): (n: nat)
  {
    if s == [] then 0 else FromBe(s[..|s| - 1]) * 256 + s[|s| - 1] as int
  }

  /** `n` in `k` bytes, least significant first (an integer copied out of a little-endian host). */
  function Le(n: nat, k: nat): (s: seq<byte>)
    ensures |s| == k
  {
    if k == 0 then [] else [Low(n)] + Le(n / 256, k - 1)
  }

  function FromLe(s: seq<byte>): (n: nat)
  {
    if s == [] then 0 else s[0] as int + FromLe(s[1..]) * 256
  }

  lemma NextByte(b: byte)
    requires b as int < 255
    ensures (b + 1) as int == b as int + 1
  {
  }

  lemma {:induction false} ByteFor(n: nat) returns (b: byte)
    requires n < 256
    ensures b as int == n
  {
    if n == 0 {
      b := 0;
    } else {
      var previous := ByteFor(n - 1);
      NextByte(previous);
      b := previous + 1;
    }
  }

  lemma ByteIntByte(b: byte)
    ensures 0 <= b as int < 256 && (b as int) as bv8 == b
  {
  }

  lemma LowRoundTrip(n: nat)
    requires n < 256
    ensures Low(n) as int == n
  {
    var b := ByteFor(n);
    ByteIntByte(b);
    assert n % 256 == n;
  }

  lemma ByteRoundTrip(b: byte)
    ensures Low(b as int) == b
  {
    ByteIntByte(b);
    assert (b as int) % 256 == b as int;
  }

  lemma {:induction false} BeRoundTrip(n: nat, k: nat)
    requires n < Pow256(k)
    ensures FromBe(Be(n, k)) == n
  {
    if k == 0 {
    } else {
      BeRoundTrip(n / 256, k - 1);
      LowRoundTrip(n % 256);
      assert Be(n, k)[..k - 1] == Be(n / 256, k - 1);
    }
  }

  /** An integer too large for its field is truncated. */
  lemma {:induction false} BeTruncates(n: nat, k: nat)
    ensures Be(n + Pow256(k), k) == Be(n, k)
  {
    if k == 0 {
    } else {
      assert (n + Pow256(k)) / 256 == n / 256 + Pow256(k - 1);
      BeTruncates(n / 256, k - 1);
    }
  }

  lemma {:induction false} FromBeRoundTrip(s: seq<byte>)
    ensures FromBe(s) < Pow256(|s|)
    ensures Be(FromBe(s), |s|) == s
  {
    if s == [] {
    } else {
      var front, last := s[..|s| - 1], s[|s| - 1];
      FromBeRoundTrip(front);
      ByteRoundTrip(last);
      assert FromBe(s) / 256 == FromBe(front);
      assert FromBe(s) % 256 == last as int;
      assert s == front + [last];
    }
  }

  lemma {:induction false} LeRoundTrip(n: nat, k: nat)
    requires n < Pow256(k)
    ensures FromLe(Le(n, k)) == n
  {
    if k == 0 {
    } else {
      LeRoundTrip(n / 256, k - 1);
      LowRoundTrip(n % 256);
      assert Le(n, k)[1..] == Le(n / 256, k - 1);
    }
  }

  /** The byte a shift loop stores at position `i`. */
  lemma {:induction false} BeAt(n: nat, k: nat, i: nat)
    requires i < k
    ensures Be(n, k)[i] == Low(n / Pow256(k - 1 - i))
  {
    if i < k - 1 {
      BeAt(n / 256, k - 1, i);
      DivDiv(n, Pow256(k - 2 - i));
    }
  }

  lemma DivDiv(n: nat, p: nat)
    requires p >= 1
    ensures n / 256 / p == n / (256 * p)
  {
    var q, r := n / (256 * p), n % (256 * p);
    assert n == (256 * p) * q + r;
    assert n / 256 == p * q + r / 256 by {
      assert n == 256 * (p * q) + r;
    }
    assert 0 <= r / 256 < p;
    DivUnique(n / 256, p, q, r / 256);
  }

  lemma DivUnique(n: int, p: int, q: int, r: int)
    requires 0 <= r < p && n == p * q + r
    ensures n / p == q
  {
    var q' := n / p;
    assert n == p * q' + n % p;
    if q > q' {
      MulGap(p, q, q');
    } else if q < q' {
      MulGap(p, q', q);
    }
  }

  lemma MulGap(p: int, a: int, b: int)
    requires p > 0 && a > b
    ensures p * a >= p * b + p
  {
    MulPositive(p, a - b);
    assert p * (a - b) == p * a - p * b;
  }

  lemma MulPositive(p: int, k: int)
    requires p > 0 && k >= 1
    ensures p * k >= p
  {
  }

  lemma Pow256Values()
    ensures Pow256(2) == 0x1_0000
    ensures Pow256(4) == 0x1_0000_0000
    ensures Pow256(8) == 0x1_0000_0000_0000_0000
  {
  }

  /** Most significant first, and least significant first. */
  lemma ByteOrders()
    ensures Be(0x0102, 2) == [1, 2] && FromBe([1, 2]) == 0x0102
    ensures Le(0x0102, 2) == [2, 1] && FromLe([2, 1]) == 0x0102
  {
    hide Be, Le, FromBe, FromLe, Low;
    BePair(0x0102);
    LePair(0x0102);
    LowOneTwo();
    Pow256Values();
    BeRoundTrip(0x0102, 2);
    LeRoundTrip(0x0102, 2);
  }

  lemma BePair(n: nat)
    ensures Be(n, 2) == [Low(n / 256), Low(n)]
  {
    hide Low;
    assert Be(n / 256, 1) == Be(n / 256 / 256, 0) + [Low(n / 256)];
  }

  lemma LePair(n: nat)
    ensures Le(n, 2) == [Low(n), Low(n / 256)]
  {
    hide Low;
    assert Le(n / 256, 1) == [Low(n / 256)] + Le(n / 256 / 256, 0);
  }

  lemma LowOneTwo()
    ensures Low(0x0102) == 2 && Low(0x0102 / 256) == 1
  {
    hide Low;
    LowMod(0x0102);
    SmallLows();
  }

  lemma LowMod(n: nat)
    ensures Low(n) == Low(n % 256)
  {
  }

  lemma SmallLows()
    ensures Low(1) == 1 && Low(2) == 2
  {
  }
}
