/** The base58 short ID of a public key (src/koe_crypto.c:17-18 and 125-150). */
module ShortId {
  import opened Bytes
  import opened Packet

  // The alphabet in its stretches of consecutive characters.
  const NINE := "123456789"
  const A_TO_H := "ABCDEFGH"
  const J_TO_N := "JKLMN"
  const P_TO_Z := "PQRSTUVWXYZ"
  const LOWER_A_TO_K := "abcdefghijk"
  const LOWER_M_TO_Z := "mnopqrstuvwxyz"

  const ALPHABET := NINE + A_TO_H + J_TO_N + P_TO_Z + LOWER_A_TO_K + LOWER_M_TO_Z

  /** KOE_SHORT_ID_LEN without the terminating NUL. */
  const LENGTH := 15

  type uint64 = n: nat | n < 0x1_0000_0000_0000_0000

  function Pow58(k: nat): (p: nat)
    ensures p >= 1
  {
    if k == 0 then 1 else 58 * Pow58(k - 1)
  }

  /** `n` in `k` base58 digits, most significant first. */
  function Digits(n: nat, k: nat): (s: string)
    ensures |s| == k
  {
    if k == 0 then "" else Digits(n / 58, k - 1) + [ALPHABET[n % 58]]
  }

  /** The value of a character, 58 for one outside the alphabet. */
  function CharValue(c: char): (v: nat)
    ensures v <= 58 && (v < 58 ==> ALPHABET[v] == c)
  {
    IndexIn(ALPHABET, c)
  }

  function IndexIn(s: string, c: char): (i: nat)
    ensures i <= |s| && (i < |s| ==> s[i] == c)
    ensures forall k :: 0 <= k < i ==> s[k] != c
  {
    if s == [] then 0 else if s[0] == c then 0 else 1 + IndexIn(s[1..], c)
  }

  function ValueOf(s: string): nat
  {
    if s == [] then 0 else ValueOf(s[..|s| - 1]) * 58 + CharValue(s[|s| - 1])
  }

  /** The first eight bytes of the key, big-endian. */
  function Head(pk: Key): (n: uint64)
  {
    Pow256Values();
    FromBeRoundTrip(pk[..8]);
    FromBe(pk[..8])
  }

  function ShortIdOf(pk: Key): (s: string)
    ensures |s| == LENGTH
  {
    Digits(Head(pk), LENGTH)
  }

  // ---------------------------------------------------------------- decoding

  lemma AlphabetSize()
    ensures |ALPHABET| == 58
  {
  }

  lemma Consecutive()
    ensures forall k :: 0 <= k < 9 ==> NINE[k] as int == '1' as int + k
    ensures forall k :: 0 <= k < 8 ==> A_TO_H[k] as int == 'A' as int + k
    ensures forall k :: 0 <= k < 5 ==> J_TO_N[k] as int == 'J' as int + k
    ensures forall k :: 0 <= k < 11 ==> P_TO_Z[k] as int == 'P' as int + k
    ensures forall k :: 0 <= k < 11 ==> LOWER_A_TO_K[k] as int == 'a' as int + k
    ensures forall k :: 0 <= k < 14 ==> LOWER_M_TO_Z[k] as int == 'm' as int + k
  {
  }

  /** The code of the character at place `i`. */
  function CodeAt(i: nat): nat
  {
    if i < 9 then '1' as int + i
    else if i < 17 then 'A' as int + (i - 9)
    else if i < 22 then 'J' as int + (i - 17)
    else if i < 33 then 'P' as int + (i - 22)
    else if i < 44 then 'a' as int + (i - 33)
    else 'm' as int + (i - 44)
  }

  lemma AlphabetCode(i: nat)
    requires i < 58
    ensures ALPHABET[i] as int == CodeAt(i)
  {
    hide NINE, A_TO_H, J_TO_N, P_TO_Z, LOWER_A_TO_K, LOWER_M_TO_Z;
    StretchSizes();
    Consecutive();
  }

  lemma StretchSizes()
    ensures |NINE| == 9 && |A_TO_H| == 8 && |J_TO_N| == 5 && |P_TO_Z| == 11
    ensures |LOWER_A_TO_K| == 11 && |LOWER_M_TO_Z| == 14
  {
  }

  /** The characters are in increasing order, so they are distinct. */
  lemma AlphabetDistinct(i: nat, j: nat)
    requires i < j < 58
    ensures ALPHABET[i] != ALPHABET[j]
  {
    hide ALPHABET;
    AlphabetSize();
    AlphabetCode(i);
    AlphabetCode(j);
  }

  lemma CharValueOf(v: nat)
    requires v < 58
    ensures CharValue(ALPHABET[v]) == v
  {
    hide ALPHABET;
    AlphabetSize();
    var i := CharValue(ALPHABET[v]);
    if i < v {
      AlphabetDistinct(i, v);
    }
  }

  lemma {:induction false} DigitsDecode(n: nat, k: nat)
    requires n < Pow58(k)
    ensures ValueOf(Digits(n, k)) == n
  {
    hide ALPHABET, CharValue;
    if k == 0 {
    } else {
      AlphabetSize();
      DigitsDecode(n / 58, k - 1);
      assert Digits(n, k)[..k - 1] == Digits(n / 58, k - 1);
      CharValueOf(n % 58);
    }
  }

  lemma Pow58Values()
    ensures Pow58(11) == 24986644000165537792 > 0x1_0000_0000_0000_0000
    ensures Pow58(LENGTH) > Pow58(11)
  {
    assert Pow58(5) == 656356768;
    assert Pow58(10) == 430804206899405824;
  }

  /** The short ID decodes to the value of the first eight key bytes. */
  lemma DecodesToHead(pk: Key)
    ensures ValueOf(ShortIdOf(pk)) == Head(pk)
  {
    hide Digits, ValueOf, Pow58;
    Pow58Values();
    DigitsDecode(Head(pk), LENGTH);
  }

  /** Two keys share a short ID exactly when their first eight bytes agree. */
  lemma SharedExactly(a: Key, b: Key)
    ensures ShortIdOf(a) == ShortIdOf(b) <==> a[..8] == b[..8]
  {
    hide Digits, ValueOf, Be, FromBe;
    DecodesToHead(a);
    DecodesToHead(b);
    FromBeRoundTrip(a[..8]);
    FromBeRoundTrip(b[..8]);
  }

  /** A key whose first eight bytes count 58: fifteen characters, base58 "21" behind thirteen zeros. */
  lemma ShortIdExample(pk: Key)
    requires pk[..8] == [0, 0, 0, 0, 0, 0, 0, 58]
    ensures ShortIdOf(pk) == "111111111111121"
  {
    hide ALPHABET, Digits;
    HeadExample(pk);
    LeadingOnes(58, 15, 2);
    TwoDigits();
    assert seq(13, _ => '1') == "1111111111111";
  }

  lemma HeadExample(pk: Key)
    requires pk[..8] == [0, 0, 0, 0, 0, 0, 0, 58]
    ensures Head(pk) == 58
  {
    var b := pk[..8];
    assert b[..7] == Zeros(7);
    ZeroHead(7);
  }

  lemma {:induction false} ZeroHead(n: nat)
    ensures FromBe(Zeros(n)) == 0
  {
    if n == 0 {
    } else {
      assert Zeros(n)[..n - 1] == Zeros(n - 1);
      ZeroHead(n - 1);
    }
  }

  lemma TwoDigits()
    ensures Digits(58, 2) == "21" && 58 < Pow58(2)
  {
    assert ALPHABET[0] == '1' && ALPHABET[1] == '2';
    assert Digits(1, 1) == Digits(0, 0) + [ALPHABET[1]];
    assert Digits(58, 2) == Digits(1, 1) + [ALPHABET[0]];
  }

  lemma {:induction false} LeadingOnes(n: nat, k: nat, m: nat)
    requires n < Pow58(m) && m <= k
    ensures Digits(n, k) == seq(k - m, _ => '1') + Digits(n, m)
    decreases k
  {
    hide ALPHABET;
    AlphabetSize();
    FirstIsOne();
    if k > m {
      if m > 0 {
        LeadingOnes(n / 58, k - 1, m - 1);
      } else {
        LeadingOnes(0, k - 1, 0);
        assert Digits(0, k) == Digits(0, k - 1) + [ALPHABET[0]];
        assert seq(k, _ => '1') == seq(k - 1, _ => '1') + ['1'];
      }
    }
  }

  lemma FirstIsOne()
    ensures ALPHABET[0] == '1'
  {
  }

  lemma SplitDigit(d: nat, p: nat, r: nat)
    requires d < 58
    ensures (d * (58 * p) + r) / 58 == d * p + r / 58
    ensures (d * (58 * p) + r) % 58 == r % 58
  {
    assert d * (58 * p) + r == 58 * (d * p) + r;
  }

  /** A digit in front of `k` others. */
  lemma {:induction false} FrontDigit(d: nat, r: nat, k: nat)
    requires d < 58 && r < Pow58(k)
    ensures Digits(d * Pow58(k) + r, k + 1) == [ALPHABET[d]] + Digits(r, k)
  {
    hide ALPHABET, Digits;
    AlphabetSize();
    var n := d * Pow58(k) + r;
    DigitsStep(n, k + 1);
    if k == 0 {
      NoDigits(d / 58, r);
    } else {
      SplitDigit(d, Pow58(k - 1), r);
      FrontDigit(d, r / 58, k - 1);
      DigitsStep(r, k);
      assert [ALPHABET[d]] + Digits(r / 58, k - 1) + [ALPHABET[r % 58]]
          == [ALPHABET[d]] + (Digits(r / 58, k - 1) + [ALPHABET[r % 58]]);
    }
  }

  lemma DigitsStep(n: nat, k: nat)
    requires k > 0
    ensures |ALPHABET| == 58 && Digits(n, k) == Digits(n / 58, k - 1) + [ALPHABET[n % 58]]
  {
    AlphabetSize();
  }

  lemma NoDigits(n: nat, m: nat)
    ensures Digits(n, 0) == [] && Digits(m, 0) == []
  {
  }

  lemma {:induction false} Pow58Grows(a: nat, b: nat)
    requires a <= b
    ensures Pow58(a) <= Pow58(b)
  {
    if a < b {
      Pow58Grows(a, b - 1);
    }
  }

  /** After `k` divisions: `r` is written, `val` is still to be. */
  ghost predicate Written(n: nat, val: nat, k: nat, r: nat)
  {
    r < Pow58(k) && n == val * Pow58(k) + r
  }

  lemma WriteNext(n: nat, val: nat, k: nat, r: nat)
    requires Written(n, val, k, r)
    ensures Written(n, val / 58, k + 1, (val % 58) * Pow58(k) + r)
    ensures Digits((val % 58) * Pow58(k) + r, k + 1) == [ALPHABET[val % 58]] + Digits(r, k)
  {
    hide Digits, ALPHABET;
    FrontDigit(val % 58, r, k);
    Recombine(val, Pow58(k));
    MulBelow(val % 58, Pow58(k));
  }

  lemma Recombine(val: nat, p: nat)
    ensures val * p == (val / 58) * (58 * p) + (val % 58) * p
  {
    var q, d := val / 58, val % 58;
    assert val == 58 * q + d;
    assert (58 * q + d) * p == (58 * q) * p + d * p;
    assert (58 * q) * p == q * (58 * p);
  }

  lemma MulBelow(d: nat, p: nat)
    requires d < 58
    ensures d * p <= 57 * p
  {
  }

  lemma AtLeastOnce(val: nat, p: nat)
    requires val > 0
    ensures val * p >= p
  {
  }

  /** Eleven digits hold every 64-bit value, so the digits never run out of room. */
  lemma RoomLeft(n: uint64, val: nat, k: nat, r: nat)
    requires Written(n, val, k, r) && val > 0
    ensures k < 11
  {
    hide Pow58;
    Pow58Values();
    if k >= 11 {
      Pow58Grows(11, k);
      AtLeastOnce(val, Pow58(k));
    }
  }

  // ---------------------------------------------------------------- the C function

  /** koe_identity_short_id. */
  method Compute(pk: Key) returns (out: string)
    ensures out == ShortIdOf(pk)
  {
    hide Digits, Pow58;
    var val := LoadHead(pk);
    var tmp := new char[LENGTH];
    var pos := FillDigits(tmp, val);
    LeadingOnes(val, LENGTH, LENGTH - pos);
    PadFront(tmp, pos);
    out := tmp[..];
  }

  method LoadHead(pk: Key) returns (val: uint64)
    ensures val == Head(pk)
  {
    hide Pow256, FromBe;
    Pow256Values();
    val := 0;
    HeadStart(pk);
    for i := 0 to 8
      invariant val == FromBe(pk[..i])
    {
      HeadStep(pk, i);
      val := val * 256 + pk[i] as int;
    }
  }

  lemma HeadStart(pk: Key)
    ensures FromBe(pk[..0]) == 0
  {
  }

  lemma {:induction false} HeadStep(pk: Key, i: nat)
    requires i < 8
    ensures FromBe(pk[..i + 1]) == FromBe(pk[..i]) * 256 + pk[i] as int
    ensures FromBe(pk[..i + 1]) < 0x1_0000_0000_0000_0000
  {
    hide Pow256;
    assert pk[..i + 1][..i] == pk[..i];
    FromBeRoundTrip(pk[..i + 1]);
    Pow256Grows(i + 1, 8);
    Pow256Values();
  }

  lemma {:induction false} Pow256Grows(a: nat, b: nat)
    requires a <= b
    ensures Pow256(a) <= Pow256(b)
  {
    if a < b {
      Pow256Grows(a, b - 1);
    }
  }

  /** The digit loop, from the back; at least four places stay free. */
  method FillDigits(tmp: array<char>, n: uint64) returns (pos: nat)
    requires tmp.Length == LENGTH
    modifies tmp
    ensures 4 <= pos < LENGTH
    ensures n < Pow58(LENGTH - pos) && tmp[pos..] == Digits(n, LENGTH - pos)
  {
    hide ALPHABET, Pow58, Digits;
    AlphabetSize();
    var val: nat := n;
    pos := LENGTH;
    ghost var r: nat := 0;
    NothingWritten(n);
    var more := true;
    while more
      invariant 4 <= pos <= LENGTH
      invariant Written(n, val, LENGTH - pos, r) && tmp[pos..] == Digits(r, LENGTH - pos)
      invariant more ==> pos == LENGTH || val > 0
      invariant !more ==> pos < LENGTH && val == 0
      decreases pos, more
    {
      if pos < LENGTH {
        RoomLeft(n, val, LENGTH - pos, r);
      }
      WriteNext(n, val, LENGTH - pos, r);
      ghost var before := tmp[pos..];
      r := (val % 58) * Pow58(LENGTH - pos) + r;
      pos := pos - 1;
      tmp[pos] := ALPHABET[val % 58];
      assert tmp[pos..] == [tmp[pos]] + before;
      val := val / 58;
      more := val != 0 && pos > 0;
    }
  }

  lemma NothingWritten(n: nat)
    ensures Written(n, n, 0, 0) && Digits(0, 0) == ""
  {
  }

  /** Padding with the zero digit. */
  method PadFront(tmp: array<char>, start: nat)
    requires start <= tmp.Length
    modifies tmp
    ensures tmp[..] == seq(start, _ => '1') + old(tmp[start..])
  {
    var pos := start;
    while pos > 0
      invariant 0 <= pos <= start
      invariant forall k :: pos <= k < start ==> tmp[k] == '1'
      invariant tmp[start..] == old(tmp[start..])
    {
      pos := pos - 1;
      tmp[pos] := '1';
    }
  }
}
