/** Byte strings and the decimal numbers in them. */
module Bytes {
  import opened Messages

  type byte = b: int | 0 <= b < 256
  type Bytes = seq<byte>

  const SOH: byte := 1
  const EQUALS: byte := 61
  const PLUS: byte := 43
  const MINUS: byte := 45
  const ZERO: byte := 48

  predicate IsDigit(b: byte) { ZERO <= b <= 57 }

  predicate AllDigits(s: Bytes) { forall i | 0 <= i < |s| :: IsDigit(s[i]) }

  /** The value of a string of digits. */
  function Value(s: Bytes): nat
    requires AllDigits(s)
  {
    if s == [] then 0 else Value(s[..|s| - 1]) * 10 + (s[|s| - 1] - ZERO)
  }

  /** Decimal notation without leading zeros. */
  function Decimal(n: nat): (s: Bytes)
    ensures s != [] && AllDigits(s)
  {
    if n < 10 then [ZERO + n] else Decimal(n / 10) + [ZERO + n % 10]
  }

  lemma {:induction false} ValueOfDecimal(n: nat)
    ensures Value(Decimal(n)) == n
  {
    if n < 10 {
      assert Value([ZERO + n][..0]) == 0;
    } else {
      ValueOfDecimal(n / 10);
      assert Decimal(n)[..|Decimal(n)| - 1] == Decimal(n / 10);
    }
  }

  /** Leading zeros do not change the value. */
  lemma {:induction false} ValueIgnoresZeros(k: nat, s: Bytes)
    requires AllDigits(s)
    ensures AllDigits(Zeros(k) + s) && Value(Zeros(k) + s) == Value(s)
  {
    if s == [] {
      assert Zeros(k) + s == Zeros(k);
      if k > 0 {
        ValueIgnoresZeros(k - 1, s);
        assert Zeros(k)[..k - 1] == Zeros(k - 1) + s;
      }
    } else {
      var last := |s| - 1;
      ValueIgnoresZeros(k, s[..last]);
      assert (Zeros(k) + s)[..k + last] == Zeros(k) + s[..last];
    }
  }

  function Zeros(k: nat): (s: Bytes)
    ensures |s| == k && AllDigits(s)
  {
    seq(k, i => ZERO)
  }

  /** Parsing an unsigned integer below `limit`: an optional plus sign, then at least one digit. */
  function ParseUnsigned(s: Bytes, limit: nat): Option<nat> {
    var digits := if s != [] && s[0] == PLUS then s[1..] else s;
    if digits == [] || !AllDigits(digits) || Value(digits) >= limit then None else Some(Value(digits))
  }

  lemma ParseDecimal(n: nat, limit: nat)
    requires n < limit
    ensures ParseUnsigned(Decimal(n), limit) == Some(n)
  {
    ValueOfDecimal(n);
    assert IsDigit(Decimal(n)[0]);
  }

  /** Decimal notation of an integer, with a minus sign if negative. */
  function SignedDecimal(n: int): (s: Bytes)
    ensures s != [] && EQUALS !in s && SOH !in s
  {
    if n < 0 then [MINUS] + Decimal(-n) else Decimal(n)
  }

  const TAG_LIMIT: int := 0x8000_0000

  /** Parsing a 32-bit signed integer. */
  function ParseSigned(s: Bytes): Option<int> {
    if s != [] && s[0] == MINUS then
      if |s| == 1 || !AllDigits(s[1..]) || Value(s[1..]) > TAG_LIMIT then None else Some(-(Value(s[1..]) as int))
    else
      match ParseUnsigned(s, 0x8000_0000)
      case Some(n) => Some(n)
      case None => None
  }

  lemma ParseSignedDecimal(n: int)
    requires -TAG_LIMIT <= n < TAG_LIMIT
    ensures ParseSigned(SignedDecimal(n)) == Some(n)
  {
    if n < 0 {
      ValueOfDecimal(-n);
      assert SignedDecimal(n)[1..] == Decimal(-n);
    } else {
      ParseDecimal(n, 0x8000_0000);
      assert IsDigit(Decimal(n)[0]);
    }
  }
}
