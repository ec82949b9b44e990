/** Bytes, decimal integers and their round trip (parseInt and parseLong in core/FieldMap.hpp:18-46, writeInt in
    core/Builder.hpp:140-145). */
module FixBytes {

  type Byte = x: int | 0 <= x < 256

  type Bytes = seq<Byte>

  const SOH: Byte := 1
  const EQUALS: Byte := 61
  const MINUS: Byte := 45
  const ZERO: Byte := 48

  const INT64_MAX := 0x7fff_ffff_ffff_ffff
  const INT64_MIN := -0x8000_0000_0000_0000

  // ----- Reading -----

  /** What the reading loop accumulates: no byte is checked to be a digit. */
  function Accumulate(s: Bytes): int {
    if s == [] then 0 else 10 * Accumulate(s[..|s| - 1]) + (s[|s| - 1] - ZERO)
  }

  function ParseSigned(s: Bytes): int {
    if s != [] && s[0] == MINUS then -1 * Accumulate(s[1..]) else Accumulate(s)
  }

  /** The reading loop over buffer[start..end]. Like the original it looks at the byte at `start` even when the range
      is empty, so that byte must exist and must not then be a minus sign. */
  method ParseLong(buffer: array<Byte>, start: nat, end: nat) returns (value: int)
    requires start <= end <= buffer.Length && start < buffer.Length
    requires start == end ==> buffer[start] != MINUS
    ensures value == ParseSigned(buffer[start..end])
  {
    value := 0;
    var negate, at := false, start;
    if buffer[at] == MINUS {
      negate := true;
      at := at + 1;
    }
    ghost var first := at;
    while at != end
      invariant first <= at <= end
      invariant value == Accumulate(buffer[first..at])
      decreases end - at
    {
      value := value * 10;
      value := value + (buffer[at] - ZERO);
      at := at + 1;
      assert buffer[first..at][..at - 1 - first] == buffer[first..at - 1];
    }
    if negate {
      assert buffer[start..end][1..] == buffer[first..end];
      value := value * -1;
    }
  }

  /** What is read from two parts is read from the first, moved by as many places as the second has bytes, and from the
      second; one byte is worth its distance from the digit zero, be it a digit or not. */
  lemma {:induction false} ReadingIsPositional(s: Bytes, t: Bytes, b: Byte)
    ensures Accumulate(s + t) == Accumulate(s) * Power10(|t|) + Accumulate(t)
    ensures Accumulate([b]) == b - ZERO
    decreases |t|
  {
    assert [b][..0] == [];
    if t == [] {
      assert s + t == s;
    } else {
      var front, last := t[..|t| - 1], t[|t| - 1];
      assert (s + t)[..|s + t| - 1] == s + front;
      ReadingIsPositional(s, front, b);
      assert Accumulate(s) * (10 * Power10(|front|)) == 10 * (Accumulate(s) * Power10(|front|));
    }
  }

  /** A leading minus sign, and nothing else, changes the sign. */
  lemma ReadingIsSigned(s: Bytes)
    ensures ParseSigned([MINUS] + s) == -Accumulate(s)
    ensures s != [] && s[0] != MINUS ==> ParseSigned(s) == Accumulate(s)
  {
    assert ([MINUS] + s)[1..] == s;
  }

  // ----- Writing -----

  function Digits(n: nat): (s: Bytes)
    ensures s != []
  {
    if n < 10 then [ZERO + n] else Digits(n / 10) + [ZERO + n % 10]
  }

  function WriteSigned(v: int): Bytes {
    if v < 0 then [MINUS] + Digits(-v) else Digits(v)
  }

  ghost predicate AllDigits(s: Bytes) {
    forall i :: 0 <= i < |s| ==> ZERO <= s[i] <= ZERO + 9
  }

  predicate IsInt64(x: int) {
    INT64_MIN <= x <= INT64_MAX
  }

  /** Both values that the accumulator takes on in each turn of the reading loop are 64-bit integers. */
  ghost predicate StaysInInt64(digits: Bytes) {
    digits != [] ==>
      var front := digits[..|digits| - 1];
      StaysInInt64(front) && IsInt64(10 * Accumulate(front)) && IsInt64(Accumulate(digits))
  }

  function WithoutSign(s: Bytes): Bytes {
    if s != [] && s[0] == MINUS then s[1..] else s
  }

  /** The digits are read back; and the accumulator stays in range on the way exactly when the number is in range. */
  lemma {:induction false} DigitsRoundTrip(n: nat)
    ensures AllDigits(Digits(n))
    ensures Accumulate(Digits(n)) == n
    ensures StaysInInt64(Digits(n)) <==> n <= INT64_MAX
  {
    var s := Digits(n);
    if n < 10 {
      assert s[..0] == [];
    } else {
      DigitsRoundTrip(n / 10);
      assert s[..|s| - 1] == Digits(n / 10);
    }
  }

  /** A number is written without zeros in front. */
  lemma {:induction false} NoZerosInFront(n: nat)
    ensures n > 0 ==> Digits(n)[0] != ZERO
    ensures Digits(0) == [ZERO]
  {
    if n >= 10 {
      NoZerosInFront(n / 10);
    }
  }

  /** Every integer is read back as written. */
  lemma IntegerRoundTrip(v: int)
    ensures ParseSigned(WriteSigned(v)) == v
  {
    if v < 0 {
      DigitsRoundTrip(-v);
      assert WriteSigned(v)[1..] == Digits(-v);
    } else {
      DigitsRoundTrip(v);
    }
  }

  /** No accumulator value leaves the 64-bit range while a written 64-bit integer is read back, unless that integer is
      the least one: reading that one overflows in the last turn, before the sign is applied. */
  lemma ReadingStaysInInt64(v: int)
    requires IsInt64(v)
    ensures StaysInInt64(WithoutSign(WriteSigned(v))) <==> v != INT64_MIN
  {
    var n: nat := if v < 0 then -v else v;
    DigitsRoundTrip(n);
    assert WithoutSign(WriteSigned(v)) == Digits(n);
  }

  // ----- Fixed width, with leading zeros -----

  /** The low `width` decimal digits of n. */
  function Padded(n: nat, width: nat): (s: Bytes)
    ensures |s| == width
  {
    if width == 0 then [] else Padded(n / 10, width - 1) + [ZERO + n % 10]
  }

  function Power10(k: nat): nat {
    if k == 0 then 1 else 10 * Power10(k - 1)
  }

  /** A fixed-width number that fits decodes to itself; it has digits only. */
  lemma {:induction false} PaddedDecodes(n: nat, width: nat)
    requires n < Power10(width)
    ensures AllDigits(Padded(n, width)) && Accumulate(Padded(n, width)) == n
    ensures width > 0 ==> ParseSigned(Padded(n, width)) == n
  {
    if width > 0 {
      PaddedDecodes(n / 10, width - 1);
      var s := Padded(n, width);
      assert s[..width - 1] == Padded(n / 10, width - 1);
      assert AllDigits(s);
      assert s[0] != MINUS;
    }
  }

  function Zeros(n: nat): (s: Bytes)
    ensures |s| == n
  {
    if n == 0 then [] else Zeros(n - 1) + [ZERO]
  }

  /** Zeros in front do not change what is read: right-justified digits are the padded form. */
  lemma {:induction false} ZerosThenDigits(n: nat, width: nat)
    requires n < Power10(width)
    ensures |Digits(n)| <= width || (n == 0 && width == 0)
    ensures width > 0 ==> Padded(n, width) == Zeros(width - |Digits(n)|) + Digits(n)
  {
    if width == 1 {
      assert Power10(0) == 1;
      assert Padded(n / 10, 0) == [];
    } else if width > 1 {
      ZerosThenDigits(n / 10, width - 1);
      if n < 10 {
        PaddedZero(width - 1);
        assert Padded(n, width) == Zeros(width - 1) + [ZERO + n];
      } else {
        var zeros := Zeros(width - 1 - |Digits(n / 10)|);
        assert zeros + Digits(n / 10) + [ZERO + n % 10] == zeros + (Digits(n / 10) + [ZERO + n % 10]);
      }
    }
  }

  lemma {:induction false} PaddedZero(width: nat)
    ensures Padded(0, width) == Zeros(width)
  {
    if width > 0 {
      PaddedZero(width - 1);
    }
  }
}
