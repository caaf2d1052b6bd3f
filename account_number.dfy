/**
 * Account numbers (Models/AccountNumber.cs): a value type over a non-negative
 * `long`, written canonically as 16 zero-padded decimal digits and read back by
 * a parser that never fails loudly.
 */
module AccountNumbers {
  import opened Wrappers
  import opened Numerics

  /** Width of the canonical text form ("D16"). */
  const WIDTH: nat := 16

  /** The largest number that has at most 16 decimal digits. */
  const MAX_ACCOUNT_NUMBER: int := 9999_9999_9999_9999

  type NonNegLong = x: int | 0 <= x <= MAX_LONG

  // ----- Decimal digit strings -----

  predicate IsDigit(c: char) {
    '0' <= c <= '9'
  }

  predicate AllDigits(s: string) {
    forall i | 0 <= i < |s| :: IsDigit(s[i])
  }

  function DigitValue(c: char): (d: nat)
    requires IsDigit(c)
    ensures d < 10
  {
    c as int - '0' as int
  }

  function DigitChar(d: nat): (c: char)
    requires d < 10
    ensures IsDigit(c) && DigitValue(c) == d
  {
    ('0' as int + d) as char
  }

  function Pow10(n: nat): (p: nat)
    ensures p >= 1
  {
    if n == 0 then 1 else 10 * Pow10(n - 1)
  }

  lemma {:induction false} Pow10Monotone(m: nat, n: nat)
    requires m <= n
    ensures Pow10(m) <= Pow10(n)
    decreases n - m
  {
    if m < n {
      Pow10Monotone(m, n - 1);
    }
  }

  lemma Pow10Width()
    ensures Pow10(WIDTH) == MAX_ACCOUNT_NUMBER + 1
  {
    assert Pow10(1) == 10;
    assert Pow10(2) == 100;
    assert Pow10(3) == 1000;
    assert Pow10(4) == 10000;
    assert Pow10(5) == 100000;
    assert Pow10(6) == 1000000;
    assert Pow10(7) == 10000000;
    assert Pow10(8) == 100000000;
    assert Pow10(9) == 1000000000;
    assert Pow10(10) == 10000000000;
    assert Pow10(11) == 100000000000;
    assert Pow10(12) == 1000000000000;
    assert Pow10(13) == 10000000000000;
    assert Pow10(14) == 100000000000000;
    assert Pow10(15) == 1000000000000000;
    assert Pow10(16) == 10000000000000000;
  }

  /** The number a digit string denotes, most significant digit first; leading zeros add nothing. */
  function DigitsValue(s: string): (v: nat)
    requires AllDigits(s)
    ensures v < Pow10(|s|)
    decreases |s|
  {
    if s == [] then 0 else DigitsValue(s[..|s| - 1]) * 10 + DigitValue(s[|s| - 1])
  }

  /** The shortest decimal representation of `v`: no leading zero, "0" for zero. */
  function NatToDigits(v: nat): (s: string)
    ensures AllDigits(s) && 1 <= |s|
    ensures DigitsValue(s) == v
    ensures |s| == 1 || Pow10(|s| - 1) <= v
    decreases v
  {
    if v < 10 then [DigitChar(v)]
    else
      var prefix := NatToDigits(v / 10);
      var s := prefix + [DigitChar(v % 10)];
      assert s[..|s| - 1] == prefix;
      s
  }

  function Zeros(n: nat): (z: string)
    ensures |z| == n && AllDigits(z)
  {
    seq(n, _ => '0')
  }

  lemma {:induction false} ZerosValue(n: nat)
    ensures DigitsValue(Zeros(n)) == 0
  {
    if n > 0 {
      assert Zeros(n)[..n - 1] == Zeros(n - 1);
      ZerosValue(n - 1);
    }
  }

  /** Zero-padding on the left does not change the value of a digit string. */
  lemma {:induction false} LeadingZerosValue(k: nat, d: string)
    requires AllDigits(d)
    ensures AllDigits(Zeros(k) + d)
    ensures DigitsValue(Zeros(k) + d) == DigitsValue(d)
    decreases |d|
  {
    var z := Zeros(k) + d;
    assert AllDigits(z) by {
      forall i | 0 <= i < |z| ensures IsDigit(z[i]) {
        if i >= k { assert z[i] == d[i - k]; }
      }
    }
    if d == [] {
      assert z == Zeros(k);
      ZerosValue(k);
    } else {
      assert z[..|z| - 1] == Zeros(k) + d[..|d| - 1];
      LeadingZerosValue(k, d[..|d| - 1]);
    }
  }

  /** A number with `n` digits and no leading zero has at most 16 digits exactly when it is at most 9999999999999999. */
  lemma DigitCount(n: nat, v: nat)
    requires 1 <= n && v < Pow10(n)
    requires n == 1 || Pow10(n - 1) <= v
    ensures n <= WIDTH <==> v <= MAX_ACCOUNT_NUMBER
  {
    Pow10Width();
    if n <= WIDTH {
      Pow10Monotone(n, WIDTH);
    } else {
      Pow10Monotone(WIDTH, n - 1);
    }
  }

  /** A number has at most 16 digits exactly when it is at most 9999999999999999. */
  lemma ShortestFormLength(v: nat)
    ensures |NatToDigits(v)| <= WIDTH <==> v <= MAX_ACCOUNT_NUMBER
  {
    var s := NatToDigits(v);
    DigitCount(|s|, v);
  }

  /** Two digit strings of the same length denote the same number only if they are the same string. */
  lemma {:induction false} DigitStringsEqual(a: string, b: string)
    requires AllDigits(a) && AllDigits(b) && |a| == |b|
    requires DigitsValue(a) == DigitsValue(b)
    ensures a == b
    decreases |a|
  {
    if a != [] {
      var n := |a|;
      var pa, pb := a[..n - 1], b[..n - 1];
      DigitsValueLast(a);
      DigitsValueLast(b);
      LastDigitDetermined(DigitsValue(pa), DigitsValue(pb), DigitValue(a[n - 1]), DigitValue(b[n - 1]));
      DigitStringsEqual(pa, pb);
      assert a == pa + [a[n - 1]];
    }
  }

  /** The last digit of a digit string is its units digit. */
  lemma DigitsValueLast(s: string)
    requires AllDigits(s) && s != []
    ensures AllDigits(s[..|s| - 1])
    ensures DigitsValue(s) == DigitsValue(s[..|s| - 1]) * 10 + DigitValue(s[|s| - 1])
  {
  }

  /** Appending a digit is injective: `x * 10 + d` determines both `x` and `d`. */
  lemma LastDigitDetermined(x: nat, y: nat, dx: nat, dy: nat)
    requires dx < 10 && dy < 10 && x * 10 + dx == y * 10 + dy
    ensures x == y && dx == dy
  {
  }

  // ----- long.TryParse on trimmed text -----

  /** The text with its leading sign, if any, removed. */
  function Unsigned(s: string): string {
    if |s| > 0 && (s[0] == '+' || s[0] == '-') then s[1..] else s
  }

  /** The integer literals `long.TryParse` accepts once surrounding whitespace is gone: an optional sign, then one or more decimal digits. */
  predicate IsIntegerLiteral(s: string) {
    |Unsigned(s)| > 0 && AllDigits(Unsigned(s))
  }

  /** The integer an integer literal denotes, whatever its size. */
  function LiteralValue(s: string): (v: int)
    requires IsIntegerLiteral(s)
    ensures -(Pow10(|s|) as int) < v < Pow10(|s|)
  {
    Pow10Monotone(|Unsigned(s)|, |s|);
    var magnitude: int := DigitsValue(Unsigned(s));
    if s[0] == '-' then -magnitude else magnitude
  }

  /** `long.TryParse`: the literal's value, or nothing when the text is no literal or its value does not fit in a `long`. */
  function ParseLong(s: string): Option<Long> {
    if IsIntegerLiteral(s) && MIN_LONG <= LiteralValue(s) <= MAX_LONG then Some(LiteralValue(s)) else None
  }

  /** Every `long` spelled out in decimal, with a minus sign when negative, parses back to itself. */
  lemma LongSpellingParses(v: nat)
    ensures v <= MAX_LONG ==> ParseLong(NatToDigits(v)) == Some(v)
    ensures v <= -MIN_LONG ==> ParseLong("-" + NatToDigits(v)) == Some(-(v as int))
  {
    var d := NatToDigits(v);
    assert Unsigned(d) == d;
    assert Unsigned("-" + d) == d;
  }

  /** A literal of at most 16 characters always fits in a `long`, so `long.TryParse` never overflows on it. */
  lemma ShortLiteralFitsLong(s: string)
    requires IsIntegerLiteral(s) && |s| <= WIDTH
    ensures ParseLong(s) == Some(LiteralValue(s))
  {
    Pow10Monotone(|s|, WIDTH);
    Pow10Width();
  }

  // ----- The value type -----

  /** An account number. Equality is the datatype's structural equality, that is, equality of `value`. */
  datatype AccountNumber = AccountNumber(value: NonNegLong)
  {
    /** `new AccountNumber(long value)`: rejects a negative value, accepts zero and every positive `long`. */
    static function Create(value: Long): (r: Result<AccountNumber, ArgumentOutOfRange>)
      ensures r.Success? <==> value >= 0
      ensures r.Success? ==> r.value.value == value
      ensures r.Failure? ==> r.error == ArgumentOutOfRange("value")
    {
      if value < 0 then Failure(ArgumentOutOfRange("value")) else Success(AccountNumber(value))
    }

    /** The canonical text form: `value` in decimal, zero-padded to at least 16 digits. */
    function ToString(): (s: string)
      ensures AllDigits(s) && DigitsValue(s) == value
      ensures |s| >= WIDTH
      ensures |s| == WIDTH <==> value <= MAX_ACCOUNT_NUMBER
      ensures value > MAX_ACCOUNT_NUMBER ==> s == NatToDigits(value)
    {
      var digits := NatToDigits(value);
      ShortestFormLength(value);
      if |digits| < WIDTH then
        LeadingZerosValue(WIDTH - |digits|, digits);
        Zeros(WIDTH - |digits|) + digits
      else
        digits
    }

    /**
     * `AccountNumber.TryParse`: at most 16 characters, an integer literal, and a
     * value above zero; anything else yields nothing (and never an error).
     */
    static function TryParse(s: string): (r: Option<AccountNumber>)
      ensures |s| > WIDTH ==> r.None?
      ensures r.Some? ==> 1 <= r.value.value <= MAX_ACCOUNT_NUMBER
    {
      if |s| > WIDTH then None
      else
        match ParseLong(s)
        case None => None
        case Some(v) =>
          if v <= 0 then None
          else
            Pow10Monotone(|s|, WIDTH);
            Pow10Width();
            Some(AccountNumber(v))
    }
  }

  /** Two account numbers are equal exactly when their values are. */
  lemma EqualityByValue(a: AccountNumber, b: AccountNumber)
    ensures a == b <==> a.value == b.value
  {
  }

  /** `TryParse` succeeds exactly on short literals denoting a positive number, and then yields that number. */
  lemma TryParseSucceedsIff(s: string)
    ensures AccountNumber.TryParse(s).Some? <==> |s| <= WIDTH && IsIntegerLiteral(s) && LiteralValue(s) > 0
    ensures AccountNumber.TryParse(s).Some? ==> AccountNumber.TryParse(s).value.value == LiteralValue(s)
  {
    if |s| <= WIDTH && IsIntegerLiteral(s) {
      ShortLiteralFitsLong(s);
    }
  }

  /** Leading zeros are ignored: "12345", "0012345" and "0000000000012345" name the same account. */
  lemma LeadingZerosIgnored(k: nat, d: string)
    requires AllDigits(d) && |d| >= 1 && k + |d| <= WIDTH
    ensures AccountNumber.TryParse(Zeros(k) + d) == AccountNumber.TryParse(d)
  {
    var z := Zeros(k) + d;
    LeadingZerosValue(k, d);
    assert Unsigned(z) == z && Unsigned(d) == d;
    ShortLiteralFitsLong(z);
    ShortLiteralFitsLong(d);
  }

  /** Parsing the canonical form gives back the account number, for every number `TryParse` can produce. */
  lemma ParseFormatRoundTrip(n: AccountNumber)
    requires 1 <= n.value <= MAX_ACCOUNT_NUMBER
    ensures AccountNumber.TryParse(n.ToString()) == Some(n)
  {
    var s := n.ToString();
    assert Unsigned(s) == s;
    ShortLiteralFitsLong(s);
  }

  /**
   * The round trip holds for exactly those numbers: zero prints as sixteen zeros,
   * which `TryParse` refuses, and a number above 16 digits prints longer than 16.
   */
  lemma RoundTripExactlyInRange(n: AccountNumber)
    ensures AccountNumber.TryParse(n.ToString()).Some? <==> 1 <= n.value <= MAX_ACCOUNT_NUMBER
  {
    var s := n.ToString();
    if 1 <= n.value <= MAX_ACCOUNT_NUMBER {
      ParseFormatRoundTrip(n);
    } else if n.value == 0 {
      assert Unsigned(s) == s;
      TryParseSucceedsIff(s);
    }
  }

  /** A negative literal never parses, nor does "-0". */
  lemma NegativeLiteralRejected(d: string)
    requires AllDigits(d)
    ensures AccountNumber.TryParse("-" + d).None?
  {
    var s := "-" + d;
    assert Unsigned(s) == d;
  }

  /** A character other than a digit, after an optional leading sign, makes `TryParse` fail. */
  lemma NonDigitRejected(s: string, i: nat)
    requires 0 < i < |s| && !IsDigit(s[i])
    ensures AccountNumber.TryParse(s).None?
  {
  }

  /** A single digit from 1 to 9 parses to that number. */
  lemma OneDigitParses(s: string, v: nat)
    requires |s| == 1 && IsDigit(s[0]) && DigitValue(s[0]) == v && v >= 1
    ensures AccountNumber.TryParse(s) == Some(AccountNumber(v))
  {
    assert s[..0] == [];
    assert Unsigned(s) == s;
    ShortLiteralFitsLong(s);
  }

  /** The malformed and over-long texts the service's own examples reject. */
  lemma TryParseRejectionExamples()
    ensures AccountNumber.TryParse("").None?
    ensures AccountNumber.TryParse("1234aa").None?
    ensures AccountNumber.TryParse("--1234").None?
    ensures AccountNumber.TryParse("0x1234").None?
    ensures AccountNumber.TryParse("00000000000000001").None?
    ensures AccountNumber.TryParse("10000000000000000").None?
    ensures AccountNumber.TryParse("12345678901234567").None?
  {
    NonDigitRejected("1234aa", 4);
    NonDigitRejected("--1234", 1);
    NonDigitRejected("0x1234", 1);
  }

  /** The negative and zero values the service's own examples reject. */
  lemma TryParseNonPositiveExamples()
    ensures AccountNumber.TryParse("0").None?
    ensures AccountNumber.TryParse("-0").None?
    ensures AccountNumber.TryParse("-1").None?
  {
    NegativeLiteralRejected("0");
    NegativeLiteralRejected("1");
    assert Unsigned("0") == "0";
  }

  /** The longer negative texts the service's own examples reject. */
  lemma TryParseNegativeExamples()
    ensures AccountNumber.TryParse("-12345").None?
    ensures AccountNumber.TryParse("-1234567890123456").None?
    ensures AccountNumber.TryParse("-9999999999999999").None?
  {
    NegativeLiteralRejected("12345");
    NegativeLiteralRejected("1234567890123456");
    NegativeLiteralRejected("9999999999999999");
  }

  lemma Value12345()
    ensures AllDigits("12345") && DigitsValue("12345") == 12345
  {
    var s := "12345";
    assert s[..4] == "1234" && s[..3] == "123" && s[..2] == "12" && s[..1] == "1";
    assert s[..4][..3] == s[..3] && s[..3][..2] == s[..2] && s[..2][..1] == s[..1] && s[..1][..0] == [];
    assert DigitsValue(s[..1]) == 1 && DigitsValue(s[..2]) == 12 && DigitsValue(s[..3]) == 123;
    assert DigitsValue(s[..4]) == 1234;
  }

  lemma Parses12345()
    ensures AccountNumber.TryParse("12345") == Some(AccountNumber(12345))
  {
    Value12345();
    assert Unsigned("12345") == "12345";
    ShortLiteralFitsLong("12345");
  }

  /** The zero-padded spellings the examples use, written out. */
  lemma PaddedLiterals()
    ensures Zeros(2) + "12345" == "0012345"
    ensures Zeros(11) + "12345" == "0000000000012345"
    ensures Zeros(15) + "1" == "0000000000000001"
    ensures Zeros(15) + "4" == "0000000000000004"
  {
  }

  /** A run of n nines is the largest n-digit number. */
  lemma {:induction false} NinesValue(n: nat)
    ensures var z := seq(n, _ => '9'); AllDigits(z) && DigitsValue(z) == Pow10(n) - 1
  {
    if n > 0 {
      assert seq(n, _ => '9')[..n - 1] == seq(n - 1, _ => '9');
      NinesValue(n - 1);
    }
  }

  /** The largest account number, sixteen nines, prints as itself and parses back. */
  lemma LargestAccountNumber()
    ensures AccountNumber(MAX_ACCOUNT_NUMBER).ToString() == "9999999999999999"
    ensures AccountNumber.TryParse("9999999999999999") == Some(AccountNumber(MAX_ACCOUNT_NUMBER))
  {
    NinesValue(WIDTH);
    Pow10Width();
    assert seq(WIDTH, _ => '9') == "9999999999999999";
    CanonicalFormUnique(AccountNumber(MAX_ACCOUNT_NUMBER), "9999999999999999");
    ParseFormatRoundTrip(AccountNumber(MAX_ACCOUNT_NUMBER));
  }

  /** The acceptances the service's own examples name. */
  lemma TryParseAcceptanceExamples()
    ensures AccountNumber.TryParse("12345") == Some(AccountNumber(12345))
    ensures AccountNumber.TryParse("0012345") == Some(AccountNumber(12345))
    ensures AccountNumber.TryParse("0000000000012345") == Some(AccountNumber(12345))
  {
    Parses12345();
    LeadingZerosIgnored(2, "12345");
    LeadingZerosIgnored(11, "12345");
    PaddedLiterals();
  }

  /** The other acceptances the service's own examples name: the largest number and the smallest. */
  lemma TryParseBoundaryExamples()
    ensures AccountNumber.TryParse("9999999999999999") == Some(AccountNumber(9999_9999_9999_9999))
    ensures AccountNumber.TryParse("1") == Some(AccountNumber(1))
  {
    LargestAccountNumber();
    OneDigitParses("1", 1);
  }

  /** The canonical form is the only 16-digit string that denotes the number. */
  lemma CanonicalFormUnique(n: AccountNumber, s: string)
    requires AllDigits(s) && |s| == WIDTH && DigitsValue(s) == n.value
    ensures n.ToString() == s
  {
    Pow10Width();
    DigitStringsEqual(n.ToString(), s);
  }

  /** The canonical form of 12345, as the service's own example gives it. */
  lemma ToStringExample()
    ensures AccountNumber(12345).ToString() == "0000000000012345"
  {
    Value12345();
    LeadingZerosValue(11, "12345");
    PaddedLiterals();
    CanonicalFormUnique(AccountNumber(12345), "0000000000012345");
  }
}
