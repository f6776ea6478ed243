/** Decimal and hexadecimal text, as the program prints and reads it. */
module Text {
  import opened Options
  import opened Bytes

  const MINUS: byte := 45
  const PLUS: byte := 43
  const ZERO: byte := 48

  /** How the database layer reports a missing value. */
  const SQL_NULL: bytes := Ascii("NULL")

  /** The bytes of an ASCII literal. */
  function Ascii(s: string): (b: bytes)
    requires forall i :: 0 <= i < |s| ==> s[i] as int < 256
  {
    seq(|s|, i requires 0 <= i < |s| => s[i] as int)
  }

  predicate IsDigit(b: byte) {
    48 <= b <= 57
  }

  predicate AllDigits(s: bytes) {
    forall i :: 0 <= i < |s| ==> IsDigit(s[i])
  }

  // ----- Printing

  function Digits(n: nat): (s: bytes)
    ensures s != [] && AllDigits(s)
  {
    if n < 10 then [48 + n] else Digits(n / 10) + [48 + n % 10]
  }

  function Magnitude(x: int): nat {
    if x < 0 then -x else x
  }

  function FormatInt(x: int): (s: bytes) {
    if x < 0 then [MINUS] + Digits(Magnitude(x)) else Digits(x)
  }

  function Pow10(k: nat): (p: nat)
    ensures 0 < p
  {
    if k == 0 then 1 else 10 * Pow10(k - 1)
  }

  lemma {:induction false} DigitsLength(n: nat, k: nat)
    requires 0 < k && n < Pow10(k)
    ensures |Digits(n)| <= k
  {
    if n >= 10 {
      assert k > 1 && n / 10 < Pow10(k - 1);
      DigitsLength(n / 10, k - 1);
    }
  }

  lemma Pow10Of19()
    ensures Pow10(19) > TWO63
  {
    assert Pow10(5) == 100000;
    assert Pow10(10) == 10000000000;
    assert Pow10(15) == 1000000000000000;
  }

  /** strconv.FormatInt(x, 10): at most nineteen digits and a sign. */
  function DecimalText(x: int64): (s: bytes)
    ensures s == FormatInt(x) && 0 < |s| <= 20
  {
    Pow10Of19();
    DigitsLength(Magnitude(x), 19);
    FormatInt(x)
  }

  // ----- Reading

  function FromDigits(s: bytes): nat
    requires AllDigits(s)
  {
    if s == [] then 0 else 10 * FromDigits(s[..|s| - 1]) + (s[|s| - 1] as int - 48)
  }

  datatype Scanned = Number(n: nat) | BadSyntax | TooLarge

  /** Digits are taken one by one; the first bad character or the first overflow of a uint64 ends it. */
  function Scan(s: bytes): (r: Scanned)
    ensures r.Number? ==> r.n < TWO64
  {
    if s == [] then Number(0)
    else
      var before := Scan(s[..|s| - 1]);
      if !before.Number? then before
      else if !IsDigit(s[|s| - 1]) then BadSyntax
      else
        var n := 10 * before.n + (s[|s| - 1] as int - 48);
        if n < TWO64 then Number(n) else TooLarge
  }

  /** StrToUint64: zero on bad syntax, the largest uint64 when out of range. */
  function ParseUint(s: bytes): (u: nat)
    ensures u < TWO64
  {
    if s == [] then 0
    else
      match Scan(s)
      case Number(n) => n
      case BadSyntax => 0
      case TooLarge => TWO64 - 1
  }

  function ParseDigits(digits: bytes, negative: bool): int64 {
    if digits == [] then 0
    else
      match Scan(digits)
      case BadSyntax => 0
      case Number(n) => Clamp(if negative then -(n as int) else n)
      case TooLarge => Clamp(if negative then -TWO64 else TWO64)
  }

  /** StrToInt64: zero on bad syntax, the nearest int64 when out of range. */
  function ParseInt(s: bytes): int64 {
    if s != [] && (s[0] == MINUS || s[0] == PLUS) then ParseDigits(s[1..], s[0] == MINUS)
    else ParseDigits(s, false)
  }

  function Clamp(x: int): int64 {
    if x < -TWO63 then -TWO63 else if x >= TWO63 then TWO63 - 1 else x
  }

  // ----- Canonical numerals

  /** Digits without a needless leading zero. */
  predicate Canonical(s: bytes) {
    s != [] && AllDigits(s) && (|s| == 1 || s[0] != ZERO)
  }

  lemma {:induction false} DigitsAreCanonical(n: nat)
    ensures Canonical(Digits(n)) && FromDigits(Digits(n)) == n
    ensures 0 < n ==> Digits(n)[0] != ZERO
  {
    if n >= 10 {
      DigitsAreCanonical(n / 10);
      assert Digits(n)[..|Digits(n)| - 1] == Digits(n / 10);
    }
  }

  lemma {:induction false} CanonicalIsDigits(s: bytes)
    requires Canonical(s)
    ensures Digits(FromDigits(s)) == s
    ensures s[0] != ZERO ==> 0 < FromDigits(s)
  {
    if |s| > 1 {
      var older := s[..|s| - 1];
      CanonicalIsDigits(older);
      assert FromDigits(s) / 10 == FromDigits(older);
      assert s == older + [s[|s| - 1]];
    } else {
      assert s[..0] == [];
      assert s == [s[0]];
    }
  }

  lemma {:induction false} ScanOfDigits(s: bytes)
    ensures AllDigits(s) && FromDigits(s) < TWO64 ==> Scan(s) == Number(FromDigits(s))
    ensures Scan(s).Number? ==> AllDigits(s) && Scan(s).n == FromDigits(s)
  {
    if s != [] {
      ScanOfDigits(s[..|s| - 1]);
      assert s == s[..|s| - 1] + [s[|s| - 1]];
    }
  }

  predicate CanonicalUint(s: bytes) {
    Canonical(s) && FromDigits(s) < TWO64
  }

  predicate CanonicalInt(s: bytes) {
    if s != [] && s[0] == MINUS then
      Canonical(s[1..]) && 0 < FromDigits(s[1..]) <= TWO63
    else Canonical(s) && FromDigits(s) < TWO63
  }

  /** Reading a numeral and printing it again gives the numeral exactly when it was canonical. */
  lemma UintTextRoundTrip(s: bytes)
    ensures Digits(ParseUint(s)) == s <==> CanonicalUint(s)
  {
    if Canonical(s) && FromDigits(s) < TWO64 {
      ScanOfDigits(s);
      CanonicalIsDigits(s);
    }
    DigitsAreCanonical(ParseUint(s));
  }

  lemma ParseDigitsOfDigits(n: nat, negative: bool)
    requires if negative then n <= TWO63 else n < TWO63
    ensures ParseDigits(Digits(n), negative) == if negative then -(n as int) else n
  {
    DigitsAreCanonical(n);
    ScanOfDigits(Digits(n));
  }

  /** Every int64 survives printing and reading. */
  lemma ParseIntOfFormat(x: int64)
    ensures ParseInt(FormatInt(x)) == x
  {
    ParseDigitsOfDigits(Magnitude(x), x < 0);
    var s := FormatInt(x);
    if x < 0 {
      assert s[1..] == Digits(Magnitude(x));
    } else {
      assert IsDigit(s[0]);
    }
  }

  lemma CanonicalIntIsFormat(s: bytes)
    requires CanonicalInt(s)
    ensures FormatInt(ParseInt(s)) == s
  {
    var negative := s[0] == MINUS;
    var digits := if negative then s[1..] else s;
    CanonicalIsDigits(digits);
    assert IsDigit(digits[0]);
    var x := if negative then -(FromDigits(digits) as int) else FromDigits(digits);
    assert FormatInt(x) == s;
    ParseIntOfFormat(x);
  }

  lemma FormatIsCanonicalInt(x: int64)
    ensures CanonicalInt(FormatInt(x))
  {
    var digits := Digits(Magnitude(x));
    DigitsAreCanonical(Magnitude(x));
    if x < 0 {
      assert FormatInt(x)[1..] == digits;
    } else {
      assert IsDigit(digits[0]);
    }
  }

  lemma IntTextRoundTrip(s: bytes)
    ensures FormatInt(ParseInt(s)) == s <==> CanonicalInt(s)
  {
    if CanonicalInt(s) {
      CanonicalIntIsFormat(s);
    }
    FormatIsCanonicalInt(ParseInt(s));
  }

  // ----- What else is read

  lemma {:induction false} ScanOfLargeDigits(s: bytes)
    requires AllDigits(s) && TWO64 <= FromDigits(s)
    ensures Scan(s) == TooLarge
  {
    var before := s[..|s| - 1];
    if TWO64 <= FromDigits(before) {
      ScanOfLargeDigits(before);
    } else {
      ScanOfDigits(before);
    }
  }

  /** A numeral is read as its value or the nearest number there is; the sign is a '-' or a '+'. */
  lemma NumeralsAreRead(s: bytes)
    requires s != [] && AllDigits(s)
    ensures var n := FromDigits(s);
      && ParseUint(s) == (if n < 0x1_0000_0000_0000_0000 then n else 0xFFFF_FFFF_FFFF_FFFF)
      && ParseInt(s) == (if n < 0x8000_0000_0000_0000 then n else 0x7FFF_FFFF_FFFF_FFFF)
      && ParseInt([43] + s) == ParseInt(s)
      && ParseInt([45] + s) == (if n < 0x8000_0000_0000_0000 then -(n as int) else -0x8000_0000_0000_0000)
  {
    if FromDigits(s) < TWO64 {
      ScanOfDigits(s);
    } else {
      ScanOfLargeDigits(s);
    }
    assert IsDigit(s[0]);
    assert ([43] + s)[1..] == s && ([45] + s)[1..] == s;
  }

  lemma {:induction false} ScanStopsAtBad(digits: bytes, bad: byte, rest: bytes)
    requires AllDigits(digits) && FromDigits(digits) < TWO64 && !IsDigit(bad)
    ensures Scan(digits + [bad] + rest) == BadSyntax
    decreases |rest|
  {
    var s := digits + [bad] + rest;
    if rest == [] {
      assert s[..|s| - 1] == digits;
      ScanOfDigits(digits);
    } else {
      assert s[..|s| - 1] == digits + [bad] + rest[..|rest| - 1];
      ScanStopsAtBad(digits, bad, rest[..|rest| - 1]);
    }
  }

  /** Text with anything but digits after its sign is read as zero, unless the digits in front are too many. */
  lemma OtherTextIsZero(digits: bytes, bad: byte, rest: bytes)
    requires AllDigits(digits) && FromDigits(digits) < 0x1_0000_0000_0000_0000 && !(48 <= bad <= 57)
    ensures ParseUint(digits + [bad] + rest) == 0
    ensures ParseInt([45] + (digits + [bad] + rest)) == 0 && ParseInt([43] + (digits + [bad] + rest)) == 0
    ensures digits != [] || bad !in {43, 45} ==> ParseInt(digits + [bad] + rest) == 0
    ensures ParseUint([]) == 0 && ParseInt([]) == 0 && ParseInt([43]) == 0 && ParseInt([45]) == 0
  {
    var s := digits + [bad] + rest;
    ScanStopsAtBad(digits, bad, rest);
    assert ([43] + s)[1..] == s && ([45] + s)[1..] == s;
    assert digits != [] ==> IsDigit(s[0]);
  }

  // ----- Leading zeros

  function TrimLeftZeros(s: bytes): (t: bytes)
    ensures |t| <= |s|
  {
    if s != [] && s[0] == ZERO then TrimLeftZeros(s[1..]) else s
  }

  lemma {:induction false} TrimmedZeros(s: bytes)
    requires AllDigits(s)
    ensures TrimLeftZeros(s) == [] <==> forall i :: 0 <= i < |s| ==> s[i] == ZERO
    ensures TrimLeftZeros(s) != [] ==> Canonical(TrimLeftZeros(s)) && TrimLeftZeros(s)[0] != ZERO
    ensures FromDigits(TrimLeftZeros(s)) == FromDigits(s)
  {
    if s != [] && s[0] == ZERO {
      TrimmedZeros(s[1..]);
      LeadingZeroDigit(s[1..]);
      assert s == [ZERO] + s[1..];
    }
  }

  lemma {:induction false} LeadingZeroDigit(s: bytes)
    requires AllDigits(s)
    ensures FromDigits([ZERO] + s) == FromDigits(s)
  {
    if s == [] {
      assert ([ZERO] + s)[..0] == [];
    } else {
      assert ([ZERO] + s)[..|s|] == [ZERO] + s[..|s| - 1];
      LeadingZeroDigit(s[..|s| - 1]);
    }
  }

  // ----- Hexadecimal

  function HexDigit(n: nat): byte
    requires n < 16
  {
    if n < 10 then 48 + n else 87 + n
  }

  function HexValue(b: byte): Option<nat> {
    if 48 <= b <= 57 then Some(b as int - 48)
    else if 97 <= b <= 102 then Some(b as int - 87)
    else if 65 <= b <= 70 then Some(b as int - 55)
    else None
  }

  /** hex.EncodeToString: two lower-case digits a byte. */
  function HexEncode(b: bytes): (s: bytes)
    ensures |s| == 2 * |b|
  {
    if b == [] then [] else [HexDigit(b[0] / 16), HexDigit(b[0] % 16)] + HexEncode(b[1..])
  }

  /** hex.DecodeString: an even number of digits of either case, otherwise an error. */
  function HexDecode(s: bytes): (r: Option<bytes>)
    ensures r.Some? ==> |s| == 2 * |r.value|
  {
    if s == [] then Some([])
    else if |s| == 1 then None
    else
      var hi, lo, rest := HexValue(s[0]), HexValue(s[1]), HexDecode(s[2..]);
      if hi.None? || lo.None? || rest.None? then None
      else Some([16 * hi.value + lo.value] + rest.value)
  }

  lemma {:induction false} HexDecodeOfEncode(b: bytes)
    ensures HexDecode(HexEncode(b)) == Some(b)
  {
    if b != [] {
      HexDecodeOfEncode(b[1..]);
      assert HexEncode(b)[2..] == HexEncode(b[1..]);
      assert b == [b[0]] + b[1..];
    }
  }

  /** The digits are the ASCII ones, the most significant first, and the letters are small. */
  lemma PrintedLikeThis()
    ensures FormatInt(-9075) == [45, 57, 48, 55, 53] && ParseInt([45, 57, 48, 55, 53]) == -9075
    ensures HexEncode([0x09, 0xaf]) == [48, 57, 97, 102]
  {
    assert Digits(90) == [57, 48];
    assert Digits(9075) == [57, 48, 55, 53];
    ParseIntOfFormat(-9075);
    assert HexEncode([0xaf]) == [97, 102];
  }

  predicate HasUpperCase(s: bytes) {
    s != [] && (65 <= s[0] <= 90 || HasUpperCase(s[1..]))
  }

  /** Decodable text is printed back as it was exactly when it has no upper-case digit. */
  lemma {:induction false} HexEncodeOfDecode(s: bytes)
    requires HexDecode(s).Some?
    ensures HexEncode(HexDecode(s).value) == s <==> !HasUpperCase(s)
  {
    if s != [] {
      var b := HexDecode(s).value;
      HexEncodeOfDecode(s[2..]);
      assert b[1..] == HexDecode(s[2..]).value;
      assert s == [s[0], s[1]] + s[2..];
      assert s[1..][1..] == s[2..];
    }
  }
}
