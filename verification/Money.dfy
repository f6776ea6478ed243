/** Amounts as text with a decimal point: accounts, wallets and the history's EGS amounts. */
module Money {
  import opened Bytes
  import opened Text

  const DOT: byte := 46
  const EGS_DIGIT := 18

  function Repeated(b: byte, n: nat): (s: bytes)
    ensures |s| == n && forall i :: 0 <= i < n ==> s[i] == b
  {
    seq(n, _ => b)
  }

  /** Zeros in front, up to digit + 1 bytes. */
  function Padded(amount: bytes, digit: nat): (s: bytes)
    ensures digit < |s|
  {
    if |amount| < digit + 1 then Repeated(ZERO, digit + 1 - |amount|) + amount else amount
  }

  function Whole(amount: bytes, digit: nat): bytes {
    var s := Padded(amount, digit);
    s[..|s| - digit]
  }

  function Fraction(amount: bytes, digit: nat): bytes {
    var s := Padded(amount, digit);
    s[|s| - digit..]
  }

  function Pointed(amount: bytes, digit: nat): bytes {
    Whole(amount, digit) + [DOT] + Fraction(amount, digit)
  }

  function AccountText(text: bytes, digit: int): bytes {
    if text == SQL_NULL || text == [] then []
    else if digit <= 0 then text
    else Pointed(text, digit)
  }

  function WalletText(text: bytes): bytes {
    if text == [ZERO] then text else Pointed(text, EGS_DIGIT)
  }

  /** The newAccount closure of Accounts. */
  method AccountAmount(text: bytes, digit: int) returns (amount: bytes)
    ensures amount == AccountText(text, digit)
  {
    amount := text;
    if amount == SQL_NULL {
      amount := [];
    } else if |amount| > 0 {
      if digit > 0 {
        if |amount| < digit + 1 {
          amount := Repeated(ZERO, digit + 1 - |amount|) + amount;
        }
        amount := amount[..|amount| - digit] + [DOT] + amount[|amount| - digit..];
      }
    }
  }

  /** The amount formatting of EditWallet. */
  method WalletAmount(text: bytes) returns (ret: bytes)
    ensures ret == WalletText(text)
  {
    ret := text;
    if ret != [ZERO] {
      if |ret| < EGS_DIGIT + 1 {
        ret := Repeated(ZERO, EGS_DIGIT + 1 - |ret|) + ret;
      }
      ret := ret[..|ret| - EGS_DIGIT] + [DOT] + ret[|ret| - EGS_DIGIT..];
    }
  }

  /** The two agree at 18 digits on all texts but three. */
  lemma FormattersAgree(text: bytes)
    ensures WalletText(text) == AccountText(text, EGS_DIGIT) <==> text != [ZERO] && text != [] && text != SQL_NULL
  {
    if text == [ZERO] {
      assert |AccountText(text, EGS_DIGIT)| == 20;
    } else {
      assert WalletText(text) != [];
    }
  }

  /** s with a point so many bytes from the end, and how many zeros were put in front of the amount first. */
  ghost predicate IsPointed(s: bytes, amount: bytes, digit: nat, zeros: nat) {
    && digit + 1 <= |s|
    && s[|s| - digit - 1] == 46
    && s[..|s| - digit - 1] + s[|s| - digit..] == seq(zeros, _ => 48) + amount
  }

  /**
   Accounts show an amount with a point before the last `digit` bytes, after zeros enough for one byte before
   the point, an amount without digits behind the point as it is, and nothing for a missing one; wallets show
   the first, with eighteen.
   */
  lemma PointStandsThere(text: bytes, digit: nat)
    ensures var zeros := if |text| < digit + 1 then digit + 1 - |text| else 0;
      && (0 < digit && text != [] && text != SQL_NULL ==> IsPointed(AccountText(text, digit), text, digit, zeros))
      && (text != [48] && digit == 18 ==> IsPointed(WalletText(text), text, 18, zeros))
    ensures text != [] && text != SQL_NULL ==> AccountText(text, 0) == text
    ensures AccountText([], digit) == AccountText(Ascii("NULL"), digit) == []
  {
    PointedHere(text, digit);
  }

  lemma PointedHere(text: bytes, digit: nat)
    ensures IsPointed(Pointed(text, digit), text, digit, if |text| < digit + 1 then digit + 1 - |text| else 0)
  {
    var zeros := if |text| < digit + 1 then digit + 1 - |text| else 0;
    PaddedHere(text, digit, zeros);
    SplitAt(Whole(text, digit), DOT, Fraction(text, digit));
  }

  lemma PaddedHere(text: bytes, digit: nat, zeros: nat)
    requires zeros == if |text| < digit + 1 then digit + 1 - |text| else 0
    ensures Whole(text, digit) + Fraction(text, digit) == seq(zeros, _ => 48) + text
  {
    var front := seq(zeros, _ => 48);
    assert Repeated(ZERO, zeros) == front;
    assert Padded(text, digit) == front + text;
    assert Whole(text, digit) + Fraction(text, digit) == Padded(text, digit);
  }

  lemma SplitAt(a: bytes, b: byte, c: bytes)
    ensures var s := a + [b] + c; s[|a|] == b && s[..|a|] == a && s[|a| + 1..] == c
  {
  }

  // ----- What the text is worth

  lemma Scale(x: nat, y: nat, v: nat, d: nat)
    ensures 10 * (x * y + v) + d == x * (10 * y) + (10 * v + d)
  {
  }

  lemma {:induction false} DigitsConcat(a: bytes, b: bytes)
    requires AllDigits(a) && AllDigits(b)
    ensures FromDigits(a + b) == FromDigits(a) * Pow10(|b|) + FromDigits(b)
  {
    if b == [] {
      assert a + b == a && Pow10(0) == 1;
    } else {
      var b', last := b[..|b| - 1], b[|b| - 1] as int - 48;
      DigitsConcat(a, b');
      DigitSnoc(a + b, a + b', last);
      DigitSnoc(b, b', last);
      Scale(FromDigits(a), Pow10(|b'|), FromDigits(b'), last);
    }
  }

  lemma DigitSnoc(s: bytes, s': bytes, last: nat)
    requires AllDigits(s) && s != [] && s' == s[..|s| - 1] && last == s[|s| - 1] as int - 48
    ensures FromDigits(s) == 10 * FromDigits(s') + last
  {
  }

  lemma {:induction false} ZerosInFront(n: nat, s: bytes)
    requires AllDigits(s)
    ensures TrimLeftZeros(Repeated(ZERO, n) + s) == TrimLeftZeros(s)
    ensures FromDigits(Repeated(ZERO, n) + s) == FromDigits(s)
  {
    var t := Repeated(ZERO, n) + s;
    if n == 0 {
      assert t == s;
    } else {
      assert t[1..] == Repeated(ZERO, n - 1) + s;
      assert t == [ZERO] + t[1..];
      LeadingZeroDigit(t[1..]);
      ZerosInFront(n - 1, s);
    }
  }

  lemma PaddingIsWorthless(amount: bytes, digit: nat)
    requires AllDigits(amount)
    ensures AllDigits(Padded(amount, digit))
    ensures FromDigits(Padded(amount, digit)) == FromDigits(amount)
    ensures TrimLeftZeros(Padded(amount, digit)) == TrimLeftZeros(amount)
  {
    if |amount| < digit + 1 {
      ZerosInFront(digit + 1 - |amount|, amount);
    }
  }

  /**
   For every digit string and digit count: exactly `digit` fractional digits, a non-empty whole part, and
   the amount's value in units of 10 to the -digit.
   */
  lemma FixedPointIsExact(amount: bytes, digit: nat)
    requires AllDigits(amount)
    ensures var whole, fraction := Whole(amount, digit), Fraction(amount, digit);
      && AllDigits(whole) && AllDigits(fraction) && whole != [] && |fraction| == digit
      && FromDigits(whole) * Pow10(digit) + FromDigits(fraction) == FromDigits(amount)
  {
    PaddingIsWorthless(amount, digit);
    DigitsConcat(Whole(amount, digit), Fraction(amount, digit));
    assert Whole(amount, digit) + Fraction(amount, digit) == Padded(amount, digit);
  }

  function WithoutPoint(s: bytes): bytes {
    if s == [] then [] else (if s[0] == DOT then [] else [s[0]]) + WithoutPoint(s[1..])
  }

  lemma {:induction false} DigitsHaveNoPoint(s: bytes)
    requires AllDigits(s)
    ensures WithoutPoint(s) == s
  {
    if s != [] {
      DigitsHaveNoPoint(s[1..]);
      assert s == [s[0]] + s[1..];
    }
  }

  lemma {:induction false} WithoutPointConcat(a: bytes, b: bytes)
    ensures WithoutPoint(a + b) == WithoutPoint(a) + WithoutPoint(b)
  {
    if a == [] {
      assert a + b == b;
    } else {
      var first := if a[0] == DOT then [] else [a[0]];
      WithoutPointConcat(a[1..], b);
      assert (a + b)[1..] == a[1..] + b;
      assert first + (WithoutPoint(a[1..]) + WithoutPoint(b)) == first + WithoutPoint(a[1..]) + WithoutPoint(b);
    }
  }

  lemma PointIsDropped(a: bytes, b: bytes)
    requires AllDigits(a) && AllDigits(b)
    ensures WithoutPoint(a + [DOT] + b) == a + b
  {
    DigitsHaveNoPoint(a);
    DigitsHaveNoPoint(b);
    WithoutPointConcat(a, [DOT]);
    WithoutPointConcat(a + [DOT], b);
    assert WithoutPoint([DOT]) == [];
  }

  lemma PointedWithoutPoint(amount: bytes, digit: nat)
    requires AllDigits(Padded(amount, digit))
    ensures WithoutPoint(Pointed(amount, digit)) == Padded(amount, digit)
  {
    PointIsDropped(Whole(amount, digit), Fraction(amount, digit));
    assert Whole(amount, digit) + Fraction(amount, digit) == Padded(amount, digit);
  }

  /** Dropping the point and the leading zeros gives back the amount, but for its own leading zeros. */
  lemma AmountIsRecovered(amount: bytes, digit: nat)
    requires AllDigits(amount)
    ensures TrimLeftZeros(WithoutPoint(Pointed(amount, digit))) == TrimLeftZeros(amount)
    ensures Canonical(amount) && amount != [ZERO] ==> TrimLeftZeros(amount) == amount
  {
    PaddingIsWorthless(amount, digit);
    PointedWithoutPoint(amount, digit);
  }

  /** A minus sign stays in front of a non-empty whole part exactly when more than `digit` digits follow it. */
  lemma SignStaysInFront(digits: bytes, digit: nat)
    requires AllDigits(digits) && digits != []
    ensures (exists whole :: whole != [] && AllDigits(whole) && Whole([MINUS] + digits, digit) == [MINUS] + whole)
            <==> digit < |digits|
  {
    var amount := [MINUS] + digits;
    if digit < |digits| {
      assert Whole(amount, digit) == [MINUS] + digits[..|digits| - digit];
    } else if |digits| == digit {
      assert |Whole(amount, digit)| == 1;
    } else {
      assert Whole(amount, digit)[0] == ZERO;
    }
  }

  // ----- EGSMoney

  function TrimRight(s: bytes, b: byte): (t: bytes)
    ensures |t| <= |s|
  {
    if s != [] && s[|s| - 1] == b then TrimRight(s[..|s| - 1], b) else s
  }

  /** The part that is left when trailing zeros go, and how many went. */
  lemma {:induction false} TrailingZerosGo(prefix: bytes, s: bytes)
    requires AllDigits(s) && (prefix == [] || prefix[|prefix| - 1] != ZERO)
    ensures var t := TrimRight(s, ZERO);
      && TrimRight(prefix + s, ZERO) == prefix + t
      && AllDigits(t) && (t == [] || t[|t| - 1] != ZERO)
      && FromDigits(t) * Pow10(|s| - |t|) == FromDigits(s)
  {
    var t := TrimRight(s, ZERO);
    if s != [] && s[|s| - 1] == ZERO {
      var s' := s[..|s| - 1];
      assert (prefix + s)[..|prefix + s| - 1] == prefix + s';
      TrailingZerosGo(prefix, s');
      DigitSnoc(s, s', 0);
      Scale(FromDigits(t), Pow10(|s'| - |t|), 0, 0);
    } else if s == [] {
      assert prefix + s == prefix;
    }
  }

  /** The shortest text for an amount in units of 10 to the -digit. */
  function Shortened(amount: bytes, digit: nat): bytes {
    TrimRight(TrimRight(Pointed(amount, digit), ZERO), DOT)
  }

  /** Whole part and fraction of the text, the fraction without trailing zeros. */
  function Parts(amount: bytes, digit: nat): (bytes, bytes) {
    (Whole(amount, digit), TrimRight(Fraction(amount, digit), ZERO))
  }

  /**
   The shortest exact form of a digit string: without a point for a whole amount, otherwise with at most
   `digit` fractional digits of which the last is not zero, worth the amount in units of 10 to the -digit.
   */
  ghost predicate IsShortest(text: bytes, amount: bytes, digit: nat) {
    var (whole, rest) := Parts(amount, digit);
    && text == (if rest == [] then whole else whole + [DOT] + rest)
    && whole != [] && AllDigits(whole) && AllDigits(rest) && |rest| <= digit
    && (rest != [] ==> rest[|rest| - 1] != ZERO)
    && AllDigits(amount)
    && FromDigits(whole) * Pow10(digit) + FromDigits(rest) * Pow10(digit - |rest|) == FromDigits(amount)
  }

  lemma PartsAreExact(amount: bytes, digit: nat)
    requires AllDigits(amount)
    ensures var (whole, rest) := Parts(amount, digit);
      && whole != [] && AllDigits(whole) && AllDigits(rest) && |rest| <= digit
      && (rest != [] ==> rest[|rest| - 1] != ZERO)
      && FromDigits(whole) * Pow10(digit) + FromDigits(rest) * Pow10(digit - |rest|) == FromDigits(amount)
  {
    FixedPointIsExact(amount, digit);
    TrailingZerosGo([], Fraction(amount, digit));
  }

  lemma TextIsParts(amount: bytes, digit: nat)
    requires AllDigits(amount)
    ensures var (whole, rest) := Parts(amount, digit);
      Shortened(amount, digit) == if rest == [] then whole else whole + [DOT] + rest
  {
    var (whole, rest) := Parts(amount, digit);
    PaddingIsWorthless(amount, digit);
    TrailingZerosGo(whole + [DOT], Fraction(amount, digit));
    var money := whole + [DOT] + rest;
    if rest == [] {
      assert money[..|money| - 1] == whole && TrimRight(whole, DOT) == whole;
    } else {
      assert money[|money| - 1] == rest[|rest| - 1] != DOT;
    }
  }

  lemma TextIsExactAndShort(amount: bytes, digit: nat)
    requires AllDigits(amount)
    ensures IsShortest(Shortened(amount, digit), amount, digit)
  {
    PartsAreExact(amount, digit);
    TextIsParts(amount, digit);
  }

  method EGSMoney(amount: bytes) returns (money: bytes)
    ensures money == Shortened(amount, EGS_DIGIT)
    ensures AllDigits(amount) ==> IsShortest(money, amount, EGS_DIGIT)
  {
    money := Shorten(amount, EGS_DIGIT);
    if AllDigits(amount) {
      TextIsExactAndShort(amount, EGS_DIGIT);
    }
  }

  /** The body of EGSMoney, for any digit count. */
  method Shorten(amount: bytes, digit: nat) returns (money: bytes)
    ensures money == Shortened(amount, digit)
  {
    money := amount;
    if |money| < digit + 1 {
      money := Repeated(ZERO, digit + 1 - |money|) + money;
    }
    money := money[..|money| - digit] + [DOT] + money[|money| - digit..];
    money := TrimRight(TrimRight(money, ZERO), DOT);
  }
}
