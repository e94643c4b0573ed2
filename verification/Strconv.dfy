/** Decimal text of 64-bit integers: Go's strconv.FormatInt, ParseInt and Atoi in base ten. */
module Strconv {
  import opened Basics

  const MINUS: byte := 45
  const PLUS: byte := 43

  predicate IsDigit(b: byte) {
    48 <= b <= 57
  }

  function FormatNat(n: nat): (text: Bytes)
    ensures text != [] && forall i :: 0 <= i < |text| ==> IsDigit(text[i])
  {
    if n < 10 then [48 + n] else FormatNat(n / 10) + [48 + n % 10]
  }

  function FormatInt(i: int): Bytes {
    if i < 0 then [MINUS] + FormatNat(-i) else FormatNat(i)
  }

  function ParseDigits(text: Bytes): Option<nat> {
    if text == [] || !IsDigit(Last(text)) then None
    else if |text| == 1 then Some(text[0] - 48)
    else
      match ParseDigits(DropLast(text))
      case None => None
      case Some(n) => Some(10 * n + Last(text) - 48)
  }

  /** An optional sign, then digits only, then the range check of a 64-bit integer. */
  function ParseInt(text: Bytes): Option<int> {
    if text == [] then None
    else
      var signed := text[0] == MINUS || text[0] == PLUS;
      match ParseDigits(if signed then text[1..] else text)
      case None => None
      case Some(n) =>
        var magnitude: int := n;
        var i := if text[0] == MINUS then -magnitude else magnitude;
        if MIN_INT64 <= i <= MAX_INT64 then Some(i) else None
  }

  lemma {:induction false} ParseFormatNat(n: nat)
    ensures ParseDigits(FormatNat(n)) == Some(n)
  {
    if n < 10 {
    } else {
      ParseFormatNat(n / 10);
      assert DropLast(FormatNat(n)) == FormatNat(n / 10);
    }
  }

  lemma ParseFormatInt(i: int)
    ensures ParseInt(FormatInt(i)) == if MIN_INT64 <= i <= MAX_INT64 then Some(i) else None
  {
    if i < 0 {
      ParseFormatNat(-i);
      assert FormatInt(i)[1..] == FormatNat(-i);
    } else {
      ParseFormatNat(i);
    }
  }

  /** The text is digits with at most a leading minus, so it holds no separator. */
  lemma FormatIntHasNoSeparator(i: int)
    ensures DOT !in FormatInt(i) && COLON !in FormatInt(i)
  {}

  // ---- What the digits mean ---------------------------------------------------------

  predicate AllDigits(text: Bytes) {
    forall i :: 0 <= i < |text| ==> IsDigit(text[i])
  }

  function Pow10(n: nat): nat {
    if n == 0 then 1 else 10 * Pow10(n - 1)
  }

  function DigitsValue(digits: Bytes): int {
    match ParseDigits(digits) case Some(n) => n case None => 0
  }

  /** Digits are a number: one digit is itself, and a front digit counts for its place. */
  lemma {:induction false} DigitsArePositional(text: Bytes)
    ensures ParseDigits(text).Some? <==> text != [] && AllDigits(text)
    ensures |text| == 1 && AllDigits(text) ==> ParseDigits(text) == Some(text[0] - 48)
    ensures |text| > 1 && AllDigits(text) ==>
              DigitsValue(text) == (text[0] - 48) * Pow10(|text| - 1) + DigitsValue(text[1..])
    decreases |text|
  {
    if |text| <= 1 {
    } else {
      var front := DropLast(text);
      DigitsArePositional(front);
      assert AllDigits(text) <==> AllDigits(front) && IsDigit(Last(text));
      if AllDigits(text) {
        var tail := text[1..];
        assert Last(tail) == Last(text) && DropLast(tail) == front[1..];
        if |text| == 2 {
          assert front == [text[0]] && tail == [text[1]];
        } else {
          DigitsArePositional(front[1..]);
          DigitsArePositional(tail);
          OneMoreDigit(text[0] - 48, Pow10(|text| - 2), DigitsValue(front[1..]), Last(text) - 48);
        }
      }
    }
  }

  lemma OneMoreDigit(first: int, place: int, middle: int, last: int)
    ensures 10 * (first * place + middle) + last == first * (10 * place) + (10 * middle + last)
  {}

  predicate IsSign(sign: Bytes) {
    sign == [] || sign == [PLUS] || sign == [MINUS]
  }

  ghost predicate Reads(text: Bytes, sign: Bytes, digits: Bytes, i: int) {
    && IsSign(sign) && digits != [] && AllDigits(digits) && text == sign + digits
    && i == if sign == [MINUS] then -DigitsValue(digits) else DigitsValue(digits)
  }

  lemma SignedDigitsParse(text: Bytes, sign: Bytes, digits: Bytes, i: int)
    requires Reads(text, sign, digits, i)
    ensures ParseInt(text) == if MIN_INT64 <= i <= MAX_INT64 then Some(i) else None
  {
    DigitsArePositional(digits);
    if sign == [] {
      assert text == digits;
    } else {
      assert text[0] == sign[0] && text[1..] == digits;
    }
  }

  /** What parses: an optional sign, digits, and a value that fits 64 bits. */
  lemma ParsesIntExactly(text: Bytes, i: int)
    ensures ParseInt(text) == Some(i)
            <==> MIN_INT64 <= i <= MAX_INT64 && exists sign, digits :: Reads(text, sign, digits, i)
  {
    if sign, digits :| Reads(text, sign, digits, i) {
      SignedDigitsParse(text, sign, digits, i);
    }
    if ParseInt(text) == Some(i) {
      var sign, digits := ParsedIsRead(text, i);
    }
  }

  lemma ParsedIsRead(text: Bytes, i: int) returns (sign: Bytes, digits: Bytes)
    requires ParseInt(text) == Some(i)
    ensures MIN_INT64 <= i <= MAX_INT64 && Reads(text, sign, digits, i)
  {
    var signed := text[0] == MINUS || text[0] == PLUS;
    sign, digits := if signed then text[..1] else [], if signed then text[1..] else text;
    DigitsArePositional(digits);
    assert text == sign + digits;
    assert signed ==> sign == [text[0]];
  }

  /** A minus is printed before negative numbers only, and never a plus. */
  lemma FormatIntSign(i: int)
    ensures if i < 0 then FormatInt(i)[0] == 45 && AllDigits(FormatInt(i)[1..]) else AllDigits(FormatInt(i))
  {}

  /** Numbers are printed without leading zeros. */
  lemma {:induction false} FormatHasNoLeadingZero(n: nat)
    ensures FormatNat(n)[0] == 48 ==> FormatNat(n) == [48] && n == 0
  {
    if n < 10 {
    } else {
      FormatHasNoLeadingZero(n / 10);
    }
  }
}
