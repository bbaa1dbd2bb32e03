/** Decimal text: what `std::to_string` and `operator<<` print for an int, and what `std::stoi` makes of a string. */
module Decimal {
  import opened Options

  type Int32 = x: int | -0x8000_0000 <= x < 0x8000_0000

  predicate IsDigit(c: char) {
    '0' <= c <= '9'
  }

  function Digit(d: nat): (c: char)
    requires d < 10
    ensures IsDigit(c) && DigitOf(c) == d
  {
    ['0', '1', '2', '3', '4', '5', '6', '7', '8', '9'][d]
  }

  function DigitOf(c: char): (d: nat)
    requires IsDigit(c)
    ensures d < 10
  {
    c as int - '0' as int
  }

  function NatToString(n: nat): (s: string)
    ensures s != [] && forall i :: 0 <= i < |s| ==> IsDigit(s[i])
  {
    if n < 10 then [Digit(n)] else NatToString(n / 10) + [Digit(n % 10)]
  }

  function IntToString(n: int): (s: string)
    ensures s != [] && forall i :: 0 <= i < |s| ==> IsDigit(s[i]) || s[i] == '-'
  {
    if n < 0 then "-" + NatToString(-n) else NatToString(n)
  }

  /** The leading digits of `s` read on from `acc`. */
  function Accumulate(s: string, acc: nat): nat {
    if s == [] || !IsDigit(s[0]) then acc else Accumulate(s[1..], 10 * acc + DigitOf(s[0]))
  }

  predicate IsSpace(c: char) {
    c == ' ' || '\t' as int <= c as int <= '\r' as int
  }

  function SkipSpaces(s: string): string {
    if s != [] && IsSpace(s[0]) then SkipSpaces(s[1..]) else s
  }

  /**
   `std::stoi`: leading white space, an optional sign, then digits as far as they go; what follows is ignored.
   None stands for the exceptions `invalid_argument` (no digit) and `out_of_range` (not a 32-bit int).
   */
  function Stoi(s: string): Option<Int32> {
    var t := SkipSpaces(s);
    var negative := t != [] && t[0] == '-';
    var digits := if t != [] && (t[0] == '-' || t[0] == '+') then t[1..] else t;
    if digits == [] || !IsDigit(digits[0]) then None
    else
      var n: int := if negative then 0 - Accumulate(digits, 0) else Accumulate(digits, 0);
      if -0x8000_0000 <= n < 0x8000_0000 then Some(n) else None
  }

  lemma {:induction false} AccumulateAppend(s: string, c: char, acc: nat)
    requires (forall i :: 0 <= i < |s| ==> IsDigit(s[i])) && IsDigit(c)
    ensures Accumulate(s + [c], acc) == 10 * Accumulate(s, acc) + DigitOf(c)
  {
    if s == [] {
      assert ([c])[1..] == [];
      assert s + [c] == [c];
    } else {
      assert (s + [c])[1..] == s[1..] + [c];
      AccumulateAppend(s[1..], c, 10 * acc + DigitOf(s[0]));
    }
  }

  lemma {:induction false} AccumulatePrinted(n: nat)
    ensures Accumulate(NatToString(n), 0) == n
  {
    if n < 10 {
      assert NatToString(n)[1..] == [];
    } else {
      AccumulatePrinted(n / 10);
      AccumulateAppend(NatToString(n / 10), Digit(n % 10), 0);
    }
  }

  /** Reading back a printed 32-bit int gives the int. */
  lemma StoiOfPrinted(n: Int32)
    ensures Stoi(IntToString(n)) == Some(n)
  {
    var s := IntToString(n);
    var m: nat := if n < 0 then -(n as int) else n;
    AccumulatePrinted(m);
    assert IsDigit(NatToString(m)[0]);
    assert SkipSpaces(s) == s;
    if n < 0 {
      assert s[1..] == NatToString(m);
    }
  }

  // ----- the text itself

  /** Ten to the n. */
  function Power(n: nat): nat {
    if n == 0 then 1 else 10 * Power(n - 1)
  }

  function FaceValue(c: char): nat
    requires IsDigit(c)
  {
    c as int - '0' as int
  }

  /** What a row of digits is worth, place by place. */
  function Worth(digits: string): nat
    requires AreDigits(digits)
  {
    if digits == [] then 0 else FaceValue(digits[0]) * Power(|digits| - 1) + Worth(digits[1..])
  }

  lemma {:induction false} WorthAppend(s: string, c: char)
    requires AreDigits(s) && IsDigit(c)
    ensures AreDigits(s + [c])
    ensures Worth(s + [c]) == 10 * Worth(s) + FaceValue(c)
  {
    if s == [] {
      assert [c][1..] == [] && s + [c] == [c];
      assert Power(0) == 1;
    } else {
      assert (s + [c])[1..] == s[1..] + [c] && (s + [c])[0] == s[0];
      WorthAppend(s[1..], c);
      TenTimes(FaceValue(s[0]), Power(|s| - 1), Worth(s[1..]));
      assert Power(|s|) == 10 * Power(|s| - 1);
    }
  }

  lemma TenTimes(d: int, p: int, w: int)
    ensures d * (10 * p) + 10 * w == 10 * (d * p + w)
  {
  }

  /** A number is printed as digits that are worth the number, without a leading zero unless it is 0. */
  lemma {:induction false} NatPrinted(n: nat)
    ensures AreDigits(NatToString(n)) && Worth(NatToString(n)) == n
    ensures NatToString(n)[0] == '0' ==> n == 0 && NatToString(n) == "0"
  {
    if n < 10 {
      assert NatToString(n)[1..] == [];
      assert Power(0) == 1;
    } else {
      NatPrinted(n / 10);
      WorthAppend(NatToString(n / 10), Digit(n % 10));
      assert NatToString(n)[0] == NatToString(n / 10)[0];
    }
  }

  /** A negative number has one minus sign before its digits, any other none. */
  lemma IntPrinted(n: int)
    ensures n < 0 ==> IntToString(n)[0] == '-' && IntToString(n)[1..] == NatToString(-n)
    ensures n >= 0 ==> IntToString(n) == NatToString(n) && IntToString(n)[0] != '-'
  {
  }

  // ----- what is read

  lemma {:induction false} AccumulateWorth(digits: string, rest: string, acc: nat)
    requires AreDigits(digits)
    requires rest == [] || !IsDigit(rest[0])
    ensures Accumulate(digits + rest, acc) == acc * Power(|digits|) + Worth(digits)
    decreases |digits|
  {
    if digits == [] {
      assert digits + rest == rest;
      assert Power(0) == 1;
    } else {
      assert (digits + rest)[1..] == digits[1..] + rest && (digits + rest)[0] == digits[0];
      AccumulateWorth(digits[1..], rest, 10 * acc + DigitOf(digits[0]));
      Distribute(acc, DigitOf(digits[0]), Power(|digits| - 1));
      assert Power(|digits|) == 10 * Power(|digits| - 1);
    }
  }

  lemma Distribute(acc: int, d: int, p: int)
    ensures (10 * acc + d) * p == acc * (10 * p) + d * p
  {
  }

  lemma {:induction false} SkipAll(spaces: string, rest: string)
    requires AreSpaces(spaces) && (rest == [] || !IsSpace(rest[0]))
    ensures SkipSpaces(spaces + rest) == rest
    decreases |spaces|
  {
    if spaces == [] {
      assert spaces + rest == rest;
    } else {
      assert (spaces + rest)[1..] == spaces[1..] + rest;
      SkipAll(spaces[1..], rest);
    }
  }

  /** An int that has 32 bits. */
  function Fitting(n: int): Option<Int32> {
    if -0x8000_0000 <= n < 0x8000_0000 then Some(n) else None
  }

  lemma StoiSigned(s: string, sign: string, body: string)
    requires SkipSpaces(s) == sign + body && (sign == "" || sign == "+" || sign == "-")
    requires body != [] && IsDigit(body[0])
    ensures var n: int := if sign == "-" then 0 - Accumulate(body, 0) else Accumulate(body, 0);
            Stoi(s) == Fitting(n)
  {
    if sign == "" {
      assert sign + body == body;
    } else {
      assert (sign + body)[0] == sign[0] && (sign + body)[1..] == body;
    }
  }

  predicate AreSpaces(s: string) {
    forall i :: 0 <= i < |s| ==> IsSpace(s[i])
  }

  predicate AreDigits(s: string) {
    forall i :: 0 <= i < |s| ==> IsDigit(s[i])
  }

  predicate IsSign(s: string) {
    s == "" || s == "+" || s == "-"
  }

  lemma StoiRead(s: string, spaces: string, sign: string, body: string)
    requires s == spaces + (sign + body) && AreSpaces(spaces) && IsSign(sign) && body != [] && IsDigit(body[0])
    ensures Stoi(s) == Fitting(if sign == "-" then 0 - Accumulate(body, 0) else Accumulate(body, 0))
  {
    assert (sign + body)[0] == if sign == "" then body[0] else sign[0];
    SkipAll(spaces, sign + body);
    StoiSigned(s, sign, body);
  }

  lemma ReadAll(digits: string, rest: string, body: string)
    requires digits != [] && AreDigits(digits) && (rest == [] || !IsDigit(rest[0])) && body == digits + rest
    ensures body != [] && IsDigit(body[0]) && Accumulate(body, 0) == Worth(digits)
  {
    assert body[0] == digits[0];
    AccumulateWorth(digits, rest, 0);
    assert 0 * Power(|digits|) == 0;
  }

  /** White space, a sign or none, digits, and anything that does not go on with a digit: read exactly if it fits. */
  lemma StoiExact(s: string, spaces: string, sign: string, digits: string, rest: string)
    requires s == spaces + (sign + (digits + rest)) && AreSpaces(spaces) && IsSign(sign)
    requires digits != [] && AreDigits(digits) && (rest == [] || !IsDigit(rest[0]))
    ensures Stoi(s) == Fitting(if sign == "-" then 0 - Worth(digits) else Worth(digits))
  {
    ReadAll(digits, rest, digits + rest);
    StoiRead(s, spaces, sign, digits + rest);
  }

  /** Without a digit behind white space and sign nothing is read. */
  lemma StoiNothing(s: string, spaces: string, sign: string, rest: string)
    requires s == spaces + (sign + rest)
    requires AreSpaces(spaces) && IsSign(sign) && (rest == [] || !IsDigit(rest[0]))
    requires sign == "" ==> rest == [] || (!IsSpace(rest[0]) && rest[0] != '+' && rest[0] != '-')
    ensures Stoi(s) == None
  {
    var t := sign + rest;
    if sign == "" {
      assert t == rest;
    } else {
      assert t[0] == sign[0] && t[1..] == rest;
    }
    SkipAll(spaces, t);
  }
}
