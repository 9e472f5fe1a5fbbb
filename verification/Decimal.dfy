/** Decimal numerals: std::to_string and std::stoi. */
module Decimal {
  const INT_MAX := 0x7fff_ffff

  datatype Number = Value(n: int) | NotANumber | OutOfRange

  predicate IsDigit(c: char) {
    '0' <= c <= '9'
  }

  predicate AllDigits(s: string) {
    forall c <- s :: IsDigit(c)
  }

  function DigitChar(d: nat): char
    requires d < 10
  {
    '0' + d as char
  }

  function DigitValue(c: char): nat
    requires IsDigit(c)
  {
    c as int - '0' as int
  }

  function ToString(n: nat): (s: string)
    ensures s != [] && AllDigits(s)
    ensures s[0] == '0' <==> n == 0
    ensures n < 10 ==> |s| == 1
  {
    if n < 10 then [DigitChar(n)] else ToString(n / 10) + [DigitChar(n % 10)]
  }

  // The number a digit string stands for.
  function Numeral(s: string): nat
    requires AllDigits(s)
  {
    if s == [] then 0 else Numeral(s[..|s| - 1]) * 10 + DigitValue(s[|s| - 1])
  }

  lemma {:induction false} NumeralOfToString(n: nat)
    ensures Numeral(ToString(n)) == n
  {
    if n < 10 {
      assert [DigitChar(n)][..0] == [];
    } else {
      NumeralOfToString(n / 10);
      var t := ToString(n / 10);
      assert (t + [DigitChar(n % 10)])[..|t|] == t;
    }
  }

  predicate IsSpace(c: char) {
    c == ' ' || '\t' <= c <= '\r'
  }

  function SkipSpaces(s: string): string {
    if s != [] && IsSpace(s[0]) then SkipSpaces(s[1..]) else s
  }

  function LeadingDigits(s: string): (d: string)
    ensures AllDigits(d)
  {
    if s != [] && IsDigit(s[0]) then [s[0]] + LeadingDigits(s[1..]) else []
  }

  // std::stoi: spaces, a sign, digits; what follows is ignored.
  function Stoi(s: string): Number {
    var t := SkipSpaces(s);
    var negative := t != [] && t[0] == '-';
    var digits := LeadingDigits(if t != [] && (t[0] == '-' || t[0] == '+') then t[1..] else t);
    if digits == [] then NotANumber
    else
      var value: int := Numeral(digits);
      var n := if negative then -value else value;
      if -INT_MAX - 1 <= n <= INT_MAX then Value(n) else OutOfRange
  }

  lemma {:induction false} LeadingDigitsOfDigits(s: string)
    requires AllDigits(s)
    ensures LeadingDigits(s) == s
  {
    if s != [] {
      LeadingDigitsOfDigits(s[1..]);
    }
  }

  lemma {:induction false} StoiOfToString(n: nat)
    ensures Stoi(ToString(n)) == if n <= INT_MAX then Value(n) else OutOfRange
  {
    var s := ToString(n);
    LeadingDigitsOfDigits(s);
    NumeralOfToString(n);
    assert IsDigit(s[0]);
  }

  // ---- What stoi accepts ----

  function Value32(n: int): Number {
    if -0x8000_0000 <= n <= 0x7fff_ffff then Value(n) else OutOfRange
  }

  // White space, a sign or none, digits, and something that does not go on with a digit.
  ghost predicate IsNumeral(s: string, spaces: string, sign: string, digits: string, rest: string) {
    && s == spaces + sign + digits + rest
    && (forall c <- spaces :: c in " \t\n\U{b}\U{c}\r")
    && (sign == "" || sign == "+" || sign == "-")
    && AllDigits(digits) && digits != [] && (rest != [] ==> !('0' <= rest[0] <= '9'))
  }

  lemma {:induction false} SkippedSpaces(spaces: string, t: string)
    requires (forall c <- spaces :: c in " \t\n\U{b}\U{c}\r") && (t != [] ==> !IsSpace(t[0]))
    ensures SkipSpaces(spaces + t) == t
  {
    if spaces == [] {
      assert spaces + t == t;
    } else {
      assert spaces[0] in spaces;
      SkippedSpaces(spaces[1..], t);
      assert (spaces + t)[1..] == spaces[1..] + t;
    }
  }

  lemma {:induction false} DigitsTaken(d: string, rest: string)
    requires AllDigits(d) && (rest != [] ==> !('0' <= rest[0] <= '9'))
    ensures LeadingDigits(d + rest) == d
  {
    if d == [] {
      assert d + rest == rest;
    } else {
      DigitsTaken(d[1..], rest);
      assert (d + rest)[1..] == d[1..] + rest;
    }
  }

  lemma {:induction false} StoiReads(s: string, spaces: string, sign: string, digits: string, rest: string)
    requires IsNumeral(s, spaces, sign, digits, rest)
    ensures Stoi(s) == Value32((if sign == "-" then -1 else 1) * Numeral(digits))
  {
    var body := digits + rest;
    var t := sign + body;
    assert s == spaces + t && t[0] == if sign == "" then digits[0] else sign[0];
    assert IsDigit(digits[0]) && t[|sign|..] == body;
    SkippedSpaces(spaces, t);
    DigitsTaken(digits, rest);
    assert sign == "" ==> t == body;
    hide SkipSpaces, LeadingDigits, Numeral;
  }

  lemma {:induction false} SpacesInFront(s: string) returns (spaces: string)
    ensures s == spaces + SkipSpaces(s) && forall c <- spaces :: c in " \t\n\U{b}\U{c}\r"
  {
    if s != [] && IsSpace(s[0]) {
      var more := SpacesInFront(s[1..]);
      spaces := [s[0]] + more;
    } else {
      spaces := [];
    }
  }

  lemma {:induction false} DigitsInFront(s: string) returns (rest: string)
    ensures s == LeadingDigits(s) + rest && (rest != [] ==> !('0' <= rest[0] <= '9'))
  {
    if s != [] && IsDigit(s[0]) {
      rest := DigitsInFront(s[1..]);
      assert s == [s[0]] + s[1..];
    } else {
      rest := s;
    }
  }

  // A string is taken for a number exactly if it begins like one.
  lemma {:induction false} StoiIff(s: string)
    ensures !Stoi(s).NotANumber? <==> exists spaces, sign, digits, rest :: IsNumeral(s, spaces, sign, digits, rest)
  {
    if spaces, sign, digits, rest :| IsNumeral(s, spaces, sign, digits, rest) {
      StoiReads(s, spaces, sign, digits, rest);
    }
    if !Stoi(s).NotANumber? {
      hide *;
      var spaces, sign, digits, rest := NumeralInFront(s);
    }
  }

  function SignOf(t: string): string {
    if t != [] && (t[0] == '-' || t[0] == '+') then [t[0]] else []
  }

  lemma {:induction false} SignInFront(t: string)
    ensures |SignOf(t)| <= |t| && t == SignOf(t) + t[|SignOf(t)|..]
    ensures SignOf(t) == "" || SignOf(t) == "+" || SignOf(t) == "-"
  {
  }

  lemma {:induction false} NotANumberIff(s: string)
    ensures var t := SkipSpaces(s); Stoi(s).NotANumber? <==> LeadingDigits(t[|SignOf(t)|..]) == []
  {
    var t := SkipSpaces(s);
    assert t[0..] == t;
    hide LeadingDigits, Numeral, SkipSpaces;
  }

  lemma {:induction false} NumeralInFront(s: string)
    returns (spaces: string, sign: string, digits: string, rest: string)
    requires !Stoi(s).NotANumber?
    ensures IsNumeral(s, spaces, sign, digits, rest)
  {
    var t := SkipSpaces(s);
    SignInFront(t);
    NotANumberIff(s);
    spaces := SpacesInFront(s);
    sign := SignOf(t);
    var body := t[|sign|..];
    rest := DigitsInFront(body);
    digits := LeadingDigits(body);
    hide Numeral, SkipSpaces, LeadingDigits, Stoi, SignOf;
    assert s == spaces + sign + digits + rest;
  }
}
