/** The scanner of the JSON parser: which token comes next, and where it ends. */
module JsonLexer {
  import opened Decimal
  import opened JsonText

  datatype Token =
    | LiteralTrue | LiteralFalse | LiteralNull | ValueString | ValueNumber
    | BeginArray | BeginObject | EndArray | EndObject | NameSeparator | ValueSeparator
    | ParseError | EndOfInput

  // A token, its text, and what follows it.
  datatype Lexeme = Lexeme(token: Token, text: string, rest: string)

  const NUL := '\U{0}'

  predicate IsBlank(c: char) {
    c == ' ' || c == TAB || c == NEWLINE || c == RETURN
  }

  predicate StartsWith(s: string, p: string) {
    |p| <= |s| && s[..|p|] == p
  }

  function Cut(token: Token, s: string, n: nat): Lexeme
    requires n <= |s|
  {
    Lexeme(token, s[..n], s[n..])
  }

  // Behind an opening quote: the size of the content, -1 if there is no closing quote.
  function ContentLength(s: string): (n: int)
    ensures -1 <= n < |s| || n == -1
    decreases |s|
  {
    var u := Unit(s);
    if u > 0 then
      var n := ContentLength(s[u..]);
      if n < 0 then -1 else u + n
    else if s != [] && s[0] == QUOTE then 0
    else -1
  }

  function Digits(s: string): (n: nat)
    ensures n <= |s|
  {
    if s != [] && IsDigit(s[0]) then 1 + Digits(s[1..]) else 0
  }

  function FractionLength(s: string): (n: nat)
    ensures n <= |s|
  {
    if |s| > 1 && s[0] == '.' && IsDigit(s[1]) then 1 + Digits(s[1..]) else 0
  }

  function ExponentLength(s: string): (n: nat)
    ensures n <= |s|
  {
    if s != [] && (s[0] == 'e' || s[0] == 'E') then
      var k := if |s| > 1 && (s[1] == '+' || s[1] == '-') then 2 else 1;
      if Digits(s[k..]) > 0 then k + Digits(s[k..]) else 0
    else 0
  }

  // A fraction or an exponent that does not go on is not part of the number; 0 if there is no number.
  function NumberLength(s: string): (n: nat)
    ensures n <= |s|
  {
    var sign := if s != [] && s[0] == '-' then 1 else 0;
    if sign >= |s| || !IsDigit(s[sign]) then 0
    else
      var i := sign + if s[sign] == '0' then 1 else Digits(s[sign..]);
      var f := i + FractionLength(s[i..]);
      f + ExponentLength(s[f..])
  }

  // What scan() finds at the front of the remaining input. The end of the buffer reads as a null character.
  function Lex(s: string): (l: Lexeme)
    ensures l.token != EndOfInput ==> |l.rest| < |s|
    ensures |l.rest| <= |s|
    decreases |s|
  {
    if s == [] then Lexeme(EndOfInput, [], [])
    else
      var c := s[0];
      if c == NUL then Cut(EndOfInput, s, 1)
      else if IsBlank(c) then Lex(s[1..])
      else if c == '[' then Cut(BeginArray, s, 1)
      else if c == ']' then Cut(EndArray, s, 1)
      else if c == '{' then Cut(BeginObject, s, 1)
      else if c == '}' then Cut(EndObject, s, 1)
      else if c == ':' then Cut(NameSeparator, s, 1)
      else if c == ',' then Cut(ValueSeparator, s, 1)
      else if c == QUOTE then LexString(s)
      else if c == '-' || IsDigit(c) then LexNumber(s)
      else if c == 't' then LexLiteral(LiteralTrue, "true", s)
      else if c == 'f' then LexLiteral(LiteralFalse, "false", s)
      else if c == 'n' then LexLiteral(LiteralNull, "null", s)
      else if StartsWith(s, BYTE_ORDER_MARK) then Lex(s[3..])
      else Cut(ParseError, s, 1)
  }

  const BYTE_ORDER_MARK: string := ['\U{ef}', '\U{bb}', '\U{bf}']

  function LexString(s: string): (l: Lexeme)
    requires s != []
    ensures l.token != EndOfInput && |l.rest| < |s|
  {
    var n := ContentLength(s[1..]);
    if n < 0 then Cut(ParseError, s, 1) else Cut(ValueString, s, n + 2)
  }

  function LexNumber(s: string): (l: Lexeme)
    requires s != []
    ensures (l.token == ValueNumber || l.token == ParseError) && |l.rest| < |s|
  {
    var n := NumberLength(s);
    if n == 0 then Cut(ParseError, s, 1) else Cut(ValueNumber, s, n)
  }

  function LexLiteral(token: Token, word: string, s: string): (l: Lexeme)
    requires s != [] && word != []
    ensures l.token == token || l.token == ParseError
    ensures |l.rest| < |s|
  {
    if StartsWith(s, word) then Cut(token, s, |word|) else Cut(ParseError, s, 1)
  }

  // ---- String tokens ----

  lemma {:induction false} UnitOfPrefix(s: string, n: nat)
    requires 0 < Unit(s) <= n <= |s|
    ensures Unit(s[..n]) == Unit(s) && s[..n][Unit(s)..] == s[Unit(s)..][..n - Unit(s)]
  {
    assert s[..n][Unit(s)..] == s[Unit(s)..][..n - Unit(s)];
    hide SimpleEscape;
  }

  lemma {:induction false} ContentEnds(s: string)
    ensures var n := ContentLength(s); n >= 0 ==> s[n] == QUOTE && IsContent(s[..n])
    decreases |s|
  {
    hide Unit;
    var u := Unit(s);
    var n := ContentLength(s);
    if n >= 0 {
      if u > 0 {
        ContentEnds(s[u..]);
        UnitOfPrefix(s, n);
      } else {
        assert s[..0] == [];
      }
    }
  }

  lemma {:induction false} ContentFound(c: string, rest: string)
    requires IsContent(c)
    ensures ContentLength(c + [QUOTE] + rest) == |c|
    decreases |c|
  {
    var tail := [QUOTE] + rest;
    assert c + [QUOTE] + rest == c + tail;
    if c == [] {
      assert c + tail == tail;
    } else {
      var u := Unit(c);
      UnitStays(c, tail);
      assert (c + tail)[u..] == c[u..] + [QUOTE] + rest;
      ContentFound(c[u..], rest);
      hide Unit;
    }
  }

  // A string token is a quoted content.
  predicate IsStringToken(t: string) {
    |t| >= 2 && t[0] == QUOTE && t[|t| - 1] == QUOTE && IsContent(t[1..|t| - 1])
  }

  lemma {:induction false} LexStringToken(s: string)
    requires s != [] && s[0] == QUOTE && LexString(s).token == ValueString
    ensures IsStringToken(LexString(s).text)
  {
    var n := ContentLength(s[1..]);
    ContentEnds(s[1..]);
    hide ContentLength, IsContent;
    var t := s[..n + 2];
    assert t[1..n + 1] == s[1..][..n] && t[n + 1] == s[1..][n];
  }

  lemma {:induction false} StringToken(s: string)
    ensures Lex(s).token == ValueString ==> IsStringToken(Lex(s).text)
    decreases |s|
  {
    hide LexString, LexNumber, IsStringToken;
    if s != [] {
      if IsBlank(s[0]) {
        StringToken(s[1..]);
      } else if s[0] == QUOTE {
        if LexString(s).token == ValueString {
          LexStringToken(s);
        }
      } else if s[0] == '\U{ef}' && StartsWith(s, BYTE_ORDER_MARK) {
        StringToken(s[3..]);
      }
    }
  }

  lemma {:induction false} QuotedParts(c: string, rest: string)
    ensures var q := [QUOTE] + c + [QUOTE]; var t := q + rest;
            && t[0] == QUOTE && t[1..] == c + [QUOTE] + rest
            && |q| == |c| + 2 && t[..|q|] == q && t[|q|..] == rest
  {
  }

  lemma {:induction false} QuotedIsOneToken(c: string, rest: string)
    requires IsContent(c)
    ensures var q := [QUOTE] + c + [QUOTE]; Lex(q + rest) == Lexeme(ValueString, q, rest)
  {
    ContentFound(c, rest);
    QuotedParts(c, rest);
    var q := [QUOTE] + c + [QUOTE];
    var t := q + rest;
    hide ContentLength, IsContent, LexNumber, LexLiteral;
    assert Lex(t) == LexString(t);
  }

  // The quoted result of escaping is scanned as one token, whatever follows.
  lemma {:induction false} EscapedIsOneToken(s: string, rest: string)
    ensures var q := [QUOTE] + Escaped(s) + [QUOTE]; Lex(q + rest) == Lexeme(ValueString, q, rest)
  {
    UnquotedEscaped(s);
    hide Lex, IsContent, Escaped;
    QuotedIsOneToken(Escaped(s), rest);
  }

  // A string token is found exactly where a quote, accepted content and a quote stand.
  ghost predicate Quoted(s: string, c: string, rest: string) {
    IsContent(c) && s == [QUOTE] + c + [QUOTE] + rest
  }

  lemma {:induction false} StringFoundIff(s: string)
    requires s != [] && s[0] == QUOTE
    ensures Lex(s).token == ValueString <==> exists c, rest :: Quoted(s, c, rest)
  {
    hide ContentLength, IsContent, LexNumber, LexLiteral;
    assert Lex(s) == LexString(s);
    var n := ContentLength(s[1..]);
    if n >= 0 {
      ContentEnds(s[1..]);
      var c, rest := s[1..][..n], s[n + 2..];
      assert s == [QUOTE] + c + [QUOTE] + rest;
      assert Quoted(s, c, rest);
    }
    if c, rest :| Quoted(s, c, rest) {
      assert s == [QUOTE] + c + [QUOTE] + rest;
      assert s[1..] == c + [QUOTE] + rest;
      ContentFound(c, rest);
    }
  }

  // A token with a raw control character inside, or a byte that is no UTF-8, which the RFC does not allow.
  lemma {:induction false} RawByteScanned(b: char, rest: string)
    requires 0x10 <= b as int <= 0x1F || b == '\U{ff}'
    ensures Lex([QUOTE, b, QUOTE] + rest) == Lexeme(ValueString, [QUOTE, b, QUOTE], rest)
    ensures IsContent([b]) && !IsRfcContent([b])
  {
    RawByteAccepted(b);
    hide Lex, IsContent, IsRfcContent;
    QuotedIsOneToken([b], rest);
    assert [QUOTE] + [b] + [QUOTE] == [QUOTE, b, QUOTE];
  }

  // ---- Number tokens ----

  // What follows cannot be read as more of a number.
  predicate EndsNumber(rest: string) {
    rest == [] || (!IsDigit(rest[0]) && rest[0] != '.' && rest[0] != 'e' && rest[0] != 'E')
  }

  lemma {:induction false} DigitsFound(d: string, rest: string)
    requires AllDigits(d) && (rest == [] || !IsDigit(rest[0]))
    ensures Digits(d + rest) == |d|
  {
    if d == [] {
      assert d + rest == rest;
    } else {
      DigitsFound(d[1..], rest);
      assert (d + rest)[1..] == d[1..] + rest;
    }
  }

  lemma {:induction false} NumberByParts(s: string, sign: nat, i: nat, f: nat)
    requires sign < |s| && sign == (if s[0] == '-' then 1 else 0) && IsDigit(s[sign])
    requires i == sign + (if s[sign] == '0' then 1 else Digits(s[sign..])) && i <= |s|
    requires f == i + FractionLength(s[i..])
    ensures NumberLength(s) == f + ExponentLength(s[f..])
  {
    hide Digits, FractionLength, ExponentLength;
  }

  lemma {:induction false} ThreeParts(a: string, b: string, c: string)
    requires b != []
    ensures var s := a + b + c;
            && s[|a|..] == b + c && s[|a| + |b|..] == c && s[|a|] == b[0]
            && s[0] == if a == [] then b[0] else a[0]
  {
  }

  lemma {:induction false} NumberParts(sign: string, d: string, rest: string)
    requires (sign == "" || sign == "-") && AllDigits(d) && d != [] && (d[0] == '0' ==> |d| == 1) && EndsNumber(rest)
    ensures NumberLength(sign + d + rest) == |sign + d|
  {
    DigitsFound(d, rest);
    assert FractionLength(rest) == 0 && ExponentLength(rest) == 0 && IsDigit(d[0]);
    ThreeParts(sign, d, rest);
    hide Digits, AllDigits, NumberLength, FractionLength, ExponentLength, EndsNumber;
    var n := |sign| + |d|;
    assert rest[0..] == rest;
    NumberByParts(sign + d + rest, |sign|, n, n);
  }

  // ---- Numbers in section 6 of RFC 7159 ----

  predicate IsFraction(f: string) {
    f == [] || (|f| > 1 && f[0] == '.' && AllDigits(f[1..]))
  }

  function SignLength(e: string): nat {
    if |e| > 1 && (e[1] == '+' || e[1] == '-') then 2 else 1
  }

  predicate IsExponent(e: string) {
    e == [] || (|e| > SignLength(e) && (e[0] == 'e' || e[0] == 'E') && AllDigits(e[SignLength(e)..]))
  }

  // number = [ minus ] int [ frac ] [ exp ]
  datatype NumberText = NumberText(sign: string, whole: string, fraction: string, exponent: string) {
    predicate Valid() {
      && (sign == "" || sign == "-")
      && AllDigits(whole) && whole != [] && (whole[0] == '0' ==> |whole| == 1)
      && IsFraction(fraction) && IsExponent(exponent)
    }

    function Text(): string {
      sign + whole + fraction + exponent
    }
  }

  lemma {:induction false} FractionFound(f: string, rest: string)
    requires IsFraction(f) && (rest == [] || (!IsDigit(rest[0]) && rest[0] != '.'))
    ensures FractionLength(f + rest) == |f|
  {
    if f == [] {
      assert f + rest == rest;
    } else {
      DigitsFound(f[1..], rest);
      assert (f + rest)[1..] == f[1..] + rest && IsDigit(f[1..][0]);
    }
  }

  lemma {:induction false} ExponentFound(e: string, rest: string)
    requires IsExponent(e) && EndsNumber(rest)
    ensures ExponentLength(e + rest) == |e|
  {
    if e == [] {
      assert e + rest == rest;
    } else {
      var k := SignLength(e);
      DigitsFound(e[k..], rest);
      assert (e + rest)[k..] == e[k..] + rest && (e + rest)[0] == e[0] && (e + rest)[1] == e[1];
      assert k == 1 ==> IsDigit(e[k..][0]);
    }
  }

  // The parts of a number text in front of `rest`, and the lengths the scanner finds for them.
  lemma {:induction false} FoundParts(n: NumberText, rest: string)
    requires n.Valid() && EndsNumber(rest)
    ensures var b := n.exponent + rest; var a := n.fraction + b;
            && Digits(n.whole + a) == |n.whole| && FractionLength(a) == |n.fraction|
            && ExponentLength(b) == |n.exponent|
            && n.whole != [] && IsDigit(n.whole[0]) && (n.whole[0] == '0' ==> |n.whole| == 1)
  {
    var b := n.exponent + rest;
    ExponentFound(n.exponent, rest);
    assert b == [] || (!IsDigit(b[0]) && b[0] != '.') by {
      hide AllDigits;
      if n.exponent == [] {
        assert b == rest;
      }
    }
    FractionFound(n.fraction, b);
    var a := n.fraction + b;
    assert a == [] || !IsDigit(a[0]) by {
      if n.fraction == [] {
        assert a == b;
      }
    }
    DigitsFound(n.whole, a);
    hide Digits, FractionLength, ExponentLength, IsFraction, IsExponent, EndsNumber;
  }

  lemma {:induction false} TextParts(n: NumberText, rest: string)
    requires n.whole != []
    ensures var b := n.exponent + rest; var a := n.fraction + b; var s := n.Text() + rest;
            && s == n.sign + n.whole + a && s[|n.sign| + |n.whole| + |n.fraction|..] == b
            && n.Text() != [] && n.Text()[0] == s[0]
  {
    var b := n.exponent + rest;
    var a := n.fraction + b;
    assert n.Text() + rest == n.sign + n.whole + a;
    assert n.Text() + rest == (n.sign + n.whole + n.fraction) + b;
  }

  lemma {:induction false} TextLength(n: NumberText)
    ensures |n.Text()| == |n.sign| + |n.whole| + |n.fraction| + |n.exponent|
  {
  }

  lemma {:induction false} LengthOfParts(s: string, sign: string, whole: string, a: string, f: nat, b: string)
    requires s == sign + whole + a && (sign == "" || sign == "-")
    requires whole != [] && IsDigit(whole[0]) && (whole[0] == '0' ==> |whole| == 1)
    requires Digits(whole + a) == |whole| && FractionLength(a) == f
    requires |sign| + |whole| + f <= |s| && s[|sign| + |whole| + f..] == b
    ensures NumberLength(s) == |sign| + |whole| + f + ExponentLength(b)
    ensures s[0] == '-' || IsDigit(s[0])
  {
    ThreeParts(sign, whole, a);
    assert whole[0] != '-';
    hide *;
    assert s[0] == if sign == "" then whole[0] else '-';
    NumberByParts(s, |sign|, |sign| + |whole|, |sign| + |whole| + f);
  }

  lemma {:induction false} NumberOfParts(n: NumberText, rest: string)
    requires n.Valid() && EndsNumber(rest)
    ensures NumberLength(n.Text() + rest) == |n.Text()|
    ensures n.Text() != [] && (n.Text()[0] == '-' || IsDigit(n.Text()[0]))
  {
    assert n.sign == "" || n.sign == "-";
    hide *;
    FoundParts(n, rest);
    TextLength(n);
    TextParts(n, rest);
    var b := n.exponent + rest;
    LengthOfParts(n.Text() + rest, n.sign, n.whole, n.fraction + b, |n.fraction|, b);
  }

  // A number of the RFC is one token, if what follows cannot be read as more of it.
  lemma {:induction false} NumberIsOneToken(n: NumberText, rest: string)
    requires n.Valid() && EndsNumber(rest)
    ensures n.Text() != [] && Lex(n.Text() + rest) == Lexeme(ValueNumber, n.Text(), rest)
  {
    NumberOfParts(n, rest);
    hide *;
    LexOfNumber(n.Text(), rest);
  }

  // number of section 6 of RFC 7159
  ghost predicate IsNumber(t: string) {
    exists n: NumberText :: n.Valid() && n.Text() == t
  }

  lemma {:induction false} NumberToken(t: string, rest: string)
    requires IsNumber(t) && EndsNumber(rest)
    ensures Lex(t + rest) == Lexeme(ValueNumber, t, rest)
  {
    hide Lex, EndsNumber;
    var n: NumberText :| n.Valid() && n.Text() == t;
    NumberIsOneToken(n, rest);
  }

  lemma {:induction false} DigitsAre(s: string)
    ensures AllDigits(s[..Digits(s)])
  {
    if s != [] && IsDigit(s[0]) {
      DigitsAre(s[1..]);
      assert s[..Digits(s)] == [s[0]] + s[1..][..Digits(s[1..])];
    }
  }

  lemma {:induction false} FractionIs(s: string)
    ensures IsFraction(s[..FractionLength(s)])
  {
    if FractionLength(s) > 0 {
      var n := FractionLength(s);
      DigitsAre(s[1..]);
      assert s[..n][1..] == s[1..][..n - 1];
    }
  }

  lemma {:induction false} ExponentIs(s: string)
    ensures IsExponent(s[..ExponentLength(s)])
  {
    var n := ExponentLength(s);
    if n > 0 {
      var k := SignLength(s);
      DigitsAre(s[k..]);
      assert s[..n][k..] == s[k..][..n - k] && s[..n][0] == s[0] && (n > 1 ==> s[..n][1] == s[1]);
      assert SignLength(s[..n]) == k;
    }
  }

  lemma {:induction false} WholeIs(s: string) returns (i: nat)
    requires s != [] && IsDigit(s[0])
    ensures i == if s[0] == '0' then 1 else Digits(s)
    ensures 0 < i <= |s| && AllDigits(s[..i]) && s[..i][0] == s[0] && (s[0] == '0' ==> i == 1)
  {
    DigitsAre(s);
    i := if s[0] == '0' then 1 else Digits(s);
  }

  // What is scanned as a number is one of the RFC.
  lemma {:induction false} NumberIs(s: string) returns (n: NumberText)
    requires NumberLength(s) > 0
    ensures n.Valid() && n.Text() == s[..NumberLength(s)]
  {
    hide Digits, FractionLength, ExponentLength, IsFraction, IsExponent, AllDigits, IsDigit;
    var sign := if s != [] && s[0] == '-' then 1 else 0;
    assert sign < |s| && IsDigit(s[sign]);
    var d := WholeIs(s[sign..]);
    var i := sign + d;
    var f := i + FractionLength(s[i..]);
    var e := f + ExponentLength(s[f..]);
    NumberByParts(s, sign, i, f);
    hide NumberLength;
    FractionIs(s[i..]);
    ExponentIs(s[f..]);
    n := NumberText(s[..sign], s[sign..][..d], s[i..][..f - i], s[f..][..e - f]);
    assert n.sign == "" || n.sign == "-";
    FourSlices(s, sign, i, f, e);
  }

  lemma {:induction false} FourSlices(s: string, a: nat, b: nat, c: nat, d: nat)
    requires a <= b <= c <= d <= |s|
    ensures s[..a] + s[a..][..b - a] + s[b..][..c - b] + s[c..][..d - c] == s[..d]
  {
  }

  // The text of an integer.
  function IntegerText(n: nat, negative: bool): string {
    (if negative then "-" else "") + ToString(n)
  }

  lemma {:induction false} LexOfNumber(t: string, rest: string)
    requires t != [] && (t[0] == '-' || IsDigit(t[0])) && NumberLength(t + rest) == |t|
    ensures Lex(t + rest) == Lexeme(ValueNumber, t, rest)
  {
    hide NumberLength, LexString, LexLiteral;
    var s := t + rest;
    assert s[0] == t[0] && s[..|t|] == t && s[|t|..] == rest;
    assert Lex(s) == LexNumber(s);
  }

  lemma {:induction false} IntegerIsOneToken(n: nat, negative: bool, rest: string)
    requires EndsNumber(rest)
    ensures var t := IntegerText(n, negative); Lex(t + rest) == Lexeme(ValueNumber, t, rest)
  {
    hide NumberLength, ToString, Lex, EndsNumber;
    var sign := if negative then "-" else "";
    var d := ToString(n);
    NumberParts(sign, d, rest);
    assert IsDigit(d[0]) && (sign + d)[0] == if negative then '-' else d[0];
    LexOfNumber(sign + d, rest);
  }

  // ---- Blanks and single characters ----

  lemma {:induction false} BlankSkipped(c: char, rest: string)
    requires IsBlank(c)
    ensures Lex([c] + rest) == Lex(rest)
  {
    hide LexString, LexNumber, LexLiteral;
    assert ([c] + rest)[1..] == rest;
  }

  lemma {:induction false} BlanksSkipped(blanks: string, rest: string)
    requires forall c <- blanks :: IsBlank(c)
    ensures Lex(blanks + rest) == Lex(rest)
  {
    if blanks == [] {
      assert blanks + rest == rest;
    } else {
      assert blanks + rest == [blanks[0]] + (blanks[1..] + rest);
      BlankSkipped(blanks[0], blanks[1..] + rest);
      BlanksSkipped(blanks[1..], rest);
      hide Lex;
    }
  }

  // ---- What stands in front of a token ----

  lemma {:induction false} MarkSkipped(rest: string)
    ensures Lex(BYTE_ORDER_MARK + rest) == Lex(rest)
  {
    hide LexString, LexNumber, LexLiteral;
    var s := BYTE_ORDER_MARK + rest;
    assert s[..3] == BYTE_ORDER_MARK && s[3..] == rest && s[0] == '\U{ef}';
  }

  // Blanks and byte order marks, in any order.
  predicate IsGap(g: string)
    decreases |g|
  {
    || g == []
    || (IsBlank(g[0]) && IsGap(g[1..]))
    || (StartsWith(g, BYTE_ORDER_MARK) && IsGap(g[3..]))
  }

  // The insignificant whitespace of section 2 of RFC 7159.
  predicate IsRfcGap(g: string) {
    forall c <- g :: c as int in {0x20, 0x09, 0x0A, 0x0D}
  }

  lemma {:induction false} GapIsRfcIff(g: string)
    requires IsGap(g)
    ensures IsRfcGap(g) <==> '\U{ef}' !in g
    decreases |g|
  {
    if g != [] {
      assert g == [g[0]] + g[1..];
      if IsBlank(g[0]) && IsGap(g[1..]) {
        GapIsRfcIff(g[1..]);
      } else {
        assert g[0] == g[..3][0] == '\U{ef}';
        assert g[0] in g && !IsBlank(g[0]);
      }
    }
  }

  lemma {:induction false} GapSkipped(g: string, rest: string)
    requires IsGap(g)
    ensures Lex(g + rest) == Lex(rest)
    decreases |g|
  {
    hide Lex;
    if g == [] {
      assert g + rest == rest;
    } else if IsBlank(g[0]) && IsGap(g[1..]) {
      assert g + rest == [g[0]] + (g[1..] + rest);
      BlankSkipped(g[0], g[1..] + rest);
      GapSkipped(g[1..], rest);
    } else {
      assert g == g[..3] + g[3..] && g + rest == BYTE_ORDER_MARK + (g[3..] + rest);
      MarkSkipped(g[3..] + rest);
      GapSkipped(g[3..], rest);
    }
  }

  // The input begins with a gap and the text of the token; what is passed over is nothing else, and is the whitespace
  // of the RFC exactly when there is no byte order mark in it.
  ghost predicate Passed(s: string, g: string) {
    IsGap(g) && s == g + Lex(s).text + Lex(s).rest
  }

  lemma {:induction false} SkipsGap(s: string)
    ensures exists g :: Passed(s, g) && (IsRfcGap(g) <==> '\U{ef}' !in g)
    decreases |s|
  {
    hide LexString, LexNumber, LexLiteral, IsRfcGap;
    if s != [] && IsBlank(s[0]) && s[0] != NUL {
      SkipsGap(s[1..]);
      var g :| Passed(s[1..], g);
      assert ([s[0]] + g)[1..] == g;
      PassedMore([s[0]], g, s);
    } else if s != [] && s[0] == '\U{ef}' && StartsWith(s, BYTE_ORDER_MARK) {
      SkipsGap(s[3..]);
      var g :| Passed(s[3..], g);
      assert (BYTE_ORDER_MARK + g)[3..] == g && (BYTE_ORDER_MARK + g)[..3] == BYTE_ORDER_MARK;
      PassedMore(BYTE_ORDER_MARK, g, s);
    } else {
      TextAtOnce(s);
      GapIsRfcIff([]);
      assert [] + Lex(s).text + Lex(s).rest == s;
      assert Passed(s, []);
    }
  }

  lemma {:induction false} PassedMore(head: string, g: string, s: string)
    requires StartsWith(s, head) && Passed(s[|head|..], g) && Lex(s) == Lex(s[|head|..]) && IsGap(head + g)
    ensures Passed(s, head + g) && (IsRfcGap(head + g) <==> '\U{ef}' !in head + g)
  {
    hide Lex, IsGap, IsRfcGap;
    GapIsRfcIff(head + g);
    var l := Lex(s);
    assert s == head + s[|head|..];
    assert head + (g + l.text + l.rest) == head + g + l.text + l.rest;
  }

  lemma {:induction false} TextAtOnce(s: string)
    requires s == [] || s[0] == NUL || (!IsBlank(s[0]) && !StartsWith(s, BYTE_ORDER_MARK))
    ensures Lex(s).text + Lex(s).rest == s
  {
    hide ContentLength, NumberLength;
  }

  function Structural(c: char): Token {
    if c == '[' then BeginArray
    else if c == ']' then EndArray
    else if c == '{' then BeginObject
    else if c == '}' then EndObject
    else if c == ':' then NameSeparator
    else if c == ',' then ValueSeparator
    else ParseError
  }

  lemma {:induction false} StructuralToken(c: char, rest: string)
    requires Structural(c) != ParseError
    ensures Lex([c] + rest) == Lexeme(Structural(c), [c], rest)
  {
    hide LexString, LexNumber, LexLiteral;
    assert ([c] + rest)[..1] == [c] && ([c] + rest)[1..] == rest;
  }

  lemma {:induction false} LiteralToken(word: string, rest: string)
    requires word == "true" || word == "false" || word == "null"
    ensures Lex(word + rest) ==
              Lexeme(if word == "true" then LiteralTrue else if word == "false" then LiteralFalse else LiteralNull,
                     word, rest)
  {
    hide LexString, LexNumber;
    assert (word + rest)[..|word|] == word && (word + rest)[|word|..] == rest;
  }
}
