/** The text of a JSON string: escaping, unescaping, and the UTF-8 form of a code point. Characters are bytes. */
module JsonText {
  import opened JsonResult

  const QUOTE := '\"'
  const BACKSLASH := '\\'
  const BACKSPACE := '\U{8}'
  const TAB := '\t'
  const NEWLINE := '\n'
  const FORMFEED := '\U{c}'
  const RETURN := '\r'

  // ---- Escaping ----

  // The letter that follows the backslash; a character that needs no short escape has none.
  function ShortEscape(c: char): string {
    if c == QUOTE || c == BACKSLASH then [c]
    else if c == BACKSPACE then ['b']
    else if c == FORMFEED then ['f']
    else if c == NEWLINE then ['n']
    else if c == RETURN then ['r']
    else if c == TAB then ['t']
    else []
  }

  function Hexify(v: nat): char
    requires v < 16
  {
    if v < 10 then '0' + v as char else 'a' + (v - 10) as char
  }

  predicate IsControl(c: char) {
    c as int <= 0x1f
  }

  function EscapedChar(c: char): string {
    if ShortEscape(c) != [] then [BACKSLASH] + ShortEscape(c)
    else if IsControl(c) then [BACKSLASH, 'u', '0', '0', Hexify(c as int / 16), Hexify(c as int % 16)]
    else [c]
  }

  function Escaped(s: string): string {
    if s == [] then [] else EscapedChar(s[0]) + Escaped(s[1..])
  }

  function ExtraSpace(s: string): nat {
    if s == [] then 0
    else (if ShortEscape(s[0]) != [] then 1 else if IsControl(s[0]) then 5 else 0) + ExtraSpace(s[1..])
  }

  lemma {:induction false} ExtraSpaceSnoc(s: string, i: nat)
    requires i < |s|
    ensures ExtraSpace(s[..i + 1]) == ExtraSpace(s[..i]) + |EscapedChar(s[i])| - 1
    decreases i
  {
    if i > 0 {
      ExtraSpaceSnoc(s[1..], i - 1);
      assert s[..i + 1][1..] == s[1..][..i] && s[..i][1..] == s[1..][..i - 1];
    }
  }

  method ExtraSpaceOf(s: string) returns (result: nat)
    ensures result == ExtraSpace(s)
  {
    hide ShortEscape, ExtraSpace;
    result := 0;
    assert s[..0] == [];
    NoExtraSpace();
    for i := 0 to |s|
      invariant result == ExtraSpace(s[..i])
    {
      ExtraSpaceSnoc(s, i);
      ShortEscapeLength(s[i]);
      if ShortEscape(s[i]) != [] {
        result := result + 1;
      } else if IsControl(s[i]) {
        result := result + 5;
      }
    }
    assert s[..|s|] == s;
  }

  lemma {:induction false} NoExtraSpace()
    ensures ExtraSpace([]) == 0
  {
  }

  lemma {:induction false} ShortEscapeLength(c: char)
    ensures |ShortEscape(c)| <= 1
  {
  }

  // The size the buffer is given is the size of the escaped text; without extra space nothing is escaped.
  lemma {:induction false} EscapedLength(s: string)
    ensures |Escaped(s)| == |s| + ExtraSpace(s)
    ensures ExtraSpace(s) == 0 ==> Escaped(s) == s
  {
    hide ShortEscape, Hexify;
    if s != [] {
      EscapedLength(s[1..]);
      ShortEscapeLength(s[0]);
      assert s == [s[0]] + s[1..];
    }
  }

  lemma {:induction false} EscapedSnoc(s: string, i: nat)
    requires i < |s|
    ensures Escaped(s[..i + 1]) == Escaped(s[..i]) + EscapedChar(s[i])
    decreases i
  {
    hide EscapedChar;
    if i == 0 {
      assert s[..1][1..] == [] && s[..0] == [];
    } else {
      EscapedSnoc(s[1..], i - 1);
      assert s[..i + 1][1..] == s[1..][..i] && s[..i][1..] == s[1..][..i - 1];
      var c := EscapedChar(s[0]);
      assert c + (Escaped(s[1..][..i - 1]) + EscapedChar(s[i])) == c + Escaped(s[1..][..i - 1]) + EscapedChar(s[i]);
    }
  }

  lemma {:induction false} EscapedPrefixFits(s: string, i: nat)
    requires i <= |s|
    ensures |Escaped(s[..i])| + |Escaped(s[i..])| == |Escaped(s)|
    decreases i
  {
    if i == 0 {
      assert s[..0] == [] && s[0..] == s;
    } else {
      EscapedPrefixFits(s[1..], i - 1);
      assert s[..i][1..] == s[1..][..i - 1] && s[1..][i - 1..] == s[i..];
    }
  }

  // One turn of the loop: the backslash is already there, as everywhere in the unwritten part of the buffer.
  method WriteChar(result: array<char>, pos: nat, c: char) returns (next: nat)
    requires pos + |EscapedChar(c)| <= result.Length
    requires forall k :: pos <= k < result.Length ==> result[k] == BACKSLASH
    modifies result
    ensures next == pos + |EscapedChar(c)|
    ensures result[..next] == old(result[..pos]) + EscapedChar(c)
    ensures forall k :: next <= k < result.Length ==> result[k] == BACKSLASH
  {
    ghost var written := EscapedChar(c);
    if ShortEscape(c) != [] {
      if c != BACKSLASH {
        result[pos + 1] := ShortEscape(c)[0];
      }
      next := pos + 2;
      assert result[pos..next] == written;
    } else if IsControl(c) {
      result[pos + 1] := 'u';
      result[pos + 2] := '0';
      result[pos + 3] := '0';
      result[pos + 4] := Hexify(c as int / 16);
      result[pos + 5] := Hexify(c as int % 16);
      next := pos + 6;
      assert result[pos..next] == written;
    } else {
      result[pos] := c;
      next := pos + 1;
      assert result[pos..next] == written;
    }
    assert result[..next] == result[..pos] + result[pos..next];
  }

  // The buffer is made of backslashes, and filled by index.
  method EscapeString(s: string) returns (r: string)
    ensures r == Escaped(s)
  {
    EscapedLength(s);
    hide EscapedChar, ExtraSpace, Escaped;
    var space := ExtraSpaceOf(s);
    if space == 0 {
      return s;
    }
    var result := new char[|s| + space](_ => BACKSLASH);
    var pos := 0;
    assert s[..0] == [] && s[0..] == s;
    EscapedPrefixFits(s, 0);
    for i := 0 to |s|
      invariant pos == |Escaped(s[..i])| <= result.Length
      invariant result[..pos] == Escaped(s[..i])
      invariant forall k :: pos <= k < result.Length ==> result[k] == BACKSLASH
    {
      EscapedSnoc(s, i);
      EscapedPrefixFits(s, i + 1);
      pos := WriteChar(result, pos, s[i]);
    }
    EscapedPrefixFits(s, |s|);
    assert s[..|s|] == s && s[|s|..] == [];
    NothingEscaped();
    return result[..];
  }

  lemma {:induction false} NothingEscaped()
    ensures Escaped([]) == []
  {
  }

  // ---- UTF-8 ----

  predicate IsHighSurrogate(cp: nat) {
    0xD800 <= cp <= 0xDBFF
  }

  predicate IsLowSurrogate(cp: nat) {
    0xDC00 <= cp <= 0xDFFF
  }

  predicate IsSurrogate(cp: nat) {
    0xD800 <= cp <= 0xDFFF
  }

  // The code point of a surrogate pair (section 2.1 of RFC 2781).
  function PairValue(high: nat, low: nat): nat
    requires IsHighSurrogate(high) && IsLowSurrogate(low)
  {
    0x10000 + (high - 0xD800) * 0x400 + (low - 0xDC00)
  }

  function Byte(n: nat): char
    requires n < 0x100
  {
    n as char
  }

  function Encoded(cp: nat): Result<string> {
    if cp < 0x80 then Ok([Byte(cp)])
    else if cp <= 0x7ff then Ok([Byte(0xC0 + cp / 0x40 % 0x20), Byte(0x80 + cp % 0x40)])
    else if cp <= 0xffff then
      Ok([Byte(0xE0 + cp / 0x1000 % 0x10), Byte(0x80 + cp / 0x40 % 0x40), Byte(0x80 + cp % 0x40)])
    else if cp <= 0x10ffff then
      Ok([Byte(0xF0 + cp / 0x40000 % 8), Byte(0x80 + cp / 0x1000 % 0x40), Byte(0x80 + cp / 0x40 % 0x40),
          Byte(0x80 + cp % 0x40)])
    else Err(Error.OutOfRange)
  }

  // to_unicode
  function ToUnicode(codepoint1: nat, codepoint2: nat): Result<string> {
    if IsHighSurrogate(codepoint1) then
      if IsLowSurrogate(codepoint2) then Encoded(codepoint1 * 0x400 + codepoint2 - 0x35FDC00)
      else Err(InvalidArgument)
    else Encoded(codepoint1)
  }

  predicate IsTail(c: char) {
    0x80 <= c as int <= 0xBF
  }

  // The syntax of one UTF-8 sequence (section 4 of RFC 3629).
  predicate IsUtf8(s: string) {
    match |s|
    case 1 => s[0] as int <= 0x7F
    case 2 => 0xC2 <= s[0] as int <= 0xDF && IsTail(s[1])
    case 3 =>
      && 0xE0 <= s[0] as int <= 0xEF && IsTail(s[1]) && IsTail(s[2])
      && (s[0] as int == 0xE0 ==> s[1] as int >= 0xA0)
      && (s[0] as int == 0xED ==> s[1] as int <= 0x9F)
    case 4 =>
      && 0xF0 <= s[0] as int <= 0xF4 && IsTail(s[1]) && IsTail(s[2]) && IsTail(s[3])
      && (s[0] as int == 0xF0 ==> s[1] as int >= 0x90)
      && (s[0] as int == 0xF4 ==> s[1] as int <= 0x8F)
    case _ => false
  }

  // The character number it stands for (section 3 of RFC 3629).
  function Utf8Value(s: string): nat
    requires IsUtf8(s)
  {
    if |s| == 1 then s[0] as int
    else if |s| == 2 then (s[0] as int - 0xC0) * 0x40 + (s[1] as int - 0x80)
    else if |s| == 3 then (s[0] as int - 0xE0) * 0x1000 + (s[1] as int - 0x80) * 0x40 + (s[2] as int - 0x80)
    else
      (s[0] as int - 0xF0) * 0x40000 + (s[1] as int - 0x80) * 0x1000 + (s[2] as int - 0x80) * 0x40
      + (s[3] as int - 0x80)
  }

  // The six-bit groups of a number.
  lemma {:induction false} Sextets(n: nat)
    ensures n == n / 0x40 * 0x40 + n % 0x40
    ensures n / 0x1000 == n / 0x40 / 0x40
    ensures n / 0x40000 == n / 0x1000 / 0x40
  {
  }

  lemma {:induction false} SextetsOf(q: nat, d: nat)
    requires d < 0x40
    ensures (q * 0x40 + d) / 0x40 == q && (q * 0x40 + d) % 0x40 == d
  {
  }

  lemma {:induction false} TwoBytes(cp: nat)
    requires 0x80 <= cp <= 0x7ff
    ensures Encoded(cp).Ok? && IsUtf8(Encoded(cp).value) && Utf8Value(Encoded(cp).value) == cp
  {
    Sextets(cp);
  }

  lemma {:induction false} ThreeBytes(cp: nat)
    requires 0x800 <= cp <= 0xffff
    ensures Encoded(cp).Ok? && (IsUtf8(Encoded(cp).value) <==> !IsSurrogate(cp))
    ensures !IsSurrogate(cp) ==> Utf8Value(Encoded(cp).value) == cp
  {
    Sextets(cp);
    var high, middle, low := cp / 0x1000, cp / 0x40 % 0x40, cp % 0x40;
    Sextets(cp / 0x40);
    assert cp == high * 0x1000 + middle * 0x40 + low && high < 0x10;
    var e := [Byte(0xE0 + high), Byte(0x80 + middle), Byte(0x80 + low)];
    assert Encoded(cp) == Ok(e);
    assert high == 0xD && middle >= 0x20 <==> IsSurrogate(cp);
    hide Encoded;
  }

  lemma {:induction false} FourBytes(cp: nat)
    requires 0x10000 <= cp <= 0x10ffff
    ensures Encoded(cp).Ok? && IsUtf8(Encoded(cp).value) && Utf8Value(Encoded(cp).value) == cp
  {
    Sextets(cp);
    Sextets(cp / 0x40);
    Sextets(cp / 0x1000);
    var top, high, middle, low := cp / 0x40000, cp / 0x1000 % 0x40, cp / 0x40 % 0x40, cp % 0x40;
    assert cp == top * 0x40000 + high * 0x1000 + middle * 0x40 + low && top < 8;
    var e := [Byte(0xF0 + top), Byte(0x80 + high), Byte(0x80 + middle), Byte(0x80 + low)];
    assert Encoded(cp) == Ok(e);
    hide Encoded;
  }

  // What is encoded is valid UTF-8 for its character number, unless that is a surrogate.
  lemma {:induction false} EncodedDecodes(cp: nat)
    ensures Encoded(cp).Ok? <==> cp <= 0x10FFFF
    ensures cp <= 0x10FFFF ==> (IsUtf8(Encoded(cp).value) <==> !IsSurrogate(cp))
    ensures cp <= 0x10FFFF && !IsSurrogate(cp) ==> Utf8Value(Encoded(cp).value) == cp
  {
    if cp > 0x10ffff {
    } else if cp < 0x80 {
    } else {
      hide Encoded, IsUtf8, Utf8Value;
      if cp <= 0x7ff {
        TwoBytes(cp);
      } else if cp <= 0xffff {
        ThreeBytes(cp);
      } else {
        FourBytes(cp);
      }
    }
  }

  // Every valid sequence is what its character number is encoded to.
  lemma {:induction false} DecodedEncodes(s: string)
    requires IsUtf8(s)
    ensures !IsSurrogate(Utf8Value(s)) && Encoded(Utf8Value(s)) == Ok(s)
  {
    if |s| == 1 {
      assert s == [s[0]];
    } else if |s| == 2 {
      SextetsOf(s[0] as int - 0xC0, s[1] as int - 0x80);
      assert s == [s[0], s[1]];
    } else if |s| == 3 {
      DecodedThree(s);
    } else {
      DecodedFour(s);
    }
  }

  lemma {:induction false} DecodedThree(s: string)
    requires |s| == 3 && IsUtf8(s)
    ensures !IsSurrogate(Utf8Value(s)) && Encoded(Utf8Value(s)) == Ok(s)
  {
    var high, middle, low := s[0] as int - 0xE0, s[1] as int - 0x80, s[2] as int - 0x80;
    var cp := Utf8Value(s);
    assert 0x800 <= cp <= 0xFFFF && cp == (high * 0x40 + middle) * 0x40 + low;
    SextetsOf(high * 0x40 + middle, low);
    SextetsOf(high, middle);
    Sextets(cp);
    assert s == [Byte(0xE0 + high), Byte(0x80 + middle), Byte(0x80 + low)];
    hide IsUtf8, Utf8Value;
  }

  lemma {:induction false} DecodedFour(s: string)
    requires |s| == 4 && IsUtf8(s)
    ensures !IsSurrogate(Utf8Value(s)) && Encoded(Utf8Value(s)) == Ok(s)
  {
    var top, high, middle, low := s[0] as int - 0xF0, s[1] as int - 0x80, s[2] as int - 0x80, s[3] as int - 0x80;
    var cp := Utf8Value(s);
    assert 0x10000 <= cp <= 0x10FFFF && cp == ((top * 0x40 + high) * 0x40 + middle) * 0x40 + low;
    SextetsOf((top * 0x40 + high) * 0x40 + middle, low);
    SextetsOf(top * 0x40 + high, middle);
    SextetsOf(top, high);
    Sextets(cp);
    assert s == [Byte(0xF0 + top), Byte(0x80 + high), Byte(0x80 + middle), Byte(0x80 + low)];
    hide IsUtf8, Utf8Value;
  }

  // A code point that is no surrogate, and a pair of surrogates, become the UTF-8 form of their character number.
  // Surrogates are 0xD800 to 0xDFFF, the high ones up to 0xDBFF (section 2.1 of RFC 2781).
  lemma {:induction false} ToUnicodeDecodes(cp: nat, low: nat)
    ensures !(0xD800 <= cp <= 0xDBFF) ==> (ToUnicode(cp, low).Ok? <==> cp <= 0x10FFFF)
    ensures !(0xD800 <= cp <= 0xDFFF) && cp <= 0x10FFFF ==>
              IsUtf8(ToUnicode(cp, low).value) && Utf8Value(ToUnicode(cp, low).value) == cp
    ensures 0xD800 <= cp <= 0xDBFF ==> (ToUnicode(cp, low).Ok? <==> 0xDC00 <= low <= 0xDFFF)
    ensures 0xD800 <= cp <= 0xDBFF && 0xDC00 <= low <= 0xDFFF ==>
              && IsUtf8(ToUnicode(cp, low).value)
              && Utf8Value(ToUnicode(cp, low).value) == 0x10000 + (cp - 0xD800) * 0x400 + (low - 0xDC00)
    ensures 0xDC00 <= cp <= 0xDFFF ==> !IsUtf8(ToUnicode(cp, low).value)
  {
    EncodedDecodes(cp);
    if IsHighSurrogate(cp) && IsLowSurrogate(low) {
      EncodedDecodes(PairValue(cp, low));
    }
    hide Encoded, IsUtf8, Utf8Value;
  }

  // ---- The content of a string token ----

  predicate IsHex(c: char) {
    '0' <= c <= '9' || 'A' <= c <= 'F' || 'a' <= c <= 'f'
  }

  function HexValue(c: char): (v: nat)
    requires IsHex(c)
    ensures v < 16
  {
    if c <= '9' then c as int - '0' as int
    else if c <= 'F' then c as int - 'A' as int + 10
    else c as int - 'a' as int + 10
  }

  predicate IsUnicodeEscape(s: string) {
    |s| >= 6 && s[0] == BACKSLASH && s[1] == 'u' && IsHex(s[2]) && IsHex(s[3]) && IsHex(s[4]) && IsHex(s[5])
  }

  // strtoul of the four digits.
  function UnicodeValue(s: string): (v: nat)
    requires IsUnicodeEscape(s)
    ensures v < 0x10000
  {
    HexValue(s[2]) * 0x1000 + HexValue(s[3]) * 0x100 + HexValue(s[4]) * 0x10 + HexValue(s[5])
  }

  // The character a two-character escape stands for; other letters stand for nothing.
  function SimpleEscape(c: char): string {
    if c == QUOTE || c == BACKSLASH || c == '/' then [c]
    else if c == 'b' then [BACKSPACE]
    else if c == 'f' then [FORMFEED]
    else if c == 'n' then [NEWLINE]
    else if c == 'r' then [RETURN]
    else if c == 't' then [TAB]
    else []
  }

  // The size of the character or escape the scanner accepts next inside a string; 0 if there is none.
  function Unit(s: string): (n: nat)
    ensures n <= |s|
  {
    if s == [] || s[0] == QUOTE then 0
    else if s[0] == BACKSLASH then
      if |s| > 1 && SimpleEscape(s[1]) != [] then 2
      else if IsUnicodeEscape(s) then 6
      else 0
    else if s[0] as int <= 0x0F then 0
    else 1
  }

  predicate IsContent(c: string)
    decreases |c|
  {
    c == [] || (Unit(c) > 0 && IsContent(c[Unit(c)..]))
  }

  // ---- The same in section 7 of RFC 7159, for text in UTF-8 ----

  // The size of the UTF-8 sequence the bytes begin with; 0 if there is none.
  function Utf8Length(s: string): (n: nat)
    ensures n <= |s| && n <= 4 && (n > 0 ==> IsUtf8(s[..n]))
  {
    if |s| >= 1 && IsUtf8(s[..1]) then 1
    else if |s| >= 2 && IsUtf8(s[..2]) then 2
    else if |s| >= 3 && IsUtf8(s[..3]) then 3
    else if |s| >= 4 && IsUtf8(s[..4]) then 4
    else 0
  }

  predicate IsUtf8Text(s: string)
    decreases |s|
  {
    s == [] || (Utf8Length(s) > 0 && IsUtf8Text(s[Utf8Length(s)..]))
  }

  // unescaped = %x20-21 / %x23-5B / %x5D-10FFFF, of character numbers
  predicate IsUnescaped(cp: nat) {
    0x20 <= cp <= 0x21 || 0x23 <= cp <= 0x5B || 0x5D <= cp <= 0x10FFFF
  }

  predicate StartsUnescaped(c: string) {
    Utf8Length(c) > 0 && IsUnescaped(Utf8Value(c[..Utf8Length(c)]))
  }

  // escape, followed by one of these letters
  predicate IsEscapeLetter(c: char) {
    c in {'\"', '\\', '/', 'b', 'f', 'n', 'r', 't'}
  }

  // escape, then u and four hexadecimal digits
  predicate IsHexEscape(c: string) {
    && |c| >= 6 && c[0] == '\\' && c[1] == 'u'
    && IsHexdig(c[2]) && IsHexdig(c[3]) && IsHexdig(c[4]) && IsHexdig(c[5])
  }

  // HEXDIG of RFC 5234, in either case
  predicate IsHexdig(c: char) {
    0x30 <= c as int <= 0x39 || 0x41 <= c as int <= 0x46 || 0x61 <= c as int <= 0x66
  }

  // *char
  predicate IsRfcContent(c: string)
    decreases |c|
  {
    || c == []
    || (StartsUnescaped(c) && IsRfcContent(c[Utf8Length(c)..]))
    || (c[0] == '\\' && |c| > 1 && IsEscapeLetter(c[1]) && IsRfcContent(c[2..]))
    || (IsHexEscape(c) && IsRfcContent(c[6..]))
  }

  // No byte of the content is a control character.
  predicate NoControls(c: string) {
    forall i :: 0 <= i < |c| ==> c[i] as int >= 0x20
  }

  lemma {:induction false} HexEscapes(c: string)
    ensures IsHexEscape(c) <==> IsUnicodeEscape(c)
  {
    HexDigitsAre();
    hide IsHex, IsHexdig;
  }

  lemma {:induction false} HexDigitsAre()
    ensures forall c :: IsHex(c) <==> IsHexdig(c)
  {
  }

  // What the digits of an escape are worth.
  lemma {:induction false} HexValues(v: nat)
    requires v < 16
    ensures var c, d := "0123456789abcdef"[v], "0123456789ABCDEF"[v];
            IsHex(c) && IsHex(d) && HexValue(c) == HexValue(d) == v
    ensures Hexify(v) == "0123456789abcdef"[v]
  {
  }

  // What an escaped character looks like.
  lemma {:induction false} EscapedCharIs(c: char)
    ensures EscapedChar(c) ==
              if c == '\U{22}' then "\\\""
              else if c == '\U{5c}' then "\\\\"
              else if c == '\U{8}' then "\\b"
              else if c == '\U{9}' then "\\t"
              else if c == '\U{a}' then "\\n"
              else if c == '\U{c}' then "\\f"
              else if c == '\U{d}' then "\\r"
              else if c as int < 0x20 then "\\u00" + HexPair(c as int)
              else [c]
  {
    if c as int < 0x20 {
      HexValues(c as int / 16);
      HexValues(c as int % 16);
    }
    hide Hexify, HexValue;
  }

  function HexPair(n: nat): string
    requires n < 0x100
  {
    ["0123456789abcdef"[n / 16], "0123456789abcdef"[n % 16]]
  }

  // What the escapes of two characters stand for, and that there are no others.
  lemma {:induction false} SimpleEscapeIs(c: char)
    ensures SimpleEscape(c) ==
              if c in "\"\\/" then [c]
              else if c == 'b' then "\U{8}"
              else if c == 't' then "\U{9}"
              else if c == 'n' then "\U{a}"
              else if c == 'f' then "\U{c}"
              else if c == 'r' then "\U{d}"
              else ""
  {
  }

  lemma {:induction false} EscapeLetters(c: char)
    ensures SimpleEscape(c) != [] <==> IsEscapeLetter(c)
    ensures IsEscapeLetter(c) ==> 0x20 <= c as int < 0x80
    ensures SimpleEscape('u') == []
  {
  }

  lemma {:induction false} HexIsAscii(c: char)
    requires IsHex(c)
    ensures 0x20 <= c as int < 0x80
  {
  }

  predicate Printable(c: string) {
    forall i :: 0 <= i < |c| ==> 0x20 <= c[i] as int < 0x80
  }

  // An escape is made of printable ASCII characters.
  lemma {:induction false} EscapeIsPrintable(c: string)
    requires Unit(c) > 0 && c[0] == BACKSLASH
    ensures Printable(c[..Unit(c)])
  {
    var u := c[..Unit(c)];
    EscapeLetters(c[1]);
    hide SimpleEscape;
    if Unit(c) == 6 {
      HexIsAscii(c[2]);
      HexIsAscii(c[3]);
      HexIsAscii(c[4]);
      HexIsAscii(c[5]);
      hide IsHex;
      assert u == [c[0], c[1], c[2], c[3], c[4], c[5]];
    } else {
      assert u == [c[0], c[1]];
    }
  }

  lemma {:induction false} AsciiIsUtf8(c: string)
    requires c != [] && c[0] as int < 0x80
    ensures Utf8Length(c) == 1 && Utf8Value(c[..1]) == c[0] as int
  {
    assert c[..1] == [c[0]];
  }

  lemma {:induction false} PrintableIsUtf8(c: string, n: nat)
    requires n <= |c| && Printable(c[..n])
    ensures IsUtf8Text(c) <==> IsUtf8Text(c[n..])
    decreases n
  {
    if n > 0 {
      assert c[..n][0] == c[0];
      AsciiIsUtf8(c);
      hide Utf8Length;
      assert c[1..][..n - 1] == c[..n][1..] && c[1..][n - 1..] == c[n..];
      PrintableIsUtf8(c[1..], n - 1);
    } else {
      assert c[0..] == c;
    }
  }

  lemma {:induction false} ControlsSplit(c: string, n: nat)
    requires n <= |c|
    ensures NoControls(c) <==> NoControls(c[..n]) && NoControls(c[n..])
  {
    if NoControls(c[..n]) && NoControls(c[n..]) {
      forall i | 0 <= i < |c|
        ensures c[i] as int >= 0x20
      {
        assert c[i] == if i < n then c[..n][i] else c[n..][i - n];
      }
    }
  }

  // A longer sequence is made of bytes that the scanner takes one by one.
  lemma {:induction false} HighIsContent(c: string, n: nat)
    requires n <= |c| && forall i :: 0 <= i < n ==> c[i] as int >= 0x80
    ensures IsContent(c) <==> IsContent(c[n..])
    decreases n
  {
    if n > 0 {
      assert c[1..][n - 1..] == c[n..];
      HighIsContent(c[1..], n - 1);
    } else {
      assert c[0..] == c;
    }
  }

  lemma {:induction false} LongSequence(c: string)
    requires c != [] && c[0] as int >= 0x80 && Utf8Length(c) > 0
    ensures var n := Utf8Length(c);
            n >= 2 && IsUnescaped(Utf8Value(c[..n])) && forall i :: 0 <= i < n ==> c[i] as int >= 0x80
  {
    var n := Utf8Length(c);
    var s := c[..n];
    assert forall i :: 0 <= i < n ==> s[i] == c[i];
    assert c[..1][0] == c[0];
  }

  // The three kinds of bytes content can go on with.
  lemma {:induction false} RfcEscape(c: string)
    requires c != [] && c[0] == BACKSLASH
    ensures IsRfcContent(c) <==> Unit(c) > 0 && IsRfcContent(c[Unit(c)..])
  {
    AsciiIsUtf8(c);
    HexEscapes(c);
    hide IsHexEscape;
    if |c| > 1 {
      EscapeLetters(c[1]);
    }
    hide SimpleEscape, IsEscapeLetter, IsHex, Utf8Length, Utf8Value;
  }

  lemma {:induction false} RfcAscii(c: string)
    requires c != [] && c[0] != BACKSLASH && c[0] as int < 0x80
    ensures IsRfcContent(c) <==> IsUnescaped(c[0] as int) && IsRfcContent(c[1..])
    ensures IsContent(c) && !IsControl(c[0]) <==> IsUnescaped(c[0] as int) && IsContent(c[1..])
  {
    AsciiIsUtf8(c);
    hide Utf8Length, Utf8Value, SimpleEscape;
  }

  lemma {:induction false} RfcHigh(c: string)
    requires c != [] && c[0] as int >= 0x80
    ensures IsRfcContent(c) <==> Utf8Length(c) > 0 && IsRfcContent(c[Utf8Length(c)..])
    ensures Utf8Length(c) > 0 ==> (IsContent(c) <==> IsContent(c[Utf8Length(c)..]))
    ensures Utf8Length(c) > 0 ==> NoControls(c[..Utf8Length(c)])
  {
    if Utf8Length(c) > 0 {
      LongSequence(c);
      HighIsContent(c, Utf8Length(c));
    }
    hide Utf8Length, Utf8Value, IsUnescaped, IsContent;
  }

  // What the scanner accepts inside a string is the RFC's, and raw control characters and bytes that are not UTF-8.
  lemma {:induction false} ContentIsRfcIff(c: string)
    ensures IsRfcContent(c) <==> IsContent(c) && NoControls(c) && IsUtf8Text(c)
    decreases |c|
  {
    hide Utf8Length, IsUnescaped, Unit, IsUtf8;
    if c != [] {
      if c[0] == BACKSLASH {
        RfcEscape(c);
        if Unit(c) > 0 {
          EscapeIsPrintable(c);
          PrintableHasNoControls(c[..Unit(c)]);
          PrintableIsUtf8(c, Unit(c));
          ControlsSplit(c, Unit(c));
          ContentIsRfcIff(c[Unit(c)..]);
        }
      } else if c[0] as int < 0x80 {
        RfcAscii(c);
        AsciiIsUtf8(c);
        ControlsSplit(c, 1);
        assert c[..1] == [c[0]];
        ContentIsRfcIff(c[1..]);
      } else {
        RfcHigh(c);
        if Utf8Length(c) > 0 {
          ControlsSplit(c, Utf8Length(c));
          ContentIsRfcIff(c[Utf8Length(c)..]);
        }
      }
    }
  }

  lemma {:induction false} PrintableHasNoControls(c: string)
    requires Printable(c)
    ensures NoControls(c)
  {
  }

  // No raw byte below 0x10 is accepted.
  lemma {:induction false} ContentAboveNull(c: string)
    requires IsContent(c)
    ensures forall i :: 0 <= i < |c| ==> c[i] as int >= 0x10
    decreases |c|
  {
    if c != [] {
      var u := Unit(c);
      ContentAboveNull(c[u..]);
      UnitAboveNull(c);
      hide Unit;
      forall i | 0 <= i < |c|
        ensures c[i] as int >= 0x10
      {
        assert c[i] == if i < u then c[..u][i] else c[u..][i - u];
      }
    }
  }

  lemma {:induction false} UnitAboveNull(c: string)
    requires Unit(c) > 0
    ensures forall i :: 0 <= i < Unit(c) ==> c[..Unit(c)][i] as int >= 0x10
  {
    if c[0] == BACKSLASH && Unit(c) == 6 {
      assert c[..6] == [c[0], c[1], c[2], c[3], c[4], c[5]];
    }
  }

  // Every raw control character from 0x10 on, and a byte that is no UTF-8, is accepted, which the RFC does not allow.
  lemma {:induction false} RawByteAccepted(b: char)
    requires 0x10 <= b as int <= 0x1F || b == '\U{ff}'
    ensures IsContent([b]) && !IsRfcContent([b])
  {
    assert [b][1..] == [] && [b][..1] == [b];
    ContentIsRfcIff([b]);
    if IsControl(b) {
      assert IsControl([b][0]);
    } else {
      assert Utf8Length([b]) == 0;
    }
  }

  function Joined(p: string, r: Result<string>): Result<string> {
    if r.Ok? then Ok(p + r.value) else r
  }

  // get_string, between the quotes
  function Unquoted(c: string): Result<string>
    requires IsContent(c)
    decreases |c|
  {
    if c == [] then Ok([])
    else if c[0] != BACKSLASH then Joined([c[0]], Unquoted(c[1..]))
    else if c[1] != 'u' then Joined(SimpleEscape(c[1]), Unquoted(c[2..]))
    else
      var high := UnicodeValue(c);
      var rest := c[6..];
      if !IsHighSurrogate(high) then Joined(ToUnicode(high, 0).value, Unquoted(rest))
      else if !IsUnicodeEscape(rest) then Err(InvalidArgument)
      else
        match ToUnicode(high, UnicodeValue(rest))
        case Ok(bytes) => Joined(bytes, Unquoted(rest[6..]))
        case Err(e) => Err(e)
  }

  lemma {:induction false} UnitStays(c: string, rest: string)
    requires Unit(c) > 0
    ensures Unit(c + rest) == Unit(c)
  {
    var s := c + rest;
    assert s[0] == c[0] && (|c| > 1 ==> s[1] == c[1]);
    if IsUnicodeEscape(c) {
      assert s[2] == c[2] && s[3] == c[3] && s[4] == c[4] && s[5] == c[5];
    }
  }

  lemma {:induction false} ContentFrom(unit: string, rest: string)
    requires unit != [] && Unit(unit) == |unit| && IsContent(rest)
    ensures IsContent(unit + rest) && (unit + rest)[|unit|..] == rest
  {
    UnitStays(unit, rest);
    assert (unit + rest)[|unit|..] == rest;
    hide Unit;
  }

  // One escaped character, in front of content.
  lemma {:induction false} EscapedCharIsUnit(c: char)
    ensures EscapedChar(c) != [] && Unit(EscapedChar(c)) == |EscapedChar(c)|
    ensures ShortEscape(c) == [] && IsControl(c) ==>
              IsUnicodeEscape(EscapedChar(c)) && UnicodeValue(EscapedChar(c)) == c as int
  {
    if ShortEscape(c) == [] && IsControl(c) {
      HexifyValue(c as int / 16);
      HexifyValue(c as int % 16);
      hide Hexify, HexValue;
      assert HexValue('0') == 0 by {
        HexifyValue(0);
        ZeroDigit();
      }
    }
  }

  lemma {:induction false} ZeroDigit()
    ensures Hexify(0) == '0'
  {
  }

  lemma {:induction false} HexifyValue(v: nat)
    requires v < 16
    ensures IsHex(Hexify(v)) && HexValue(Hexify(v)) == v
  {
  }

  lemma {:induction false} UnquotedShort(letter: char, rest: string)
    requires SimpleEscape(letter) != [] && IsContent([BACKSLASH, letter] + rest) && IsContent(rest)
    ensures Unquoted([BACKSLASH, letter] + rest) == Joined(SimpleEscape(letter), Unquoted(rest))
  {
    hide Joined, IsContent;
    var s := [BACKSLASH, letter] + rest;
    assert s[0] == BACKSLASH && s[1] == letter && s[2..] == rest;
  }

  lemma {:induction false} UnquotedUnicode(e: string, rest: string)
    requires |e| == 6 && IsUnicodeEscape(e) && UnicodeValue(e) < 0x80
    requires IsContent(e + rest) && IsContent(rest)
    ensures Unquoted(e + rest) == Joined([UnicodeValue(e) as char], Unquoted(rest))
  {
    hide Joined, IsContent;
    var s := e + rest;
    assert s[0] == e[0] && s[1] == e[1] && s[2] == e[2] && s[3] == e[3] && s[4] == e[4] && s[5] == e[5];
    assert s[6..] == rest;
  }

  lemma {:induction false} ShortEscapeRead(c: char)
    requires ShortEscape(c) != []
    ensures |ShortEscape(c)| == 1 && SimpleEscape(ShortEscape(c)[0]) == [c]
  {
  }

  lemma {:induction false} UnquotedPlain(c: char, rest: string)
    requires c != BACKSLASH && IsContent([c] + rest) && IsContent(rest)
    ensures Unquoted([c] + rest) == Joined([c], Unquoted(rest))
  {
    hide Joined, IsContent;
    assert ([c] + rest)[1..] == rest;
  }

  lemma {:induction false} EscapedCharCases(c: char)
    ensures var e := EscapedChar(c);
            if ShortEscape(c) != [] then e == [BACKSLASH, ShortEscape(c)[0]]
            else if IsControl(c) then |e| == 6
            else e == [c] && c != BACKSLASH
  {
    if ShortEscape(c) != [] {
      ShortEscapeRead(c);
    }
    hide Hexify;
  }

  lemma {:induction false} UnquotedEscapedChar(c: char, rest: string)
    requires IsContent(rest)
    ensures IsContent(EscapedChar(c) + rest)
    ensures Unquoted(EscapedChar(c) + rest) == Joined([c], Unquoted(rest))
  {
    hide *;
    EscapedCharIsUnit(c);
    EscapedCharCases(c);
    var e := EscapedChar(c);
    ContentFrom(e, rest);
    if ShortEscape(c) != [] {
      ShortEscapeRead(c);
      UnquotedShort(ShortEscape(c)[0], rest);
    } else if IsControl(c) {
      ControlIsAscii(c);
      UnquotedUnicode(e, rest);
    } else {
      UnquotedPlain(c, rest);
    }
  }

  lemma {:induction false} ControlIsAscii(c: char)
    requires IsControl(c)
    ensures c as int < 0x80
  {
  }

  // The escaped form of any byte string is accepted content, and reading it gives the string back.
  lemma {:induction false} UnquotedEscaped(s: string)
    ensures IsContent(Escaped(s)) && Unquoted(Escaped(s)) == Ok(s)
  {
    if s != [] {
      UnquotedEscaped(s[1..]);
      UnquotedEscapedChar(s[0], Escaped(s[1..]));
      assert [s[0]] + s[1..] == s;
      hide EscapedChar, Unquoted, IsContent;
    }
  }

  // ---- Escaping and UTF-8 ----

  lemma {:induction false} EscapedHead(s: string)
    requires s != []
    ensures Escaped(s) == EscapedChar(s[0]) + Escaped(s[1..])
    ensures s[0] as int >= 0x80 ==> EscapedChar(s[0]) == [s[0]]
    ensures s[0] as int < 0x80 ==> Printable(EscapedChar(s[0])) && EscapedChar(s[0]) != []
  {
    EscapedCharIs(s[0]);
    if s[0] as int < 0x20 {
      HexAreAscii(s[0] as int);
    }
    hide EscapedChar;
  }

  lemma {:induction false} HexAreAscii(n: nat)
    requires n < 0x100
    ensures Printable("\\u00" + HexPair(n))
  {
    assert forall v: nat :: v < 16 ==> 0x20 <= "0123456789abcdef"[v] as int < 0x80;
  }

  predicate AllHigh(s: string) {
    forall i :: 0 <= i < |s| ==> s[i] as int >= 0x80
  }

  lemma {:induction false} ByteKept(c: char, u: string)
    requires c as int >= 0x80
    ensures Escaped([c] + u) == [c] + Escaped(u)
  {
    EscapedHead([c] + u);
    assert ([c] + u)[1..] == u;
    hide Escaped, EscapedChar;
  }

  lemma {:induction false} Front(h: string, t: string)
    requires h != []
    ensures h + t == [h[0]] + (h[1..] + t)
  {
  }

  // Bytes from 0x80 on are kept as they are.
  lemma {:induction false} HighKept(h: string, t: string)
    requires AllHigh(h)
    ensures Escaped(h + t) == h + Escaped(t)
  {
    hide Escaped;
    if h == [] {
      assert h + t == t;
    } else {
      HighKept(h[1..], t);
      ByteKept(h[0], h[1..] + t);
      Front(h, t);
      Front(h, Escaped(t));
    }
  }

  lemma {:induction false} HighFound(s: string, h: string, r: string)
    requires AllHigh(h) && Escaped(s) == h + r
    ensures h <= s
    decreases |h|
  {
    if h != [] {
      assert s != [];
      EscapedHead(s);
      hide Escaped, EscapedChar;
      assert Escaped(s)[0] == h[0];
      assert Escaped(s)[1..] == h[1..] + r;
      if s[0] as int >= 0x80 {
        HighFound(s[1..], h[1..], r);
        assert h == [h[0]] + h[1..];
      }
    }
  }

  lemma {:induction false} LongIsHigh(s: string)
    requires |s| > 1 && IsUtf8(s)
    ensures AllHigh(s)
  {
  }

  // A first sequence of more than one byte is the first one of the escaped form as well.
  lemma {:induction false} SameLength(s: string)
    requires s != [] && s[0] as int >= 0x80
    ensures Utf8Length(Escaped(s)) == Utf8Length(s)
    ensures var n := Utf8Length(s); Escaped(s)[..n] == s[..n] && Escaped(s)[n..] == Escaped(s[n..])
  {
    forall k: nat
      ensures 2 <= k <= |s| && IsUtf8(s[..k]) ==> k <= |Escaped(s)| && Escaped(s)[..k] == s[..k]
      ensures 2 <= k <= |s| && IsUtf8(s[..k]) ==> Escaped(s)[k..] == Escaped(s[k..])
      ensures 2 <= k <= |Escaped(s)| && IsUtf8(Escaped(s)[..k]) ==> k <= |s| && Escaped(s)[..k] == s[..k]
    {
      SamePrefix(s, k);
    }
    EscapedHead(s);
    hide Escaped, EscapedChar;
    assert Escaped(s)[0] == s[0];
    NotOne(s);
    NotOne(Escaped(s));
    hide IsUtf8;
    assert Escaped(s)[0..] == Escaped(s) && s[0..] == s;
  }

  lemma {:induction false} NotOne(s: string)
    requires s != [] && s[0] as int >= 0x80
    ensures !IsUtf8(s[..1])
  {
  }

  lemma {:induction false} SamePrefix(s: string, k: nat)
    ensures 2 <= k <= |s| && IsUtf8(s[..k]) ==>
              k <= |Escaped(s)| && Escaped(s)[..k] == s[..k] && Escaped(s)[k..] == Escaped(s[k..])
    ensures 2 <= k <= |Escaped(s)| && IsUtf8(Escaped(s)[..k]) ==> k <= |s| && Escaped(s)[..k] == s[..k]
  {
    var e := Escaped(s);
    hide Escaped;
    if 2 <= k <= |s| && IsUtf8(s[..k]) {
      LongIsHigh(s[..k]);
      HighKept(s[..k], s[k..]);
      assert s == s[..k] + s[k..];
    }
    if 2 <= k <= |e| && IsUtf8(e[..k]) {
      LongIsHigh(e[..k]);
      assert e == e[..k] + e[k..];
      HighFound(s, e[..k], e[k..]);
    }
  }

  // The escaped form is UTF-8 exactly if the string is, and so is then a string of the RFC.
  lemma {:induction false} EscapedIsUtf8Iff(s: string)
    ensures IsUtf8Text(Escaped(s)) <==> IsUtf8Text(s)
    ensures NoControls(Escaped(s))
    decreases |s|
  {
    if s != [] {
      EscapedIsUtf8Iff(s[1..]);
      EscapedHead(s);
      hide Escaped, EscapedChar, Utf8Length, Utf8Value;
      var e, c := Escaped(s), EscapedChar(s[0]);
      assert e[..|c|] == c && e[|c|..] == Escaped(s[1..]);
      ControlsSplit(e, |c|);
      if s[0] as int < 0x80 {
        AsciiIsUtf8(s);
        PrintableIsUtf8(e, |c|);
      } else {
        SameLength(s);
        if Utf8Length(s) > 0 {
          EscapedIsUtf8Iff(s[Utf8Length(s)..]);
        }
      }
    }
  }

  lemma {:induction false} EscapedIsRfcIff(s: string)
    ensures IsRfcContent(Escaped(s)) <==> IsUtf8Text(s)
  {
    UnquotedEscaped(s);
    EscapedIsUtf8Iff(s);
    ContentIsRfcIff(Escaped(s));
    hide Escaped, IsRfcContent, IsUtf8Text, IsContent, NoControls;
  }

  // ---- What UTF-8 text is ----

  // Character numbers of Unicode: those that are no surrogates.
  predicate IsScalar(cp: nat) {
    cp <= 0x10FFFF && !(0xD800 <= cp <= 0xDFFF)
  }

  function EncodedAll(cps: seq<nat>): string
    requires forall cp <- cps :: IsScalar(cp)
  {
    if cps == [] then []
    else
      assert IsScalar(cps[0]);
      EncodedScalar(cps[0]) + EncodedAll(cps[1..])
  }

  function EncodedScalar(cp: nat): (s: string)
    requires IsScalar(cp)
    ensures IsUtf8(s) && s != []
  {
    EncodedDecodes(cp);
    Encoded(cp).value
  }

  lemma {:induction false} FirstSequence(u: string, t: string)
    requires IsUtf8(u)
    ensures Utf8Length(u + t) == |u| && (u + t)[..|u|] == u && (u + t)[|u|..] == t
  {
    var s := u + t;
    assert s[..|u|] == u && s[|u|..] == t;
    forall k: nat | k < |u|
      ensures !IsUtf8(s[..k])
    {
      assert s[..k] == u[..k];
      NoShorter(u, k);
    }
    hide IsUtf8;
    assert !(1 < |u|) || !IsUtf8(s[..1]);
    assert !(2 < |u|) || !IsUtf8(s[..2]);
    assert !(3 < |u|) || !IsUtf8(s[..3]);
    AtMostFour(u);
  }

  lemma {:induction false} AtMostFour(u: string)
    requires IsUtf8(u)
    ensures 1 <= |u| <= 4
  {
  }

  lemma {:induction false} NoShorter(u: string, k: nat)
    requires IsUtf8(u) && k < |u|
    ensures !IsUtf8(u[..k])
  {
    if k > 0 {
      assert u[..k][0] == u[0];
    }
  }

  lemma {:induction false} EncodedAllIsUtf8(cps: seq<nat>)
    requires forall cp <- cps :: IsScalar(cp)
    ensures IsUtf8Text(EncodedAll(cps))
  {
    hide EncodedScalar, Utf8Length, IsUtf8, IsScalar;
    if cps != [] {
      assert IsScalar(cps[0]);
      EncodedAllIsUtf8(cps[1..]);
      FirstSequence(EncodedScalar(cps[0]), EncodedAll(cps[1..]));
      assert EncodedScalar(cps[0]) != [];
    }
  }

  lemma {:induction false} SequenceIsScalar(u: string)
    requires IsUtf8(u)
    ensures IsScalar(Utf8Value(u)) && EncodedScalar(Utf8Value(u)) == u
  {
    DecodedEncodes(u);
    EncodedDecodes(Utf8Value(u));
    hide Encoded, IsUtf8, Utf8Value;
  }

  lemma {:induction false} ScalarsOf(s: string) returns (cps: seq<nat>)
    requires IsUtf8Text(s)
    ensures (forall cp <- cps :: IsScalar(cp)) && EncodedAll(cps) == s
    decreases |s|
  {
    hide EncodedScalar, Utf8Length, IsUtf8, IsScalar, Utf8Value;
    if s == [] {
      cps := [];
    } else {
      var n := Utf8Length(s);
      SequenceIsScalar(s[..n]);
      var more := ScalarsOf(s[n..]);
      cps := [Utf8Value(s[..n])] + more;
      assert cps[1..] == more && s == s[..n] + s[n..];
    }
  }

  // Text is UTF-8 exactly if it is the encoding of some character numbers, one after the other.
  lemma {:induction false} Utf8TextIff(s: string)
    ensures IsUtf8Text(s) <==> exists cps: seq<nat> :: (forall cp <- cps :: IsScalar(cp)) && EncodedAll(cps) == s
  {
    hide IsUtf8Text, EncodedAll, IsScalar;
    if IsUtf8Text(s) {
      var cps := ScalarsOf(s);
    }
    if cps: seq<nat> :| (forall cp <- cps :: IsScalar(cp)) && EncodedAll(cps) == s {
      EncodedAllIsUtf8(cps);
    }
  }
}
