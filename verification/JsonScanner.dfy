/** The scanner as it runs over its buffer, with a cursor that backtracks to a marker. */
module JsonScanner {
  import opened Decimal
  import opened JsonLexer
  import opened JsonResult
  import opened JsonText

  // ---- What one step sees of the remaining input ----

  lemma {:induction false} LexCases(s: string)
    requires s != []
    ensures IsBlank(s[0]) ==> Lex(s) == Lex(s[1..])
    ensures s[0] == NUL ==> Lex(s) == Cut(EndOfInput, s, 1)
    ensures Structural(s[0]) != ParseError ==> Lex(s) == Cut(Structural(s[0]), s, 1)
    ensures s[0] == QUOTE ==> Lex(s) == LexString(s)
    ensures s[0] == '-' || IsDigit(s[0]) ==> Lex(s) == LexNumber(s)
    ensures s[0] == 't' ==> Lex(s) == LexLiteral(LiteralTrue, "true", s)
    ensures s[0] == 'f' ==> Lex(s) == LexLiteral(LiteralFalse, "false", s)
    ensures s[0] == 'n' ==> Lex(s) == LexLiteral(LiteralNull, "null", s)
  {
    hide LexString, LexNumber, LexLiteral;
  }

  predicate StartsToken(c: char) {
    || IsBlank(c) || c == NUL || Structural(c) != ParseError || c == QUOTE || c == '-' || IsDigit(c)
    || c == 't' || c == 'f' || c == 'n'
  }

  lemma {:induction false} LexMark(s: string)
    requires s != [] && !StartsToken(s[0])
    ensures Lex(s) == if StartsWith(s, BYTE_ORDER_MARK) then Lex(s[3..]) else Cut(ParseError, s, 1)
  {
    hide LexString, LexNumber, LexLiteral;
  }

  lemma {:induction false} MarkAt(s: string)
    requires s != []
    ensures StartsWith(s, BYTE_ORDER_MARK) <==>
              |s| >= 3 && s[0] == '\U{ef}' && s[1] == '\U{bb}' && s[2] == '\U{bf}'
  {
    if |s| >= 3 {
      assert s[..3] == [s[0], s[1], s[2]];
    }
  }

  lemma {:induction false} NextDigit(b: string, i: nat)
    requires i <= |b|
    ensures Digits(b[i..]) == if i < |b| && IsDigit(b[i]) then 1 + Digits(b[i + 1..]) else 0
  {
    if i < |b| {
      assert b[i..][0] == b[i] && b[i..][1..] == b[i + 1..];
    }
  }

  lemma {:induction false} NextUnit(b: string, marker: nat, i: nat)
    requires marker <= i <= |b| && Unit(b[i..]) > 0
    ensures var u := Unit(b[i..]);
            var n := ContentLength(b[i + u..]);
            ContentLength(b[i..]) == if n < 0 then -1 else u + n
  {
    var u := Unit(b[i..]);
    assert b[i..][u..] == b[i + u..];
    hide Unit;
  }

  // ---- What one step sees of the rest of a string ----

  function Content(t: string): string
    requires |t| >= 2
  {
    t[1..|t| - 1]
  }

  lemma {:induction false} InsideQuotes(b: string, start: nat, cursor: nat)
    requires start <= cursor <= |b| && IsStringToken(b[start..cursor])
    ensures start + 2 <= cursor && b[cursor - 1] == QUOTE
    ensures b[start + 1..cursor - 1] == Content(b[start..cursor]) && IsContent(Content(b[start..cursor]))
  {
    hide IsContent;
    var t := b[start..cursor];
    assert |t| == cursor - start && t[|t| - 1] == b[cursor - 1];
    var c := t[1..|t| - 1];
    var d := b[start + 1..cursor - 1];
    assert |c| == |d|;
    forall k | 0 <= k < |c|
      ensures c[k] == d[k]
    {
      assert c[k] == t[k + 1] == b[start + 1 + k];
    }
    assert c == d;
  }

  lemma {:induction false} NothingJoined(r: Result<string>)
    ensures Joined([], r) == r
  {
    if r.Ok? {
      assert [] + r.value == r.value;
    }
  }

  lemma {:induction false} JoinedTwice(p: string, q: string, r: Result<string>)
    ensures Joined(p, Joined(q, r)) == Joined(p + q, r)
  {
    if r.Ok? {
      assert p + (q + r.value) == p + q + r.value;
    }
  }

  lemma {:induction false} JoinedError(p: string, e: Error)
    ensures Joined(p, Err(e)) == Err(e)
  {
  }

  lemma {:induction false} NothingLeft(p: string)
    ensures Joined(p, Unquoted([])) == Ok(p)
  {
    assert p + [] == p;
  }

  // The three kinds of step.
  lemma {:induction false} UnquotedNext(b: string, i: nat, end: nat)
    requires i < end < |b| && b[end] == QUOTE && IsContent(b[i..end])
    ensures b[i] != BACKSLASH ==>
              IsContent(b[i + 1..end]) && Unquoted(b[i..end]) == Joined([b[i]], Unquoted(b[i + 1..end]))
    ensures b[i] == BACKSLASH && b[i + 1] != 'u' ==>
              && i + 2 <= end && IsContent(b[i + 2..end])
              && Unquoted(b[i..end]) == Joined(SimpleEscape(b[i + 1]), Unquoted(b[i + 2..end]))
    ensures b[i] == BACKSLASH && b[i + 1] == 'u' ==> i + 6 <= end && EscapeNext(b, i, end)
  {
    var c := b[i..end];
    assert c[0] == b[i];
    hide ToUnicode, SimpleEscape, HexValue;
    if c[0] != BACKSLASH {
      assert c[1..] == b[i + 1..end];
    } else if c[1] != 'u' {
      assert c[2..] == b[i + 2..end] && c[1] == b[i + 1];
    } else {
      LetterU();
      hide Unquoted, Joined;
      assert c[1] == b[i + 1] && c[6..] == b[i + 6..end];
      UnicodeNext(b, i, end);
    }
  }

  lemma {:induction false} OneUnitEncodes(cp: nat)
    requires cp < 0x10000 && !IsHighSurrogate(cp)
    ensures ToUnicode(cp, 0).Ok?
  {
  }

  lemma {:induction false} LetterU()
    ensures SimpleEscape('u') == []
  {
  }

  ghost predicate EscapeNext(b: string, i: nat, end: nat)
    requires i + 6 <= end < |b| && IsContent(b[i..end])
  {
    && IsUnicodeEscape(b[i..i + 6]) && IsContent(b[i + 6..end])
    && var high := UnicodeValue(b[i..i + 6]);
       if !IsHighSurrogate(high) then
         Unquoted(b[i..end]) == Joined(ToUnicode(high, 0).value, Unquoted(b[i + 6..end]))
       else if i + 7 >= |b| || b[i + 6] != BACKSLASH || b[i + 7] != 'u' then Unquoted(b[i..end]) == Err(InvalidArgument)
       else
         && i + 12 <= end && IsUnicodeEscape(b[i + 6..i + 12]) && IsContent(b[i + 12..end])
         && var both := ToUnicode(high, UnicodeValue(b[i + 6..i + 12]));
            Unquoted(b[i..end]) ==
              if both.Ok? then Joined(both.value, Unquoted(b[i + 12..end])) else Err(both.error)
  }

  lemma {:induction false} EscapeAt(b: string, i: nat, end: nat)
    requires i + 6 <= end <= |b|
    ensures IsUnicodeEscape(b[i..i + 6]) <==> IsUnicodeEscape(b[i..end])
    ensures IsUnicodeEscape(b[i..end]) ==> UnicodeValue(b[i..i + 6]) == UnicodeValue(b[i..end])
  {
    var s, t := b[i..i + 6], b[i..end];
    assert s[0] == t[0] && s[1] == t[1] && s[2] == t[2] && s[3] == t[3] && s[4] == t[4] && s[5] == t[5];
    hide HexValue;
  }

  // Whether a second escape follows can be seen without looking for the end of the token.
  lemma {:induction false} PairFollows(b: string, i: nat, end: nat)
    requires i <= end < |b| && b[end] == QUOTE && IsContent(b[i..end])
    ensures IsUnicodeEscape(b[i..end]) <==> i + 1 < |b| && b[i] == BACKSLASH && b[i + 1] == 'u'
    ensures IsUnicodeEscape(b[i..end]) ==> i + 6 <= end && IsContent(b[i + 6..end])
  {
    var c := b[i..end];
    LetterU();
    hide SimpleEscape, HexValue;
    if i < end {
      assert c[0] == b[i];
      if c[0] == BACKSLASH {
        assert |c| > 1 && c[1] == b[i + 1];
        if IsUnicodeEscape(c) {
          assert c[6..] == b[i + 6..end];
        }
      }
    }
  }

  lemma {:induction false} UnicodeNext(b: string, i: nat, end: nat)
    requires i < end < |b| && b[end] == QUOTE && IsContent(b[i..end]) && b[i] == BACKSLASH && b[i + 1] == 'u'
    ensures i + 6 <= end && EscapeNext(b, i, end)
  {
    PairFollows(b, i, end);
    EscapeAt(b, i, end);
    PairFollows(b, i + 6, end);
    var c := b[i..end];
    UnquotedUnicodeEscape(c);
    assert c[6..] == b[i + 6..end];
    if IsUnicodeEscape(b[i + 6..end]) {
      EscapeAt(b, i + 6, end);
      assert b[i + 6..end][6..] == b[i + 12..end];
    }
    hide Unquoted, Joined, ToUnicode, IsContent, IsUnicodeEscape, UnicodeValue;
  }

  lemma {:induction false} UnquotedUnicodeEscape(c: string)
    requires IsContent(c) && IsUnicodeEscape(c)
    ensures IsContent(c[6..])
    ensures var high, rest := UnicodeValue(c), c[6..];
            Unquoted(c) ==
              if !IsHighSurrogate(high) then Joined(ToUnicode(high, 0).value, Unquoted(rest))
              else if !IsUnicodeEscape(rest) then Err(InvalidArgument)
              else
                var both := ToUnicode(high, UnicodeValue(rest));
                if both.Ok? then Joined(both.value, Unquoted(rest[6..])) else Err(both.error)
    ensures IsUnicodeEscape(c[6..]) ==> IsContent(c[6..][6..])
  {
    LetterU();
    hide ToUnicode, HexValue, Joined, SimpleEscape;
  }

  class Lexer {
    const buffer: string
    var start: nat
    var cursor: nat

    constructor (s: string)
      ensures buffer == s && start == 0 && cursor == 0
    {
      buffer, start, cursor := s, 0, 0;
    }

    // The character at a position; the buffer ends with a null character.
    function At(i: nat): char {
      if i < |buffer| then buffer[i] else NUL
    }

    // The scanner has just found the token of `l`.
    predicate Found(l: Lexeme)
      reads this
    {
      l.token != EndOfInput ==>
        && start <= cursor <= |buffer|
        && buffer[start..cursor] == l.text
        && buffer[cursor..] == l.rest
    }

    lemma {:induction false} FoundCut(p: nat, token: Token, n: nat)
      requires p + n <= |buffer| && start == p && cursor == p + n
      ensures Found(Cut(token, buffer[p..], n))
    {
      assert buffer[p..][..n] == buffer[p..p + n] && buffer[p..][n..] == buffer[p + n..];
    }

    method SkipDigits()
      requires cursor <= |buffer|
      modifies `cursor
      ensures cursor == old(cursor) + Digits(buffer[old(cursor)..]) <= |buffer|
    {
      hide Digits;
      while IsDigit(At(cursor))
        invariant old(cursor) <= cursor <= |buffer|
        invariant cursor + Digits(buffer[cursor..]) == old(cursor) + Digits(buffer[old(cursor)..])
        decreases |buffer| - cursor
      {
        NextDigit(buffer, cursor);
        cursor := cursor + 1;
      }
      NextDigit(buffer, cursor);
    }

    // One character or escape of a string, character by character.
    method ScanUnit() returns (ok: bool)
      requires cursor <= |buffer| && At(cursor) != QUOTE
      modifies `cursor
      ensures var u := Unit(buffer[old(cursor)..]);
              (ok <==> u > 0) && (ok ==> cursor == old(cursor) + u)
    {
      ghost var s := buffer[cursor..];
      var yych := At(cursor);
      if yych as int <= 0x0F {
        return false;
      }
      if yych != BACKSLASH {
        cursor := cursor + 1;
        return true;
      }
      cursor := cursor + 1;
      yych := At(cursor);
      assert |s| > 1 ==> s[1] == yych;
      if SimpleEscape(yych) != [] {
        cursor := cursor + 1;
        return true;
      }
      if yych != 'u' {
        return false;
      }
      for i := 0 to 4
        invariant cursor == old(cursor) + 1 + i < |buffer|
        invariant forall k :: 2 <= k < 2 + i ==> IsHex(s[k])
      {
        cursor := cursor + 1;
        assert |s| > i + 2 ==> s[i + 2] == At(cursor);
        if !IsHex(At(cursor)) {
          return false;
        }
      }
      cursor := cursor + 1;
      return true;
    }

    method ScanString() returns (token: Token)
      requires start == cursor < |buffer| && buffer[cursor] == QUOTE
      modifies `cursor
      ensures var l := LexString(buffer[start..]); token == l.token && Found(l)
    {
      hide Unit, ContentLength, Found;
      var marker := cursor + 1;
      ghost var s := buffer[start..];
      assert s[1..] == buffer[marker..];
      cursor := marker;
      while At(cursor) != QUOTE
        invariant marker <= cursor <= |buffer|
        invariant var n := ContentLength(buffer[cursor..]);
                  ContentLength(s[1..]) == if n < 0 then -1 else cursor - marker + n
        decreases |buffer| - cursor
      {
        ghost var before := cursor;
        var ok := ScanUnit();
        if !ok {
          NoContent(buffer, before);
          cursor := marker;
          FoundCut(start, ParseError, 1);
          return ParseError;
        }
        NextUnit(buffer, marker, before);
      }
      QuoteReached(buffer, cursor);
      cursor := cursor + 1;
      FoundCut(start, ValueString, cursor - start);
      return ValueString;
    }

    // A fraction or an exponent that does not go on is given back.
    method ScanNumber() returns (token: Token)
      requires start == cursor < |buffer| && (buffer[cursor] == '-' || IsDigit(buffer[cursor]))
      modifies `cursor
      ensures var l := LexNumber(buffer[start..]); token == l.token && Found(l)
    {
      hide Found, NumberLength, FractionLength, ExponentLength, Digits;
      ghost var s := buffer[start..];
      if At(cursor) == '-' {
        cursor := cursor + 1;
        if !IsDigit(At(cursor)) {
          NoNumber(s);
          FoundCut(start, ParseError, 1);
          return ParseError;
        }
      }
      ghost var first := cursor;
      if At(cursor) == '0' {
        cursor := cursor + 1;
      } else {
        SkipDigits();
      }
      ghost var i := cursor;
      IntegerPart(buffer, start, first, i);
      ScanFraction();
      ScanExponent();
      FoundCut(start, ValueNumber, cursor - start);
      return ValueNumber;
    }

    method ScanFraction()
      requires cursor <= |buffer|
      modifies `cursor
      ensures cursor == old(cursor) + FractionLength(buffer[old(cursor)..]) <= |buffer|
    {
      hide Digits;
      var marker := cursor;
      ghost var s := buffer[marker..];
      if At(cursor) == '.' {
        cursor := cursor + 1;
        assert s[1..] == buffer[cursor..];
        if IsDigit(At(cursor)) {
          SkipDigits();
        } else {
          cursor := marker;
        }
      }
    }

    method ScanExponent()
      requires cursor <= |buffer|
      modifies `cursor
      ensures cursor == old(cursor) + ExponentLength(buffer[old(cursor)..]) <= |buffer|
    {
      hide Digits;
      var marker := cursor;
      ghost var s := buffer[marker..];
      if At(cursor) == 'e' || At(cursor) == 'E' {
        cursor := cursor + 1;
        if At(cursor) == '+' || At(cursor) == '-' {
          cursor := cursor + 1;
        }
        assert s[cursor - marker..] == buffer[cursor..];
        NextDigit(buffer, cursor);
        if IsDigit(At(cursor)) {
          SkipDigits();
        } else {
          cursor := marker;
        }
      }
    }

    method ScanLiteral(wanted: Token, word: string) returns (token: Token)
      requires start == cursor < |buffer| && word != [] && buffer[cursor] == word[0] && NUL !in word
      modifies `cursor
      ensures var l := LexLiteral(wanted, word, buffer[start..]); token == l.token && Found(l)
    {
      hide Found;
      ghost var s := buffer[start..];
      cursor := cursor + 1;
      var marker := cursor;
      for i := 1 to |word|
        invariant cursor == start + i <= |buffer|
        invariant forall k :: 0 <= k < i ==> s[k] == word[k]
      {
        if At(cursor) != word[i] {
          DiffersAt(s, word, i);
          cursor := marker;
          FoundCut(start, ParseError, 1);
          return ParseError;
        }
        cursor := cursor + 1;
      }
      assert s[..|word|] == word;
      FoundCut(start, wanted, |word|);
      return wanted;
    }

    // scan()
    method Scan() returns (token: Token)
      requires cursor <= |buffer|
      modifies this
      ensures var l := Lex(buffer[old(cursor)..]); token == l.token && Found(l)
      decreases |buffer| - cursor
    {
      hide Lex, LexString, LexNumber, LexLiteral, Found, IsBlank, Structural;
      start := cursor;
      ghost var s := buffer[start..];
      var yych := At(cursor);
      if cursor < |buffer| {
        LexCases(s);
      }
      if IsBlank(yych) {
        BlankIsNotNull();
        assert s[1..] == buffer[cursor + 1..];
        cursor := cursor + 1;
        token := Scan();
      } else if yych == NUL {
        cursor := cursor + 1;
        NothingFound(start);
        token := EndOfInput;
      } else if Structural(yych) != ParseError {
        cursor := cursor + 1;
        FoundCut(start, Structural(yych), 1);
        token := Structural(yych);
      } else if yych == QUOTE {
        token := ScanString();
      } else if yych == '-' || IsDigit(yych) {
        token := ScanNumber();
      } else if yych == 't' {
        token := ScanLiteral(LiteralTrue, "true");
      } else if yych == 'f' {
        token := ScanLiteral(LiteralFalse, "false");
      } else if yych == 'n' {
        token := ScanLiteral(LiteralNull, "null");
      } else {
        LexMark(s);
        MarkAt(s);
        if yych == '\U{ef}' && At(cursor + 1) == '\U{bb}' && At(cursor + 2) == '\U{bf}' {
          assert s[3..] == buffer[cursor + 3..];
          cursor := cursor + 3;
          token := Scan();
        } else {
          cursor := cursor + 1;
          FoundCut(start, ParseError, 1);
          token := ParseError;
        }
      }
    }

    // get_string, of the string token just found. An escape is read where it stands in the buffer.
    method GetString() returns (r: Result<string>)
      requires start <= cursor <= |buffer| && IsStringToken(buffer[start..cursor])
      ensures r == Unquoted(Content(buffer[start..cursor]))
    {
      hide Unquoted, IsContent, Unit, SimpleEscape, Joined, ToUnicode;
      ghost var c := Content(buffer[start..cursor]);
      var i, end := start + 1, cursor - 1;
      var result: string := [];
      InsideQuotes(buffer, start, cursor);
      NothingJoined(Unquoted(c));
      while i < end
        invariant start < i <= end && IsContent(buffer[i..end])
        invariant Joined(result, Unquoted(buffer[i..end])) == Unquoted(c)
        decreases end - i
      {
        UnquotedNext(buffer, i, end);
        var piece: string;
        if buffer[i] != BACKSLASH {
          piece, i := [buffer[i]], i + 1;
        } else if buffer[i + 1] != 'u' {
          piece, i := SimpleEscape(buffer[i + 1]), i + 2;
        } else {
          var codepoint := UnicodeValue(buffer[i..i + 6]);
          if !IsHighSurrogate(codepoint) {
            OneUnitEncodes(codepoint);
            piece, i := ToUnicode(codepoint, 0).value, i + 6;
          } else if i + 7 >= |buffer| || buffer[i + 6] != BACKSLASH || buffer[i + 7] != 'u' {
            JoinedError(result, InvalidArgument);
            return Err(InvalidArgument);
          } else {
            var both := ToUnicode(codepoint, UnicodeValue(buffer[i + 6..i + 12]));
            if both.Err? {
              JoinedError(result, both.error);
              return Err(both.error);
            }
            piece, i := both.value, i + 12;
          }
        }
        JoinedTwice(result, piece, Unquoted(buffer[i..end]));
        result := result + piece;
      }
      assert buffer[end..end] == [];
      NothingLeft(result);
      return Ok(result);
    }

    lemma {:induction false} NothingFound(p: nat)
      requires p <= |buffer| && At(p) == NUL
      ensures Lex(buffer[p..]).token == EndOfInput && Found(Lex(buffer[p..]))
    {
      hide LexString, LexNumber, LexLiteral;
    }
  }

  lemma {:induction false} DiffersAt(s: string, word: string, i: nat)
    requires i < |word| && (i < |s| ==> s[i] != word[i])
    ensures !StartsWith(s, word)
  {
    if i < |s| && |word| <= |s| {
      assert s[..|word|][i] == s[i];
    }
  }

  lemma {:induction false} BlankIsNotNull()
    ensures !IsBlank(NUL)
  {
  }

  lemma {:induction false} NoContent(b: string, i: nat)
    requires i <= |b| && Unit(b[i..]) == 0 && (i < |b| ==> b[i] != QUOTE)
    ensures ContentLength(b[i..]) == -1
  {
    hide Unit;
  }

  lemma {:induction false} QuoteReached(b: string, i: nat)
    requires i < |b| && b[i] == QUOTE
    ensures ContentLength(b[i..]) == 0
  {
  }

  lemma {:induction false} NoNumber(s: string)
    requires s != [] && s[0] == '-' && (|s| > 1 ==> !IsDigit(s[1]))
    ensures NumberLength(s) == 0
  {
    hide Digits, FractionLength, ExponentLength;
  }

  lemma {:induction false} SomeDigits(s: string)
    requires s != [] && IsDigit(s[0])
    ensures Digits(s) > 0
  {
  }

  lemma {:induction false} SliceOfSlice(b: string, start: nat, k: nat)
    requires start <= k <= |b|
    ensures b[start..][k - start..] == b[k..]
  {
  }

  // The three parts of a number, by position.
  lemma {:induction false} IntegerPart(b: string, start: nat, first: nat, i: nat)
    requires start <= first < |b| && first == (if b[start] == '-' then start + 1 else start) && IsDigit(b[first])
    requires i == first + if b[first] == '0' then 1 else Digits(b[first..])
    ensures first < i <= |b|
    ensures var f := i + FractionLength(b[i..]);
            NumberLength(b[start..]) == f + ExponentLength(b[f..]) - start
  {
    hide Digits, FractionLength, ExponentLength, NumberLength;
    SliceOfSlice(b, start, first);
    assert b[first..][0] == b[first];
    SomeDigits(b[first..]);
    SliceOfSlice(b, start, i);
    var f := i + FractionLength(b[i..]);
    SliceOfSlice(b, start, f);
    NumberByParts(b[start..], first - start, i - start, f - start);
  }
}
