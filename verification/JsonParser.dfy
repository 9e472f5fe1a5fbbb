/** The recursive-descent parser, and what it makes of dumped text. */
module JsonParser {
  import opened Decimal
  import opened JsonAccess
  import opened JsonLexer
  import opened JsonNumber
  import opened JsonResult
  import opened JsonSerializer
  import opened JsonText
  import opened JsonValue
  import opened StringOrder

  // A value, and the token that comes after it.
  datatype Parsed = Parsed(value: Json, next: Lexeme)

  // How much input is left, counting the token.
  function Size(l: Lexeme): nat {
    if l.token == EndOfInput then 0 else |l.rest| + 1
  }

  // get_string of a string token
  function StringOf(t: string): Result<string> {
    if IsStringToken(t) then Unquoted(t[1..|t| - 1]) else Err(InvalidArgument)
  }

  // parse_internal: `l` is the last token read.
  function ParseValue(l: Lexeme, strtod: string -> real): (r: Result<Parsed>)
    ensures r.Ok? ==> Size(r.value.next) < Size(l)
    decreases Size(l), 0
  {
    match l.token
    case BeginObject =>
      var n := Lex(l.rest);
      if n.token == EndObject then Ok(Parsed(Obj(map[]), Lex(n.rest)))
      else if n.token == ValueSeparator then Err(InvalidArgument)
      else ParseMembers(n, map[], strtod)
    case BeginArray =>
      var n := Lex(l.rest);
      if n.token == EndArray then Ok(Parsed(Arr([]), Lex(n.rest)))
      else if n.token == ValueSeparator then Err(InvalidArgument)
      else ParseElements(n, [], strtod)
    case LiteralNull => Ok(Parsed(Null, Lex(l.rest)))
    case LiteralTrue => Ok(Parsed(Bool(true), Lex(l.rest)))
    case LiteralFalse => Ok(Parsed(Bool(false), Lex(l.rest)))
    case ValueString =>
      (match StringOf(l.text)
       case Ok(s) => Ok(Parsed(Str(s), Lex(l.rest)))
       case Err(e) => Err(e))
    case ValueNumber => Ok(Parsed(NumberOf(l.text, strtod), Lex(l.rest)))
    case _ => Err(InvalidArgument)
  }

  function SkipSeparator(l: Lexeme): (n: Lexeme)
    ensures Size(n) <= Size(l)
  {
    if l.token == ValueSeparator then Lex(l.rest) else l
  }

  // One turn of the loop over elements, and the turns after it.
  function ParseElements(l: Lexeme, a: seq<Json>, strtod: string -> real): (r: Result<Parsed>)
    ensures r.Ok? ==> Size(r.value.next) < Size(l)
    decreases Size(l), 1
  {
    match ParseValue(SkipSeparator(l), strtod)
    case Err(e) => Err(e)
    case Ok(p) =>
      if p.next.token == ValueSeparator then ParseElements(p.next, a + [p.value], strtod)
      else if p.next.token == EndArray then Ok(Parsed(Arr(a + [p.value]), Lex(p.next.rest)))
      else Err(InvalidArgument)
  }

  // The key of a member and the colon; the result is the first token of the value.
  function ParseKey(l: Lexeme): (r: Result<(string, Lexeme)>)
    ensures r.Ok? ==> Size(r.value.1) < Size(l)
  {
    var k := SkipSeparator(l);
    if k.token != ValueString then Err(InvalidArgument)
    else
      match StringOf(k.text)
      case Err(e) => Err(e)
      case Ok(key) =>
        var colon := Lex(k.rest);
        if colon.token == NameSeparator then Ok((key, Lex(colon.rest))) else Err(InvalidArgument)
  }

  function ParseMembers(l: Lexeme, o: map<string, Json>, strtod: string -> real): (r: Result<Parsed>)
    ensures r.Ok? ==> Size(r.value.next) < Size(l)
    decreases Size(l), 1
  {
    match ParseKey(l)
    case Err(e) => Err(e)
    case Ok((key, first)) =>
      match ParseValue(first, strtod)
      case Err(e) => Err(e)
      case Ok(p) =>
        if p.next.token == ValueSeparator then ParseMembers(p.next, o[key := p.value], strtod)
        else if p.next.token == EndObject then Ok(Parsed(Obj(o[key := p.value]), Lex(p.next.rest)))
        else Err(InvalidArgument)
  }

  // parse
  function Parse(s: string, strtod: string -> real): Result<Json> {
    match ParseValue(Lex(s), strtod)
    case Err(e) => Err(e)
    case Ok(p) => if p.next.token == EndOfInput then Ok(p.value) else Err(InvalidArgument)
  }

  // ---- Dumped text ----

  // The text of every floating-point number is a number of the RFC.
  ghost predicate FloatsAreNumbers(j: Json, show: real -> string) {
    match j
    case Float(f) => IsNumber(FloatText(f, show))
    case Arr(a) => forall i :: 0 <= i < |a| ==> FloatsAreNumbers(a[i], show)
    case Obj(o) => forall k :: k in o ==> FloatsAreNumbers(o[k], show)
    case _ => true
  }

  // What is read from the text of every floating-point number equals it.
  predicate FloatsComeBack(j: Json, show: real -> string, strtod: string -> real) {
    match j
    case Float(f) => Eq(NumberOf(FloatText(f, show), strtod), j)
    case Arr(a) => forall i :: 0 <= i < |a| ==> FloatsComeBack(a[i], show, strtod)
    case Obj(o) => forall k :: k in o ==> FloatsComeBack(o[k], show, strtod)
    case _ => true
  }

  lemma {:induction false} WithoutFloats(j: Json, show: real -> string, strtod: string -> real)
    requires FloatFree(j)
    ensures FloatsAreNumbers(j, show) && FloatsComeBack(j, show, strtod)
  {
    match j
    case Arr(a) =>
      forall i | 0 <= i < |a|
        ensures FloatsAreNumbers(a[i], show) && FloatsComeBack(a[i], show, strtod)
      {
        WithoutFloats(a[i], show, strtod);
      }
    case Obj(o) =>
      forall k | k in o
        ensures FloatsAreNumbers(o[k], show) && FloatsComeBack(o[k], show, strtod)
      {
        WithoutFloats(o[k], show, strtod);
      }
    case _ =>
  }

  // What comes back: a floating-point number as it is read, and of the others one that is signed and not negative as an
  // unsigned one.
  function Reparsed(j: Json, show: real -> string, strtod: string -> real): Json {
    match j
    case Int(i) => if i >= 0 then UInt(i) else j
    case Float(f) => NumberOf(FloatText(f, show), strtod)
    case Arr(a) => Arr(seq(|a|, i requires 0 <= i < |a| => Reparsed(a[i], show, strtod)))
    case Obj(o) => Obj(map k | k in o :: Reparsed(o[k], show, strtod))
    case _ => j
  }

  lemma {:induction false} ReparsedEqualsIff(j: Json, show: real -> string, strtod: string -> real)
    ensures Eq(Reparsed(j, show, strtod), j) <==> FloatsComeBack(j, show, strtod)
  {
    match j
    case Float(_) =>
    case Arr(a) =>
      forall i | 0 <= i < |a|
        ensures Eq(Reparsed(j, show, strtod).a[i], a[i]) <==> FloatsComeBack(a[i], show, strtod)
      {
        ReparsedEqualsIff(a[i], show, strtod);
      }
    case Obj(o) =>
      forall k | k in o
        ensures Eq(Reparsed(j, show, strtod).o[k], o[k]) <==> FloatsComeBack(o[k], show, strtod)
      {
        ReparsedEqualsIff(o[k], show, strtod);
      }
    case _ => EqReflexive(j);
  }

  // The text `t`, with `post` behind it, is parsed as `v`.
  ghost predicate Reads(t: string, post: string, v: Json, strtod: string -> real) {
    ParseValue(Lex(t + post), strtod) == Ok(Parsed(v, Lex(post)))
  }

  lemma {:induction false} StringRead(s: string, post: string, strtod: string -> real)
    ensures Reads([QUOTE] + Escaped(s) + [QUOTE], post, Str(s), strtod)
  {
    EscapedIsOneToken(s, post);
    EscapedString(s);
    hide Lex, StringOf, Escaped;
  }

  lemma {:induction false} EscapedString(s: string)
    ensures StringOf([QUOTE] + Escaped(s) + [QUOTE]) == Ok(s)
  {
    UnquotedEscaped(s);
    var c := Escaped(s);
    var t := [QUOTE] + c + [QUOTE];
    assert t[1..|t| - 1] == c;
    hide IsContent, Unquoted, Escaped;
  }

  lemma {:induction false} IntegerRead(n: nat, negative: bool, post: string, strtod: string -> real)
    requires EndsNumber(post) && n <= Limit(negative)
    ensures Reads(IntegerText(n, negative), post, if negative then Int(Signed(n, true)) else UInt(n), strtod)
  {
    hide Lex, NumberOf, ToString, Numeral, EndsNumber;
    IntegerIsOneToken(n, negative, post);
    NumeralOfToString(n);
    IntegerIsExactIff(ToString(n), negative, strtod);
    assert !negative ==> "" + ToString(n) == ToString(n);
  }

  lemma {:induction false} NumberRead(t: string, post: string, strtod: string -> real)
    requires IsNumber(t) && EndsNumber(post)
    ensures Reads(t, post, NumberOf(t, strtod), strtod)
  {
    NumberToken(t, post);
    hide Lex, NumberOf, EndsNumber, IsNumber;
  }

  lemma {:induction false} LiteralRead(word: string, post: string, strtod: string -> real)
    requires word == "true" || word == "false" || word == "null"
    ensures Reads(word, post, if word == "null" then Null else Bool(word == "true"), strtod)
  {
    LiteralToken(word, post);
    hide Lex;
  }

  lemma {:induction false} ScalarRead(j: Json, l: Layout, post: string, strtod: string -> real)
    requires FloatsAreNumbers(j, l.show) && !j.Arr? && !j.Obj? && EndsNumber(post)
    ensures Reads(ScalarText(j, l), post, Reparsed(j, l.show, strtod), strtod)
  {
    hide Reads, EndsNumber, Escaped, IntegerText;
    match j
    case Null => LiteralRead("null", post, strtod);
    case Bool(b) => LiteralRead(if b then "true" else "false", post, strtod);
    case Int(i) => IntegerRead(Magnitude(i), i < 0, post, strtod);
    case UInt(n) => IntegerRead(n, false, post, strtod);
    case Float(f) => NumberRead(FloatText(f, l.show), post, strtod);
    case Str(s) => StringRead(s, post, strtod);
  }

  // ---- Containers ----

  // A value that is read begins with none of the tokens that separate or close.
  lemma {:induction false} ValueStarts(l: Lexeme, strtod: string -> real)
    requires ParseValue(l, strtod).Ok?
    ensures l.token !in {EndArray, EndObject, ValueSeparator, NameSeparator, ParseError, EndOfInput}
  {
    hide ParseElements, ParseMembers, NumberOf, StringOf, Lex;
  }

  lemma {:induction false} BreakSkipped(l: Layout, rest: string)
    ensures Lex(LineBreak(l) + rest) == Lex(rest)
  {
    hide Lex;
    if l.pretty {
      BlankSkipped(NEWLINE, rest);
    } else {
      assert LineBreak(l) + rest == rest;
    }
  }

  lemma {:induction false} SpacesSkipped(n: nat, rest: string)
    ensures Lex(Spaces(n) + rest) == Lex(rest)
  {
    hide Lex, Spaces;
    BlanksSkipped(Spaces(n), rest);
  }

  // What stands in front of an element, and the element's first token.
  lemma {:induction false} LeadingRead(l: Layout, indent: UInt32, first: bool, rest: string)
    ensures first ==> Lex(Leading(l, indent, first) + rest) == Lex(rest)
    ensures !first ==> Lex(Leading(l, indent, first) + rest).token == ValueSeparator
    ensures !first ==> SkipSeparator(Lex(Leading(l, indent, first) + rest)) == Lex(rest)
  {
    hide Lex, LineBreak, Spaces;
    SpacesSkipped(indent, rest);
    var spaced := Spaces(indent) + rest;
    if first {
      assert Leading(l, indent, first) + rest == spaced;
    } else {
      assert Leading(l, indent, first) + rest == [','] + (LineBreak(l) + spaced);
      StructuralToken(',', LineBreak(l) + spaced);
      BreakSkipped(l, spaced);
    }
  }

  lemma {:induction false} ClosingRead(l: Layout, indent: UInt32, bracket: char, post: string)
    requires bracket == ']' || bracket == '}'
    ensures Lex(Closing(l, indent, bracket) + post) == Lexeme(Structural(bracket), [bracket], post)
  {
    hide Lex, LineBreak, Spaces;
    var closed := [bracket] + post;
    assert Closing(l, indent, bracket) + post == LineBreak(l) + (Spaces(indent) + closed);
    BreakSkipped(l, Spaces(indent) + closed);
    SpacesSkipped(indent, closed);
    StructuralToken(bracket, post);
  }

  lemma {:induction false} ContainerEnds(l: Layout, indent: UInt32, bracket: char, post: string)
    requires bracket == ']' || bracket == '}'
    ensures EndsNumber(Closing(l, indent, bracket) + post)
    ensures forall rest :: EndsNumber(Leading(l, indent, false) + rest)
  {
    hide Spaces;
    var c := Closing(l, indent, bracket) + post;
    if indent > 0 {
      assert Spaces(indent)[0] in Spaces(indent);
    }
    assert c[0] == if l.pretty then NEWLINE else if indent > 0 then ' ' else bracket;
    forall rest
      ensures EndsNumber(Leading(l, indent, false) + rest)
    {
      assert (Leading(l, indent, false) + rest)[0] == ',';
    }
  }

  // One element or member value, with what stands in front of it and the rest behind it.
  lemma {:induction false} ElementTurn(l: Layout, indent: UInt32, first: bool, t: string, rest: string, v: Json,
                                       strtod: string -> real)
    requires Reads(t, rest, v, strtod)
    ensures var n := Lex(Leading(l, indent, first) + t + rest);
            && ParseValue(SkipSeparator(n), strtod) == Ok(Parsed(v, Lex(rest)))
            && (if first then n.token != EndArray && n.token != ValueSeparator else n.token == ValueSeparator)
  {
    LeadingRead(l, indent, first, t + rest);
    assert Leading(l, indent, first) + t + rest == Leading(l, indent, first) + (t + rest);
    ValueStarts(Lex(t + rest), strtod);
    hide Lex, Leading, ParseValue;
  }

  lemma {:induction false} ElementsSplit(j: Json, l: Layout, indent: UInt32, i: nat, tail: string)
    requires j.Arr? && i < |j.a|
    ensures var rest := Elements(j, l, indent, i + 1) + tail;
            Elements(j, l, indent, i) + tail == Leading(l, indent, i == 0) + Dump(j.a[i], l, indent) + rest
    ensures i + 1 == |j.a| ==> Elements(j, l, indent, i + 1) + tail == tail
  {
    hide Leading, Dump;
    var a, b, c := Leading(l, indent, i == 0), Dump(j.a[i], l, indent), Elements(j, l, indent, i + 1);
    assert a + b + c + tail == a + b + (c + tail);
    if i + 1 == |j.a| {
      assert c == [] && [] + tail == tail;
    }
  }

  // Behind an element stands a comma, or the closing bracket.
  lemma {:induction false} BehindElement(j: Json, l: Layout, indent: UInt32, i: nat, outer: UInt32, post: string)
    requires j.Arr? && 0 < i <= |j.a|
    ensures var rest := Elements(j, l, indent, i) + (Closing(l, outer, ']') + post);
            EndsNumber(rest) && (i == |j.a| ==> Lex(rest) == Lexeme(EndArray, "]", post))
  {
    var tail := Closing(l, outer, ']') + post;
    ContainerEnds(l, outer, ']', post);
    hide Lex, Leading, Closing, Dump, EndsNumber;
    if i < |j.a| {
      ElementsSplit(j, l, indent, i, tail);
      FromTheLeading(l, indent, [], Dump(j.a[i], l, indent), Elements(j, l, indent, i + 1) + tail);
    } else {
      assert Elements(j, l, indent, i) == [] && [] + tail == tail;
      ClosingRead(l, outer, ']', post);
    }
  }

  lemma {:induction false} FromTheLeading(l: Layout, indent: UInt32, name: string, t: string, rest: string)
    ensures EndsNumber(Leading(l, indent, false) + t + rest)
    ensures EndsNumber(Leading(l, indent, false) + name + t + rest)
  {
    hide LineBreak, Spaces;
    var a := Leading(l, indent, false);
    assert a[0] == ',';
    hide Leading;
    assert (a + t + rest)[0] == a[0] && (a + name + t + rest)[0] == a[0];
  }

  lemma {:induction false} ReparsedElement(j: Json, i: nat, show: real -> string, strtod: string -> real)
    requires j.Arr? && FloatsAreNumbers(j, show) && i < |j.a|
    ensures FloatsAreNumbers(j.a[i], show) && Reparsed(j, show, strtod).Arr? && |Reparsed(j, show, strtod).a| == |j.a|
    ensures Reparsed(j, show, strtod).a[..i] + [Reparsed(j.a[i], show, strtod)] == Reparsed(j, show, strtod).a[..i + 1]
    ensures Reparsed(j, show, strtod).a[..|j.a|] == Reparsed(j, show, strtod).a
  {
  }

  lemma {:induction false} ParseTurn(n: Lexeme, a: seq<Json>, p: Parsed, strtod: string -> real)
    requires ParseValue(SkipSeparator(n), strtod) == Ok(p)
    ensures ParseElements(n, a, strtod) ==
              if p.next.token == ValueSeparator then ParseElements(p.next, a + [p.value], strtod)
              else if p.next.token == EndArray then Ok(Parsed(Arr(a + [p.value]), Lex(p.next.rest)))
              else Err(InvalidArgument)
  {
    hide Lex, SkipSeparator, ParseValue;
  }

  // The loop reads the elements of an array, of which it has `a`, up to and with the closing bracket.
  ghost predicate ArrayEnds(n: Lexeme, a: seq<Json>, v: Json, post: string, strtod: string -> real) {
    ParseElements(n, a, strtod) == Ok(Parsed(v, Lex(post)))
  }

  lemma {:induction false} ElementsRead(j: Json, r: seq<Json>, l: Layout, indent: UInt32, i: nat, outer: UInt32,
                                        post: string, strtod: string -> real)
    requires j.Arr? && FloatsAreNumbers(j, l.show) && i < |j.a| && Reparsed(j, l.show, strtod) == Arr(r) && |r| == |j.a|
    ensures var n := Lex(Elements(j, l, indent, i) + (Closing(l, outer, ']') + post));
            && ArrayEnds(n, r[..i], Arr(r), post, strtod)
            && (if i == 0 then n.token != EndArray && n.token != ValueSeparator else n.token == ValueSeparator)
    decreases j, 0, |j.a| - i
  {
    hide *;
    ReparsedElement(j, i, l.show, strtod);
    var rest := Elements(j, l, indent, i + 1) + (Closing(l, outer, ']') + post);
    var t := Dump(j.a[i], l, indent);
    ElementsSplit(j, l, indent, i, Closing(l, outer, ']') + post);
    BehindElement(j, l, indent, i + 1, outer, post);
    DumpRead(j.a[i], l, indent, rest, strtod);
    ElementTurn(l, indent, i == 0, t, rest, Reparsed(j.a[i], l.show, strtod), strtod);
    var n := Lex(Leading(l, indent, i == 0) + t + rest);
    if i + 1 < |j.a| {
      ElementsRead(j, r, l, indent, i + 1, outer, post, strtod);
      MoreElements(n, r[..i], Parsed(Reparsed(j.a[i], l.show, strtod), Lex(rest)), Arr(r), post, strtod);
    } else {
      LastElement(n, r[..i], Parsed(Reparsed(j.a[i], l.show, strtod), Lex(rest)), post, strtod);
    }
  }

  lemma {:induction false} MoreElements(n: Lexeme, a: seq<Json>, p: Parsed, v: Json, post: string,
                                        strtod: string -> real)
    requires ParseValue(SkipSeparator(n), strtod) == Ok(p) && p.next.token == ValueSeparator
    requires ArrayEnds(p.next, a + [p.value], v, post, strtod)
    ensures ArrayEnds(n, a, v, post, strtod)
  {
    ParseTurn(n, a, p, strtod);
    hide ParseElements, Lex, ParseValue, SkipSeparator;
  }

  lemma {:induction false} LastElement(n: Lexeme, a: seq<Json>, p: Parsed, post: string, strtod: string -> real)
    requires ParseValue(SkipSeparator(n), strtod) == Ok(p) && p.next == Lexeme(EndArray, "]", post)
    ensures ArrayEnds(n, a, Arr(a + [p.value]), post, strtod)
  {
    ParseTurn(n, a, p, strtod);
    hide ParseElements, Lex, ParseValue, SkipSeparator;
  }

  // The members `keys` are read into the object.
  function Extended(o: map<string, Json>, j: Json, keys: seq<string>, show: real -> string,
                    strtod: string -> real): map<string, Json>
    requires j.Obj? && KeysOf(j.o, keys)
    decreases |keys|
  {
    if keys == [] then o else Extended(o[keys[0] := Reparsed(j.o[keys[0]], show, strtod)], j, keys[1..], show, strtod)
  }

  lemma {:induction false} ExtendedMembers(o: map<string, Json>, j: Json, keys: seq<string>, show: real -> string,
                                           strtod: string -> real)
    requires j.Obj? && KeysOf(j.o, keys)
    ensures var e := Extended(o, j, keys, show, strtod);
            && e.Keys == o.Keys + (set k | k in keys)
            && forall k <- e.Keys :: e[k] == if k in keys then Reparsed(j.o[k], show, strtod) else o[k]
    decreases |keys|
  {
    hide Reparsed;
    if keys != [] {
      var k, rest := keys[0], keys[1..];
      assert keys == [k] + rest;
      ExtendedMembers(o[k := Reparsed(j.o[k], show, strtod)], j, rest, show, strtod);
    }
  }

  lemma {:induction false} ReparsedMembers(j: Json, show: real -> string, strtod: string -> real)
    requires j.Obj?
    ensures var r := Reparsed(j, show, strtod);
            r.Obj? && r.o.Keys == j.o.Keys && forall k <- j.o.Keys :: r.o[k] == Reparsed(j.o[k], show, strtod)
  {
  }

  lemma {:induction false} AllMembers(j: Json, show: real -> string, strtod: string -> real)
    requires j.Obj?
    ensures KeysOf(j.o, Sorted(j.o.Keys))
    ensures Obj(Extended(map[], j, Sorted(j.o.Keys), show, strtod)) == Reparsed(j, show, strtod)
  {
    hide Reparsed, Extended, Sorted, KeysOf;
    SortedKeys(j.o);
    ReparsedMembers(j, show, strtod);
    var keys := Sorted(j.o.Keys);
    ExtendedMembers(map[], j, keys, show, strtod);
    var e, r := Extended(map[], j, keys, show, strtod), Reparsed(j, show, strtod).o;
    assert e.Keys == r.Keys;
    assert e == r;
  }

  lemma {:induction false} KeyRead(k: string, l: Layout, rest: string)
    ensures Lex(Name(k, l) + rest).token == ValueString
    ensures ParseKey(Lex(Name(k, l) + rest)) == Ok((k, Lex(rest)))
  {
    var q, after := [QUOTE] + Escaped(k) + [QUOTE], if l.pretty then [' '] else [];
    assert Name(k, l) + rest == q + ([':'] + (after + rest));
    EscapedIsOneToken(k, [':'] + (after + rest));
    StructuralToken(':', after + rest);
    EscapedString(k);
    hide Lex, Escaped, StringOf;
    if l.pretty {
      BlankSkipped(' ', rest);
    } else {
      assert after + rest == rest;
    }
  }

  lemma {:induction false} KeyAfterSeparator(n: Lexeme, key: Lexeme, k: string, first: Lexeme)
    requires SkipSeparator(n) == key && key.token == ValueString && ParseKey(key) == Ok((k, first))
    ensures ParseKey(n) == Ok((k, first))
  {
    hide StringOf, Lex;
  }

  lemma {:induction false} MemberTurn(l: Layout, indent: UInt32, first: bool, k: string, t: string, rest: string,
                                      v: Json, strtod: string -> real)
    requires Reads(t, rest, v, strtod)
    ensures var n := Lex(Leading(l, indent, first) + Name(k, l) + t + rest);
            && ParseKey(n) == Ok((k, Lex(t + rest)))
            && ParseValue(Lex(t + rest), strtod) == Ok(Parsed(v, Lex(rest)))
            && n.token == if first then ValueString else ValueSeparator
  {
    hide Lex, Leading, Name, ParseValue, ParseKey;
    var a, b := Leading(l, indent, first), Name(k, l);
    assert a + b + t + rest == a + (b + (t + rest));
    KeyRead(k, l, t + rest);
    LeadingRead(l, indent, first, b + (t + rest));
    KeyAfterSeparator(Lex(a + (b + (t + rest))), Lex(b + (t + rest)), k, Lex(t + rest));
  }

  lemma {:induction false} MembersSplit(j: Json, l: Layout, indent: UInt32, keys: seq<string>, first: bool,
                                        tail: string)
    requires j.Obj? && keys != [] && KeysOf(j.o, keys)
    ensures var rest := Members(j, l, indent, keys[1..], false) + tail;
            Members(j, l, indent, keys, first) + tail
            == Leading(l, indent, first) + Name(keys[0], l) + Dump(j.o[keys[0]], l, indent) + rest
    ensures |keys| == 1 ==> Members(j, l, indent, keys[1..], false) + tail == tail
  {
    hide Leading, Dump, Name;
    var a, b, c := Leading(l, indent, first), Name(keys[0], l), Dump(j.o[keys[0]], l, indent);
    var d := Members(j, l, indent, keys[1..], false);
    assert a + b + c + d + tail == a + b + c + (d + tail);
    if |keys| == 1 {
      assert d == [] && [] + tail == tail;
    }
  }

  lemma {:induction false} BehindMember(j: Json, l: Layout, indent: UInt32, keys: seq<string>, outer: UInt32,
                                        post: string)
    requires j.Obj? && KeysOf(j.o, keys)
    ensures var rest := Members(j, l, indent, keys, false) + (Closing(l, outer, '}') + post);
            EndsNumber(rest) && (keys == [] ==> Lex(rest) == Lexeme(EndObject, "}", post))
  {
    var tail := Closing(l, outer, '}') + post;
    ContainerEnds(l, outer, '}', post);
    hide Lex, Leading, Closing, Dump, EndsNumber, Name, KeysOf;
    if keys != [] {
      KeyOf(j.o, keys);
      MembersSplit(j, l, indent, keys, false, tail);
      hide Members;
      FromTheLeading(l, indent, Name(keys[0], l), Dump(j.o[keys[0]], l, indent),
                     Members(j, l, indent, keys[1..], false) + tail);
    } else {
      assert Members(j, l, indent, keys, false) == [] && [] + tail == tail;
      ClosingRead(l, outer, '}', post);
    }
  }

  lemma {:induction false} KeyOf(m: map<string, Json>, keys: seq<string>)
    requires keys != [] && KeysOf(m, keys)
    ensures keys[0] in m && KeysOf(m, keys[1..])
  {
  }

  lemma {:induction false} NumbersOfMember(j: Json, k: string, show: real -> string)
    requires j.Obj? && FloatsAreNumbers(j, show) && k in j.o
    ensures FloatsAreNumbers(j.o[k], show)
  {
  }

  lemma {:induction false} MembersRead(j: Json, l: Layout, indent: UInt32, keys: seq<string>, first: bool,
                                       o: map<string, Json>, outer: UInt32, post: string, strtod: string -> real)
    requires j.Obj? && FloatsAreNumbers(j, l.show) && KeysOf(j.o, keys) && keys != []
    ensures var n := Lex(Members(j, l, indent, keys, first) + (Closing(l, outer, '}') + post));
            && ParseMembers(n, o, strtod) == Ok(Parsed(Obj(Extended(o, j, keys, l.show, strtod)), Lex(post)))
            && n.token == if first then ValueString else ValueSeparator
    decreases j, 0, |keys|
  {
    hide Lex, Leading, Closing, ParseValue, ParseKey, Reparsed, FloatsAreNumbers, Dump, Reads, EndsNumber, Name,
      Members, SkipSeparator, Size, KeysOf;
    KeyOf(j.o, keys);
    var k, more := keys[0], keys[1..];
    NumbersOfMember(j, k, l.show);
    var tail := Closing(l, outer, '}') + post;
    var rest := Members(j, l, indent, more, false) + tail;
    MembersSplit(j, l, indent, keys, first, tail);
    BehindMember(j, l, indent, more, outer, post);
    DumpRead(j.o[k], l, indent, rest, strtod);
    MemberTurn(l, indent, first, k, Dump(j.o[k], l, indent), rest, Reparsed(j.o[k], l.show, strtod), strtod);
    if more != [] {
      MembersRead(j, l, indent, more, false, o[k := Reparsed(j.o[k], l.show, strtod)], outer, post, strtod);
    }
  }

  lemma {:induction false} EmptyRead(post: string, strtod: string -> real)
    ensures Reads("[]", post, Arr([]), strtod) && Reads("{}", post, Obj(map[]), strtod)
  {
    hide Lex, ParseElements, ParseMembers;
    var a, o := [']'] + post, ['}'] + post;
    StructuralToken('[', a);
    StructuralToken(']', post);
    StructuralToken('{', o);
    StructuralToken('}', post);
    assert "[]" + post == ['['] + a;
    assert "{}" + post == ['{'] + o;
  }

  // An opening bracket and a line break, in front of the first element or member.
  lemma {:induction false} OpeningRead(bracket: char, l: Layout, inner: string, closing: string, post: string)
    requires bracket == '[' || bracket == '{'
    ensures var n := Lex([bracket] + LineBreak(l) + inner + closing + post);
            n.token == Structural(bracket) && Lex(n.rest) == Lex(inner + (closing + post))
  {
    var tail := inner + (closing + post);
    assert [bracket] + LineBreak(l) + inner + closing + post == [bracket] + (LineBreak(l) + tail);
    StructuralToken(bracket, LineBreak(l) + tail);
    BreakSkipped(l, tail);
    hide Lex, LineBreak;
  }

  lemma {:induction false} ArrayRead(j: Json, l: Layout, indent: UInt32, post: string, strtod: string -> real)
    requires j.Arr? && j.a != [] && FloatsAreNumbers(j, l.show)
    ensures Reads(Dump(j, l, indent), post, Reparsed(j, l.show, strtod), strtod)
    decreases j, 0, |j.a| + 1
  {
    hide Lex, LineBreak, Closing, Elements, Reparsed, FloatsAreNumbers, ParseElements, Deeper, EndsNumber;
    var inner := Deeper(l, indent);
    ReparsedElement(j, 0, l.show, strtod);
    var r := Reparsed(j, l.show, strtod).a;
    OpeningRead('[', l, Elements(j, l, inner, 0), Closing(l, indent, ']'), post);
    ElementsRead(j, r, l, inner, 0, indent, post, strtod);
    assert r[..0] == [];
  }

  lemma {:induction false} ObjectRead(j: Json, l: Layout, indent: UInt32, post: string, strtod: string -> real)
    requires j.Obj? && j.o != map[] && FloatsAreNumbers(j, l.show)
    ensures Reads(Dump(j, l, indent), post, Reparsed(j, l.show, strtod), strtod)
    decreases j, 0, |j.o| + 1
  {
    hide Lex, LineBreak, Closing, Members, Reparsed, FloatsAreNumbers, ParseMembers, Deeper, EndsNumber, Sorted, KeysOf,
      Extended;
    SortedKeys(j.o);
    AllMembers(j, l.show, strtod);
    var inner, keys := Deeper(l, indent), Sorted(j.o.Keys);
    SortedNotEmpty(j.o);
    OpeningRead('{', l, Members(j, l, inner, keys, true), Closing(l, indent, '}'), post);
    MembersRead(j, l, inner, keys, true, map[], indent, post, strtod);
  }

  lemma {:induction false} SortedNotEmpty(m: map<string, Json>)
    requires m != map[]
    ensures Sorted(m.Keys) != []
  {
    assert m.Keys != {};
  }

  // Dumped text is read as one value, whatever follows that cannot be part of a number.
  lemma {:induction false} DumpRead(j: Json, l: Layout, indent: UInt32, post: string, strtod: string -> real)
    requires FloatsAreNumbers(j, l.show) && EndsNumber(post)
    ensures Reads(Dump(j, l, indent), post, Reparsed(j, l.show, strtod), strtod)
    decreases j, 1, 0
  {
    hide Reads, Reparsed, FloatsAreNumbers, ScalarText, EndsNumber, Elements, Members, Closing, Sorted;
    if j == Arr([]) || j == Obj(map[]) {
      EmptyRead(post, strtod);
      EmptyReparsed(j, l.show, strtod);
    } else if j.Arr? {
      ArrayRead(j, l, indent, post, strtod);
    } else if j.Obj? {
      ObjectRead(j, l, indent, post, strtod);
    } else {
      ScalarRead(j, l, post, strtod);
    }
  }

  lemma {:induction false} EmptyReparsed(j: Json, show: real -> string, strtod: string -> real)
    requires j == Arr([]) || j == Obj(map[])
    ensures Reparsed(j, show, strtod) == j
  {
  }

  // A dump is parsed, at every indentation, if the texts of its floating-point numbers are numbers; the result equals
  // the value, up to the signedness of numbers that operator== does not see, exactly if each of them is read as it was.
  lemma {:induction false} ParseOfDump(j: Json, indent: int, show: real -> string, strtod: string -> real)
    requires FloatsAreNumbers(j, show) && indent < 0x8000_0000
    ensures Parse(DumpDocument(j, indent, show), strtod) == Ok(Reparsed(j, show, strtod))
    ensures Eq(Reparsed(j, show, strtod), j) <==> FloatsComeBack(j, show, strtod)
  {
    ReparsedEqualsIff(j, show, strtod);
    hide Dump, Reparsed, Eq, ParseValue, FloatsAreNumbers, FloatsComeBack;
    var l := if indent >= 0 then Layout(true, indent, show) else Layout(false, 0, show);
    DumpRead(j, l, 0, [], strtod);
    var t := Dump(j, l, 0);
    assert t + [] == t;
  }

  // Of two numbers that are written alike, as doubles are that differ beyond the fifteenth digit, one does not come
  // back.
  lemma {:induction false} OneTextForTwo(f: real, g: real, show: real -> string, strtod: string -> real)
    requires f != g && FloatText(f, show) == FloatText(g, show)
    ensures !FloatsComeBack(Float(f), show, strtod) || !FloatsComeBack(Float(g), show, strtod)
  {
    hide NumberOf, FloatText;
  }

  // Without floating-point numbers nothing is left open.
  lemma {:induction false} FloatFreeComesBack(j: Json, indent: int, show: real -> string, strtod: string -> real)
    requires FloatFree(j) && indent < 0x8000_0000
    ensures var r := Parse(DumpDocument(j, indent, show), strtod); r.Ok? && Eq(r.value, j)
  {
    WithoutFloats(j, show, strtod);
    ParseOfDump(j, indent, show, strtod);
    hide Parse, DumpDocument, Eq, FloatsAreNumbers, FloatsComeBack, FloatFree, Reparsed;
  }

  // ---- Texts the RFC does not allow ----

  lemma {:induction false} EndFound()
    ensures Lex([]).token == EndOfInput
  {
  }

  // A byte order mark between two tokens is passed over.
  lemma {:induction false} MarkBetweenTokens(strtod: string -> real)
    ensures Parse("[" + BYTE_ORDER_MARK + "]", strtod) == Ok(Arr([]))
  {
    hide Lex, ParseElements, ParseMembers;
    var inside := BYTE_ORDER_MARK + "]";
    assert "[" + BYTE_ORDER_MARK + "]" == ['['] + inside;
    StructuralToken('[', inside);
    MarkSkipped("]");
    StructuralToken(']', []);
    assert [']'] + [] == "]";
    EndFound();
  }

  // A raw control character from 0x10 on, and a byte that is no UTF-8, is read as it stands.
  lemma {:induction false} RawByteRead(b: char, strtod: string -> real)
    requires 0x10 <= b as int <= 0x1F || b == '\U{ff}'
    ensures Parse([QUOTE, b, QUOTE], strtod) == Ok(Str([b]))
  {
    var t := [QUOTE, b, QUOTE];
    RawByteScanned(b, []);
    assert t + [] == t && t[1..2] == [b] && [b][1..] == [];
    assert IsStringToken(t) && Unquoted([b]) == Ok([b] + []);
    assert [b] + [] == [b] && StringOf(t) == Ok([b]);
    hide StringOf, Lex, IsContent, Unquoted;
    EndFound();
  }

  lemma {:induction false} NullFound(rest: string)
    ensures Lex([NUL] + rest).token == EndOfInput
  {
  }

  // A null byte ends the text, whatever follows it.
  lemma {:induction false} NullEndsText(rest: string, strtod: string -> real)
    ensures Parse("[]" + ([NUL] + rest), strtod) == Ok(Arr([]))
  {
    hide Lex, ParseElements, ParseMembers;
    var tail := [NUL] + rest;
    assert "[]" + tail == ['['] + ([']'] + tail);
    StructuralToken('[', [']'] + tail);
    StructuralToken(']', tail);
    NullFound(rest);
  }
}
