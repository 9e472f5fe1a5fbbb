/** The parser as it runs: the last token read, and a lexer that moves on. */
module JsonReader {
  import opened JsonLexer
  import opened JsonNumber
  import opened JsonParser
  import opened JsonResult
  import opened JsonScanner
  import opened JsonText
  import opened JsonValue

  class Parser {
    const lexer: Lexer
    const strtod: string -> real
    var lastToken: Token

    // The first token is read at once.
    constructor (s: string, strtod: string -> real)
      ensures fresh(lexer) && lexer.buffer == s && this.strtod == strtod && Holds(Lex(s))
    {
      lexer := new Lexer(s);
      this.strtod := strtod;
      new;
      assert s[0..] == s;
      StringToken(s);
      lastToken := lexer.Scan();
      hide Lex, IsStringToken;
    }

    // The last token is that of `l`, and the lexer stands behind it.
    predicate Holds(l: Lexeme)
      reads this, lexer
    {
      lastToken == l.token && lexer.Found(l) && (l.token == ValueString ==> IsStringToken(l.text))
    }

    method GetToken(ghost l: Lexeme)
      requires Holds(l) && l.token != EndOfInput
      modifies this, lexer
      ensures Holds(Lex(l.rest))
    {
      StringToken(l.rest);
      hide Lex, IsStringToken;
      lastToken := lexer.Scan();
    }

    // What the grammar says comes of the token `l`.
    predicate Agrees(r: Result<Json>, spec: Result<Parsed>)
      reads this, lexer
    {
      match spec
      case Err(e) => r == Err(e)
      case Ok(p) => r == Ok(p.value) && Holds(p.next)
    }

    method ParseScalar(ghost l: Lexeme) returns (r: Result<Json>)
      requires Holds(l) && l.token != BeginObject && l.token != BeginArray
      modifies this, lexer
      ensures Agrees(r, ParseValue(l, strtod))
    {
      hide Lex, IsStringToken, Unquoted, NumberOf;
      match lastToken {
        case LiteralNull =>
          GetToken(l);
          r := Ok(Null);
        case LiteralTrue =>
          GetToken(l);
          r := Ok(Bool(true));
        case LiteralFalse =>
          GetToken(l);
          r := Ok(Bool(false));
        case ValueString =>
          var s := lexer.GetString();
          if s.Err? {
            r := Err(s.error);
          } else {
            GetToken(l);
            r := Ok(Str(s.value));
          }
        case ValueNumber =>
          var n := GetNumber(lexer.buffer[lexer.start..lexer.cursor], strtod);
          GetToken(l);
          r := Ok(n);
        case _ => r := Err(InvalidArgument);
      }
    }

    method ParseArray(ghost l: Lexeme) returns (r: Result<Json>)
      requires Holds(l) && l.token == BeginArray
      modifies this, lexer
      ensures Agrees(r, ParseValue(l, strtod))
      decreases Size(l), 0
    {
      ArrayBegins(l, strtod);
      hide Lex, ParseValue, ParseElements, Holds, SkipSeparator, Size;
      GetToken(l);
      ghost var n := Lex(l.rest);
      if lastToken == EndArray {
        GetToken(n);
        return Ok(Arr([]));
      }
      if lastToken == ValueSeparator {
        return Err(InvalidArgument);
      }
      var a: seq<Json>, more := [], true;
      ghost var last := n;
      while more
        invariant Holds(last) && Size(last) < Size(l)
        invariant ParseValue(l, strtod) ==
                    if more then ParseElements(last, a, strtod) else Closed(Arr(a), last, EndArray)
        decreases more, Size(last)
      {
        if lastToken == ValueSeparator {
          GetToken(last);
        }
        ElementsNext(last, a, strtod);
        ghost var first := SkipSeparator(last);
        var v := ParseInternal(first);
        if v.Err? {
          return v;
        }
        a := a + [v.value];
        last := ParseValue(first, strtod).value.next;
        more := lastToken == ValueSeparator;
      }
      if lastToken != EndArray {
        return Err(InvalidArgument);
      }
      GetToken(last);
      return Ok(Arr(a));
    }

    method ParseObject(ghost l: Lexeme) returns (r: Result<Json>)
      requires Holds(l) && l.token == BeginObject
      modifies this, lexer
      ensures Agrees(r, ParseValue(l, strtod))
      decreases Size(l), 0
    {
      ObjectBegins(l, strtod);
      hide Lex, ParseValue, ParseMembers, ParseKey, Holds, SkipSeparator, Size;
      GetToken(l);
      ghost var n := Lex(l.rest);
      if lastToken == EndObject {
        GetToken(n);
        return Ok(Obj(map[]));
      }
      if lastToken == ValueSeparator {
        return Err(InvalidArgument);
      }
      var o: map<string, Json>, more := map[], true;
      ghost var last := n;
      while more
        invariant Holds(last) && Size(last) < Size(l)
        invariant ParseValue(l, strtod) ==
                    if more then ParseMembers(last, o, strtod) else Closed(Obj(o), last, EndObject)
        decreases more, Size(last)
      {
        MembersNext(last, o, strtod);
        var key := ReadKey(last);
        if key.Err? {
          return Err(key.error);
        }
        ghost var first := ParseKey(last).value.1;
        var v := ParseInternal(first);
        if v.Err? {
          return v;
        }
        o := o[key.value := v.value];
        last := ParseValue(first, strtod).value.next;
        more := lastToken == ValueSeparator;
      }
      if lastToken != EndObject {
        return Err(InvalidArgument);
      }
      GetToken(last);
      return Ok(Obj(o));
    }

    // A key and the colon; the first token of the value is read.
    method ReadKey(ghost l: Lexeme) returns (r: Result<string>)
      requires Holds(l)
      modifies this, lexer
      ensures match ParseKey(l)
              case Err(e) => r == Err(e)
              case Ok((key, first)) => r == Ok(key) && Holds(first)
    {
      hide Lex, IsStringToken, Unquoted;
      if lastToken == ValueSeparator {
        GetToken(l);
      }
      ghost var k := SkipSeparator(l);
      if lastToken != ValueString {
        return Err(InvalidArgument);
      }
      r := lexer.GetString();
      if r.Err? {
        return;
      }
      GetToken(k);
      ghost var colon := Lex(k.rest);
      if lastToken != NameSeparator {
        return Err(InvalidArgument);
      }
      GetToken(colon);
    }

    method ParseInternal(ghost l: Lexeme) returns (r: Result<Json>)
      requires Holds(l)
      modifies this, lexer
      ensures Agrees(r, ParseValue(l, strtod))
      decreases Size(l), 1
    {
      hide ParseValue, Size, Agrees;
      match lastToken {
        case BeginObject => r := ParseObject(l);
        case BeginArray => r := ParseArray(l);
        case _ => r := ParseScalar(l);
      }
    }

    // parse(), of a parser that has just been made
    method ParseDocument(ghost s: string) returns (r: Result<Json>)
      requires Holds(Lex(s))
      modifies this, lexer
      ensures r == Parse(s, strtod)
    {
      hide Lex, ParseValue;
      r := ParseInternal(Lex(s));
      if r.Ok? && lastToken != EndOfInput {
        return Err(InvalidArgument);
      }
    }
  }

  // What a loop returns when no separator follows.
  function Closed(v: Json, last: Lexeme, closing: Token): Result<Parsed> {
    if last.token == closing then Ok(Parsed(v, Lex(last.rest))) else Err(InvalidArgument)
  }

  lemma {:induction false} ArrayBegins(l: Lexeme, strtod: string -> real)
    requires l.token == BeginArray
    ensures var n := Lex(l.rest);
            && Size(n) < Size(l)
            && ParseValue(l, strtod) ==
               if n.token == EndArray then Ok(Parsed(Arr([]), Lex(n.rest)))
               else if n.token == ValueSeparator then Err(InvalidArgument)
               else ParseElements(n, [], strtod)
  {
    hide Lex, ParseElements;
  }

  lemma {:induction false} ObjectBegins(l: Lexeme, strtod: string -> real)
    requires l.token == BeginObject
    ensures var n := Lex(l.rest);
            && Size(n) < Size(l)
            && ParseValue(l, strtod) ==
               if n.token == EndObject then Ok(Parsed(Obj(map[]), Lex(n.rest)))
               else if n.token == ValueSeparator then Err(InvalidArgument)
               else ParseMembers(n, map[], strtod)
  {
    hide Lex, ParseMembers;
  }

  lemma {:induction false} ElementsNext(l: Lexeme, a: seq<Json>, strtod: string -> real)
    ensures var first := SkipSeparator(l);
            && Size(first) <= Size(l)
            && (first == if l.token == ValueSeparator then Lex(l.rest) else l)
            && match ParseValue(first, strtod)
               case Err(e) => ParseElements(l, a, strtod) == Err(e)
               case Ok(p) =>
                 && Size(p.next) < Size(first)
                 && ParseElements(l, a, strtod) ==
                    if p.next.token == ValueSeparator then ParseElements(p.next, a + [p.value], strtod)
                    else Closed(Arr(a + [p.value]), p.next, EndArray)
  {
    hide Lex, ParseValue, Size;
  }

  lemma {:induction false} MembersNext(l: Lexeme, o: map<string, Json>, strtod: string -> real)
    ensures match ParseKey(l)
            case Err(e) => ParseMembers(l, o, strtod) == Err(e)
            case Ok((key, first)) =>
              && Size(first) < Size(l)
              && match ParseValue(first, strtod)
                 case Err(e) => ParseMembers(l, o, strtod) == Err(e)
                 case Ok(p) =>
                   && Size(p.next) < Size(first)
                   && ParseMembers(l, o, strtod) ==
                      if p.next.token == ValueSeparator then ParseMembers(p.next, o[key := p.value], strtod)
                      else Closed(Obj(o[key := p.value]), p.next, EndObject)
  {
    hide Lex, ParseValue, ParseKey, Size;
  }

  // A new parser run on a text.
  method ParseText(s: string, strtod: string -> real) returns (r: Result<Json>)
    ensures r == Parse(s, strtod)
  {
    var parser := new Parser(s, strtod);
    r := parser.ParseDocument(s);
  }
}
