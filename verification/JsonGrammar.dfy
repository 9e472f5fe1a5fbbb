/** The texts that parse accepts, as a grammar beside that of RFC 7159, and what each of them means. */
module JsonGrammar {
  import opened JsonLexer
  import opened JsonNumber
  import opened JsonParser
  import opened JsonResult
  import opened JsonText
  import opened JsonValue

  // A value as it is written.
  datatype Syntax =
    | Word(word: string)
    | Number(digits: string)
    | Text(content: string)
    | EmptyArray(gap: string)
    | Array(items: Items)
    | EmptyObject(gap: string)
    | Object(members: Members)

  // The elements of an array, each between two gaps, up to the closing bracket.
  datatype Items =
    | LastItem(before: string, value: Syntax, after: string)
    | MoreItems(before: string, value: Syntax, after: string, more: Items)

  // The members of an object likewise, each with its name in front.
  datatype Members =
    | LastMember(key: Key, before: string, value: Syntax, after: string)
    | MoreMembers(key: Key, before: string, value: Syntax, after: string, others: Members)

  // A name between two gaps.
  datatype Key = Key(before: string, content: string, after: string)

  function Quote(content: string): string {
    [QUOTE] + content + [QUOTE]
  }

  function Written(t: Syntax): string {
    match t
    case Word(word) => word
    case Number(digits) => digits
    case Text(content) => Quote(content)
    case EmptyArray(gap) => ['['] + gap + [']']
    case Array(items) => ['['] + ItemsWritten(items)
    case EmptyObject(gap) => ['{'] + gap + ['}']
    case Object(members) => ['{'] + MembersWritten(members)
  }

  function ItemsWritten(i: Items): string {
    match i
    case LastItem(before, value, after) => before + Written(value) + after + [']']
    case MoreItems(before, value, after, more) => before + Written(value) + after + [','] + ItemsWritten(more)
  }

  function KeyWritten(l: Key): string {
    l.before + Quote(l.content) + l.after + [':']
  }

  function MembersWritten(m: Members): string {
    match m
    case LastMember(key, before, value, after) => KeyWritten(key) + before + Written(value) + after + ['}']
    case MoreMembers(key, before, value, after, others) =>
      KeyWritten(key) + before + Written(value) + after + [','] + MembersWritten(others)
  }

  predicate IsWord(word: string) {
    word == "true" || word == "false" || word == "null"
  }

  // Every gap and every content of a string or a name is of the given kind.
  ghost predicate Shaped(t: Syntax, gap: string -> bool, content: string -> bool) {
    match t
    case Word(word) => IsWord(word)
    case Number(digits) => IsNumber(digits)
    case Text(c) => content(c)
    case EmptyArray(g) => gap(g)
    case Array(items) => ItemsShaped(items, gap, content)
    case EmptyObject(g) => gap(g)
    case Object(members) => MembersShaped(members, gap, content)
  }

  ghost predicate ItemsShaped(i: Items, gap: string -> bool, content: string -> bool) {
    && gap(i.before) && Shaped(i.value, gap, content) && gap(i.after)
    && (i.MoreItems? ==> ItemsShaped(i.more, gap, content))
  }

  ghost predicate MembersShaped(m: Members, gap: string -> bool, content: string -> bool) {
    && gap(m.key.before) && content(m.key.content) && gap(m.key.after)
    && gap(m.before) && Shaped(m.value, gap, content) && gap(m.after)
    && (m.MoreMembers? ==> MembersShaped(m.others, gap, content))
  }

  ghost predicate Valid(t: Syntax) {
    Shaped(t, IsGap, IsContent)
  }

  ghost predicate ItemsValid(i: Items) {
    ItemsShaped(i, IsGap, IsContent)
  }

  ghost predicate MembersValid(m: Members) {
    MembersShaped(m, IsGap, IsContent)
  }

  // ---- What a text means ----

  function WordValue(word: string): Json {
    if word == "null" then Null else Bool(word == "true")
  }

  function ValueOf(t: Syntax, strtod: string -> real): Result<Json>
    requires Valid(t)
  {
    match t
    case Word(word) => Ok(WordValue(word))
    case Number(digits) => Ok(NumberOf(digits, strtod))
    case Text(c) => (match Unquoted(c) case Ok(s) => Ok(Str(s)) case Err(e) => Err(e))
    case EmptyArray(_) => Ok(Arr([]))
    case Array(items) => (match ElementsOf(items, strtod) case Ok(a) => Ok(Arr(a)) case Err(e) => Err(e))
    case EmptyObject(_) => Ok(Obj(map[]))
    case Object(members) => (match MembersOf(members, strtod) case Ok(o) => Ok(Obj(o)) case Err(e) => Err(e))
  }

  function ElementsOf(i: Items, strtod: string -> real): Result<seq<Json>>
    requires ItemsValid(i)
  {
    match ValueOf(i.value, strtod)
    case Err(e) => Err(e)
    case Ok(v) =>
      if i.LastItem? then Ok([v])
      else match ElementsOf(i.more, strtod) case Ok(a) => Ok([v] + a) case Err(e) => Err(e)
  }

  // Of two members with one name the later is kept.
  function MembersOf(m: Members, strtod: string -> real): Result<map<string, Json>>
    requires MembersValid(m)
  {
    match Unquoted(m.key.content)
    case Err(e) => Err(e)
    case Ok(k) =>
      match ValueOf(m.value, strtod)
      case Err(e) => Err(e)
      case Ok(v) =>
        if m.LastMember? then Ok(map[k := v])
        else match MembersOf(m.others, strtod) case Ok(o) => Ok(map[k := v] + o) case Err(e) => Err(e)
  }

  // ---- From the grammar to the parser ----

  predicate Begins(token: Token) {
    token in {BeginObject, BeginArray, LiteralTrue, LiteralFalse, LiteralNull, ValueString, ValueNumber}
  }

  function Outcome(r: Result<Json>, post: string): Result<Parsed> {
    match r
    case Ok(v) => Ok(Parsed(v, Lex(post)))
    case Err(e) => Err(e)
  }

  lemma {:induction false} GapEnds(g: string, rest: string)
    requires IsGap(g) && EndsNumber(rest)
    ensures EndsNumber(g + rest)
  {
    if g == [] {
      assert g + rest == rest;
    } else {
      assert (g + rest)[0] == g[0] && (IsBlank(g[0]) || g[..3][0] == '\U{ef}');
    }
  }

  lemma {:induction false} WrittenWord(word: string, post: string, strtod: string -> real)
    requires IsWord(word)
    ensures Reads(word, post, WordValue(word), strtod) && Begins(Lex(word + post).token)
  {
    LiteralRead(word, post, strtod);
    LiteralToken(word, post);
    hide Lex, Reads;
  }

  lemma {:induction false} WrittenNumber(digits: string, post: string, strtod: string -> real)
    requires IsNumber(digits) && EndsNumber(post)
    ensures Reads(digits, post, NumberOf(digits, strtod), strtod) && Begins(Lex(digits + post).token)
  {
    NumberToken(digits, post);
    hide Lex, NumberOf, EndsNumber, IsNumber;
  }

  lemma {:induction false} StringOfQuote(c: string)
    requires IsContent(c)
    ensures StringOf(Quote(c)) == Unquoted(c)
  {
    var t := Quote(c);
    assert t[1..|t| - 1] == c;
    hide IsContent, Unquoted;
  }

  lemma {:induction false} WrittenText(c: string, post: string, strtod: string -> real)
    requires IsContent(c)
    ensures ParseValue(Lex(Quote(c) + post), strtod) == Outcome(ValueOf(Text(c), strtod), post)
    ensures Begins(Lex(Quote(c) + post).token)
  {
    QuotedIsOneToken(c, post);
    StringOfQuote(c);
    hide Lex, StringOf, IsContent, Unquoted;
  }

  // A gap and the first token behind it.
  lemma {:induction false} GapAndToken(g: string, c: char, rest: string)
    requires IsGap(g) && Structural(c) != ParseError
    ensures Lex(g + [c] + rest) == Lexeme(Structural(c), [c], rest)
  {
    hide Lex, IsGap, Structural;
    assert g + [c] + rest == g + ([c] + rest);
    GapSkipped(g, [c] + rest);
    StructuralToken(c, rest);
  }

  lemma {:induction false} WrittenEmpty(open: char, gap: string, close: char, post: string, strtod: string -> real)
    requires IsGap(gap) && ((open == '[' && close == ']') || (open == '{' && close == '}'))
    ensures Reads([open] + gap + [close], post, if open == '[' then Arr([]) else Obj(map[]), strtod)
    ensures Lex([open] + gap + [close] + post).token == Structural(open)
  {
    var inner := gap + [close] + post;
    assert [open] + gap + [close] + post == [open] + inner;
    StructuralToken(open, inner);
    GapAndToken(gap, close, post);
    hide Lex, IsGap, ParseElements, ParseMembers;
  }

  // A value between two gaps, up to the character behind it.
  lemma {:induction false} WrittenItem(before: string, t: string, after: string, c: char, rest: string,
                                       r: Result<Json>, strtod: string -> real)
    requires IsGap(before) && IsGap(after) && Structural(c) != ParseError
    requires var post := after + [c] + rest;
             && ParseValue(Lex(t + post), strtod) == Outcome(r, post) && Begins(Lex(t + post).token)
    ensures var l := Lex(before + t + after + [c] + rest);
            && Begins(l.token)
            && ParseValue(l, strtod) ==
                 match r
                 case Ok(v) => Ok(Parsed(v, Lexeme(Structural(c), [c], rest)))
                 case Err(e) => Err(e)
  {
    hide Lex, IsGap, ParseValue, Structural;
    var post := after + [c] + rest;
    assert before + t + after + [c] + rest == before + (t + post);
    GapSkipped(before, t + post);
    GapAndToken(after, c, rest);
  }

  lemma {:induction false} ItemEnds(after: string, c: char, rest: string)
    requires IsGap(after) && Structural(c) != ParseError
    ensures EndsNumber(after + [c] + rest)
  {
    hide IsGap;
    assert after + [c] + rest == after + ([c] + rest);
    GapEnds(after, [c] + rest);
  }

  function Appended(a: seq<Json>, r: Result<seq<Json>>, post: string): Result<Parsed> {
    match r
    case Ok(x) => Ok(Parsed(Arr(a + x), Lex(post)))
    case Err(e) => Err(e)
  }

  lemma {:induction false} WrittenItems(i: Items, n: Lexeme, a: seq<Json>, post: string, strtod: string -> real)
    requires ItemsValid(i) && SkipSeparator(n) == Lex(ItemsWritten(i) + post)
    ensures Begins(SkipSeparator(n).token)
    ensures ParseElements(n, a, strtod) == Appended(a, ElementsOf(i, strtod), post)
    decreases i, 0
  {
    hide Lex, IsGap, ParseValue, EndsNumber, Written, ItemsWritten, ValueOf, Begins, SkipSeparator;
    var v := ValueOf(i.value, strtod);
    if i.LastItem? {
      ItemEnds(i.after, ']', post);
      WrittenValue(i.value, i.after + [']'] + post, strtod);
      WrittenItem(i.before, Written(i.value), i.after, ']', post, v, strtod);
      LastWritten(i);
    } else {
      var rest := ItemsWritten(i.more) + post;
      ItemEnds(i.after, ',', rest);
      WrittenValue(i.value, i.after + [','] + rest, strtod);
      WrittenItem(i.before, Written(i.value), i.after, ',', rest, v, strtod);
      MoreWritten(i, post);
      if v.Ok? {
        var next := Lexeme(ValueSeparator, [','], rest);
        SeparatorSkipped(next);
        WrittenItems(i.more, next, a + [v.value], post, strtod);
        OneMore(a, v.value, ElementsOf(i.more, strtod), post);
      }
    }
  }

  lemma {:induction false} SeparatorSkipped(n: Lexeme)
    requires n.token == ValueSeparator
    ensures SkipSeparator(n) == Lex(n.rest)
  {
  }

  lemma {:induction false} OneMore(a: seq<Json>, v: Json, r: Result<seq<Json>>, post: string)
    ensures r.Ok? ==> Appended(a + [v], r, post) == Appended(a, Ok([v] + r.value), post)
  {
    if r.Ok? {
      assert a + [v] + r.value == a + ([v] + r.value);
    }
  }

  lemma {:induction false} LastWritten(i: Items)
    requires i.LastItem?
    ensures ItemsWritten(i) == i.before + Written(i.value) + i.after + [']']
  {
  }

  lemma {:induction false} MoreWritten(i: Items, post: string)
    requires i.MoreItems?
    ensures ItemsWritten(i) + post == i.before + Written(i.value) + i.after + [','] + (ItemsWritten(i.more) + post)
  {
    hide Written;
    assert ItemsWritten(i) == i.before + Written(i.value) + i.after + [','] + ItemsWritten(i.more);
  }

  lemma {:induction false} KeyParts(k: Key, rest: string)
    ensures KeyWritten(k) + rest == k.before + (Quote(k.content) + (k.after + [':'] + rest))
  {
    hide Quote;
  }

  lemma {:induction false} KeyTokens(n: Lexeme, l: Lexeme, c: string, rest: string)
    requires IsContent(c) && SkipSeparator(n) == l && l.token == ValueString && l.text == Quote(c)
    requires Lex(l.rest) == Lexeme(NameSeparator, [':'], rest)
    ensures ParseKey(n) ==
              match Unquoted(c)
              case Ok(s) => Ok((s, Lex(rest)))
              case Err(e) => Err(e)
  {
    StringOfQuote(c);
    hide Lex, IsContent, StringOf, Unquoted, SkipSeparator, Quote;
  }

  lemma {:induction false} WrittenKey(k: Key, n: Lexeme, rest: string)
    requires IsGap(k.before) && IsContent(k.content) && IsGap(k.after)
    requires SkipSeparator(n) == Lex(KeyWritten(k) + rest)
    ensures SkipSeparator(n).token == ValueString
    ensures ParseKey(n) ==
              match Unquoted(k.content)
              case Ok(s) => Ok((s, Lex(rest)))
              case Err(e) => Err(e)
  {
    hide Lex, IsGap, IsContent, Unquoted, SkipSeparator, KeyWritten, ParseKey;
    var q, behind := Quote(k.content), k.after + [':'] + rest;
    KeyParts(k, rest);
    GapSkipped(k.before, q + behind);
    QuotedIsOneToken(k.content, behind);
    GapAndToken(k.after, ':', rest);
    hide Quote;
    KeyTokens(n, SkipSeparator(n), k.content, rest);
  }

  // The object has `o` already; of two members with one name the later is kept.
  function Joining(o: map<string, Json>, r: Result<map<string, Json>>, post: string): Result<Parsed> {
    match r
    case Ok(x) => Ok(Parsed(Obj(o + x), Lex(post)))
    case Err(e) => Err(e)
  }

  lemma {:induction false} MemberTurn(n: Lexeme, o: map<string, Json>, k: string, first: Lexeme, p: Result<Parsed>,
                                      strtod: string -> real)
    requires ParseKey(n) == Ok((k, first)) && ParseValue(first, strtod) == p
    ensures ParseMembers(n, o, strtod) ==
              match p
              case Err(e) => Err(e)
              case Ok(q) =>
                if q.next.token == ValueSeparator then ParseMembers(q.next, o[k := q.value], strtod)
                else if q.next.token == EndObject then Ok(Parsed(Obj(o[k := q.value]), Lex(q.next.rest)))
                else Err(InvalidArgument)
  {
    hide Lex, ParseValue, ParseKey;
  }

  lemma {:induction false} MemberFails(n: Lexeme, o: map<string, Json>, strtod: string -> real)
    requires ParseKey(n).Err?
    ensures ParseMembers(n, o, strtod) == Err(ParseKey(n).error)
  {
    hide Lex, ParseValue, ParseKey;
  }

  // What stands behind the name of a member.
  function MemberWritten(m: Members, rest: string): string {
    m.before + Written(m.value) + m.after + [if m.LastMember? then '}' else ','] + rest
  }

  lemma {:induction false} MemberParts(m: Members, post: string)
    ensures var rest := if m.LastMember? then post else MembersWritten(m.others) + post;
            MembersWritten(m) + post == KeyWritten(m.key) + MemberWritten(m, rest)
  {
    hide Written, KeyWritten;
    var k, v := KeyWritten(m.key), m.before + Written(m.value) + m.after;
    if m.LastMember? {
      assert MembersWritten(m) == k + m.before + Written(m.value) + m.after + ['}'];
      assert MembersWritten(m) + post == k + (v + ['}'] + post);
    } else {
      var more := MembersWritten(m.others);
      assert MembersWritten(m) == k + m.before + Written(m.value) + m.after + [','] + more;
      assert MembersWritten(m) + post == k + (v + [','] + (more + post));
    }
  }

  lemma {:induction false} OneMember(o: map<string, Json>, k: string, v: Json, r: Result<map<string, Json>>,
                                     post: string)
    ensures o[k := v] == o + map[k := v]
    ensures r.Ok? ==> Joining(o[k := v], r, post) == Joining(o, Ok(map[k := v] + r.value), post)
  {
    if r.Ok? {
      assert o[k := v] + r.value == o + (map[k := v] + r.value);
    }
  }

  lemma {:induction false} WrittenMembers(m: Members, n: Lexeme, o: map<string, Json>, post: string,
                                          strtod: string -> real)
    requires MembersValid(m) && SkipSeparator(n) == Lex(MembersWritten(m) + post)
    ensures SkipSeparator(n).token == ValueString
    ensures ParseMembers(n, o, strtod) == Joining(o, MembersOf(m, strtod), post)
    decreases m, 0
  {
    hide Lex, IsGap, IsContent, ParseValue, ParseKey, EndsNumber, Written, MembersWritten, MemberWritten, ValueOf,
      SkipSeparator, KeyWritten, Unquoted;
    var v, k := ValueOf(m.value, strtod), Unquoted(m.key.content);
    var rest := if m.LastMember? then post else MembersWritten(m.others) + post;
    MemberParts(m, post);
    WrittenKey(m.key, n, MemberWritten(m, rest));
    if k.Err? {
      MemberFails(n, o, strtod);
    } else {
      var c := if m.LastMember? then '}' else ',';
      var first := Lex(MemberWritten(m, rest));
      ItemEnds(m.after, c, rest);
      WrittenValue(m.value, m.after + [c] + rest, strtod);
      WrittenItem(m.before, Written(m.value), m.after, c, rest, v, strtod);
      MemberText(m, rest);
      MemberTurn(n, o, k.value, first, ParseValue(first, strtod), strtod);
      if v.Ok? {
        OneMember(o, k.value, v.value, Err(InvalidArgument), post);
        if m.MoreMembers? {
          var next := Lexeme(ValueSeparator, [','], rest);
          SeparatorSkipped(next);
          WrittenMembers(m.others, next, o[k.value := v.value], post, strtod);
          OneMember(o, k.value, v.value, MembersOf(m.others, strtod), post);
        }
      }
    }
  }

  lemma {:induction false} MemberText(m: Members, rest: string)
    ensures var c := if m.LastMember? then '}' else ',';
            MemberWritten(m, rest) == m.before + Written(m.value) + m.after + [c] + rest
  {
  }

  lemma {:induction false} WrittenArray(i: Items, post: string, strtod: string -> real)
    requires ItemsValid(i)
    ensures ParseValue(Lex(Written(Array(i)) + post), strtod) == Outcome(ValueOf(Array(i), strtod), post)
    ensures Lex(Written(Array(i)) + post).token == BeginArray
    decreases i, 1
  {
    hide Lex, ItemsWritten, ElementsOf, ParseElements, ItemsShaped;
    var inner := ItemsWritten(i) + post;
    assert Written(Array(i)) + post == ['['] + inner;
    StructuralToken('[', inner);
    var n := Lex(inner);
    WrittenItems(i, Lexeme(ValueSeparator, [], inner), [], post, strtod);
    assert n.token != EndArray && n.token != ValueSeparator;
    WrittenItems(i, n, [], post, strtod);
    if ElementsOf(i, strtod).Ok? {
      assert [] + ElementsOf(i, strtod).value == ElementsOf(i, strtod).value;
    }
  }

  lemma {:induction false} WrittenObject(m: Members, post: string, strtod: string -> real)
    requires MembersValid(m)
    ensures ParseValue(Lex(Written(Object(m)) + post), strtod) == Outcome(ValueOf(Object(m), strtod), post)
    ensures Lex(Written(Object(m)) + post).token == BeginObject
    decreases m, 1
  {
    hide Lex, MembersWritten, MembersOf, ParseMembers, MembersShaped;
    var inner := MembersWritten(m) + post;
    assert Written(Object(m)) + post == ['{'] + inner;
    StructuralToken('{', inner);
    var n := Lex(inner);
    WrittenMembers(m, Lexeme(ValueSeparator, [], inner), map[], post, strtod);
    assert n.token != EndObject && n.token != ValueSeparator;
    WrittenMembers(m, n, map[], post, strtod);
    if MembersOf(m, strtod).Ok? {
      assert map[] + MembersOf(m, strtod).value == MembersOf(m, strtod).value;
    }
  }

  // A written value, in front of anything that ends a number, is parsed as what it means, with the same error.
  lemma {:induction false} WrittenValue(t: Syntax, post: string, strtod: string -> real)
    requires Valid(t) && EndsNumber(post)
    ensures ParseValue(Lex(Written(t) + post), strtod) == Outcome(ValueOf(t, strtod), post)
    ensures Begins(Lex(Written(t) + post).token)
    decreases t, 2
  {
    hide Lex, ParseValue, EndsNumber, NumberOf, Unquoted, IsContent, IsGap, ElementsOf, MembersOf, ItemsWritten,
      MembersWritten, ItemsShaped, MembersShaped;
    match t
    case Word(word) => WrittenWord(word, post, strtod);
    case Number(digits) => WrittenNumber(digits, post, strtod);
    case Text(c) => WrittenText(c, post, strtod);
    case EmptyArray(gap) => WrittenEmpty('[', gap, ']', post, strtod);
    case Array(items) => WrittenArray(items, post, strtod);
    case EmptyObject(gap) => WrittenEmpty('{', gap, '}', post, strtod);
    case Object(members) => WrittenObject(members, post, strtod);
  }

  // ---- From the parser to the grammar ----

  // The text of a token is one of those the grammar has for it.
  ghost predicate Fits(l: Lexeme) {
    match l.token
    case LiteralTrue => l.text == "true"
    case LiteralFalse => l.text == "false"
    case LiteralNull => l.text == "null"
    case ValueString => IsStringToken(l.text)
    case ValueNumber => IsNumber(l.text)
    case EndOfInput => (l.text == [] && l.rest == []) || l.text == [NUL]
    case ParseError => true
    case _ => |l.text| == 1 && Structural(l.text[0]) == l.token
  }

  lemma {:induction false} NumberFits(s: string)
    requires s != []
    ensures Fits(LexNumber(s))
  {
    hide NumberLength;
    if NumberLength(s) > 0 {
      var n := NumberIs(s);
    }
  }

  lemma {:induction false} StringFits(s: string)
    requires s != [] && s[0] == QUOTE
    ensures Fits(LexString(s))
  {
    if LexString(s).token == ValueString {
      LexStringToken(s);
    }
    hide ContentLength, IsStringToken;
  }

  lemma {:induction false} TokenFits(s: string)
    ensures Fits(Lex(s))
    decreases |s|
  {
    hide LexString, LexNumber, IsStringToken, IsNumber;
    if s != [] {
      if s[0] != NUL && IsBlank(s[0]) {
        TokenFits(s[1..]);
      } else if s[0] == QUOTE {
        StringFits(s);
        hide Fits;
      } else if s[0] == '-' || ('0' <= s[0] <= '9') {
        NumberFits(s);
        hide Fits;
      } else if s[0] == '\U{ef}' && StartsWith(s, BYTE_ORDER_MARK) {
        TokenFits(s[3..]);
      }
    }
  }

  // The gap in front of the next token.
  lemma {:induction false} NextToken(s: string) returns (g: string)
    ensures IsGap(g) && s == g + Lex(s).text + Lex(s).rest && Fits(Lex(s))
  {
    SkipsGap(s);
    TokenFits(s);
    hide Lex, IsGap, Fits;
    g :| Passed(s, g);
  }

  lemma {:induction false} NextCharacter(s: string, c: char) returns (g: string)
    requires Structural(c) != ParseError && Lex(s).token == Structural(c)
    ensures IsGap(g) && s == g + [c] + Lex(s).rest
  {
    g := NextToken(s);
    hide Lex, IsGap;
    var t := Lex(s).text;
    assert |t| == 1 && t[0] == c && t == [c];
  }

  lemma {:induction false} StringTokenIs(t: string) returns (c: string)
    requires IsStringToken(t)
    ensures IsContent(c) && t == Quote(c) && StringOf(t) == Unquoted(c)
  {
    hide IsContent, Unquoted;
    c := t[1..|t| - 1];
    assert t == Quote(c);
  }

  lemma {:induction false} ItemJoined(r: string, g: string, t: string, h: string, c: char, u: string, w: string)
    requires r == g + t + w && w == h + [c] + u
    ensures r == g + t + h + [c] + u && |u| < |r|
  {
  }

  lemma {:induction false} FoundItems(r: string, n: Lexeme, a: seq<Json>, strtod: string -> real)
    returns (i: Items, u: string)
    requires SkipSeparator(n) == Lex(r) && ParseElements(n, a, strtod).Ok?
    ensures ItemsValid(i) && r == ItemsWritten(i) + u
    ensures ElementsOf(i, strtod).Ok? && ParseElements(n, a, strtod) == Appended(a, ElementsOf(i, strtod), u)
    decreases |r|, 2
  {
    hide Lex, IsGap, ParseValue, ParseElements, Written, ItemsWritten, ValueOf, SkipSeparator;
    var l := Lex(r);
    assert ParseValue(l, strtod).Ok? by {
      ElementNeeded(n, a, strtod);
    }
    var p := ParseValue(l, strtod).value;
    ParseTurn(n, a, p, strtod);
    var g, t, w := FoundValue(r, strtod);
    if p.next.token == EndArray {
      var h := NextCharacter(w, ']');
      u := Lex(w).rest;
      i := LastItem(g, t, h);
      ItemJoined(r, g, Written(t), h, ']', u, w);
      LastWritten(i);
    } else {
      var h := NextCharacter(w, ',');
      var rest := Lex(w).rest;
      ItemJoined(r, g, Written(t), h, ',', rest, w);
      SeparatorSkipped(p.next);
      var more, v := FoundItems(rest, p.next, a + [p.value], strtod);
      u := v;
      i := MoreItems(g, t, h, more);
      MoreWritten(i, u);
      OneMore(a, p.value, ElementsOf(more, strtod), u);
    }
  }

  lemma {:induction false} ElementNeeded(n: Lexeme, a: seq<Json>, strtod: string -> real)
    requires ParseElements(n, a, strtod).Ok?
    ensures ParseValue(SkipSeparator(n), strtod).Ok?
  {
    hide Lex, SkipSeparator, ParseValue;
  }

  lemma {:induction false} FoundKey(r: string, n: Lexeme) returns (k: Key, w: string)
    requires SkipSeparator(n) == Lex(r) && ParseKey(n).Ok?
    ensures IsGap(k.before) && IsContent(k.content) && IsGap(k.after) && r == KeyWritten(k) + w
    ensures Unquoted(k.content).Ok? && ParseKey(n) == Ok((Unquoted(k.content).value, Lex(w)))
    ensures |w| < |r|
  {
    hide Lex, IsGap, IsContent, Unquoted, SkipSeparator, StringOf, IsStringToken;
    var l := Lex(r);
    var g := NextToken(r);
    var c := StringTokenIs(l.text);
    var h := NextCharacter(l.rest, ':');
    w := Lex(l.rest).rest;
    k := Key(g, c, h);
    hide *;
    KeyParts(k, w);
    assert r == g + (Quote(c) + (h + [':'] + w));
  }

  lemma {:induction false} FoundMembers(r: string, n: Lexeme, o: map<string, Json>, strtod: string -> real)
    returns (m: Members, u: string)
    requires SkipSeparator(n) == Lex(r) && ParseMembers(n, o, strtod).Ok?
    ensures MembersValid(m) && r == MembersWritten(m) + u
    ensures MembersOf(m, strtod).Ok? && ParseMembers(n, o, strtod) == Joining(o, MembersOf(m, strtod), u)
    decreases |r|, 2
  {
    hide Lex, IsGap, IsContent, ParseValue, ParseKey, Written, MembersWritten, MemberWritten, ValueOf, SkipSeparator,
      KeyWritten, Unquoted, ParseMembers;
    MemberNeeded(n, o, strtod);
    var k, w := FoundKey(r, n);
    var s := Unquoted(k.content).value;
    var p := ParseValue(Lex(w), strtod).value;
    MemberTurn(n, o, s, Lex(w), Ok(p), strtod);
    var g, t, x := FoundValue(w, strtod);
    OneMember(o, s, p.value, Err(InvalidArgument), []);
    if p.next.token == EndObject {
      var h := NextCharacter(x, '}');
      u := Lex(x).rest;
      m := LastMember(k, g, t, h);
      ItemJoined(w, g, Written(t), h, '}', u, x);
      MemberText(m, u);
      MemberParts(m, u);
    } else {
      var h := NextCharacter(x, ',');
      var rest := Lex(x).rest;
      ItemJoined(w, g, Written(t), h, ',', rest, x);
      SeparatorSkipped(p.next);
      var others, v := FoundMembers(rest, p.next, o[s := p.value], strtod);
      u := v;
      m := MoreMembers(k, g, t, h, others);
      MemberText(m, rest);
      MemberParts(m, u);
      OneMember(o, s, p.value, MembersOf(others, strtod), u);
    }
  }

  lemma {:induction false} MemberNeeded(n: Lexeme, o: map<string, Json>, strtod: string -> real)
    requires ParseMembers(n, o, strtod).Ok?
    ensures ParseKey(n).Ok? && ParseValue(ParseKey(n).value.1, strtod).Ok?
    ensures var p := ParseValue(ParseKey(n).value.1, strtod).value;
            p.next.token == ValueSeparator || p.next.token == EndObject
  {
    hide Lex, ParseKey, ParseValue;
  }

  lemma {:induction false} FoundArray(s: string, strtod: string -> real) returns (g: string, t: Syntax, u: string)
    requires Lex(s).token == BeginArray && ParseValue(Lex(s), strtod).Ok?
    ensures IsGap(g) && Valid(t) && s == g + Written(t) + u
    ensures ValueOf(t, strtod).Ok? && ParseValue(Lex(s), strtod) == Outcome(ValueOf(t, strtod), u)
    decreases |s|, 0
  {
    hide Lex, IsGap, ParseElements, ItemsWritten, ItemsShaped, ElementsOf;
    g := NextCharacter(s, '[');
    var r := Lex(s).rest;
    var n := Lex(r);
    if n.token == EndArray {
      var h := NextCharacter(r, ']');
      t, u := EmptyArray(h), n.rest;
      assert s == g + (['['] + h + [']']) + u;
    } else {
      var i, v := FoundItems(r, n, [], strtod);
      t, u := Array(i), v;
      assert s == g + (['['] + ItemsWritten(i)) + u;
      assert [] + ElementsOf(i, strtod).value == ElementsOf(i, strtod).value;
    }
  }

  lemma {:induction false} FoundObject(s: string, strtod: string -> real) returns (g: string, t: Syntax, u: string)
    requires Lex(s).token == BeginObject && ParseValue(Lex(s), strtod).Ok?
    ensures IsGap(g) && Valid(t) && s == g + Written(t) + u
    ensures ValueOf(t, strtod).Ok? && ParseValue(Lex(s), strtod) == Outcome(ValueOf(t, strtod), u)
    decreases |s|, 0
  {
    hide Lex, IsGap, ParseMembers, MembersWritten, MembersShaped, MembersOf;
    g := NextCharacter(s, '{');
    var r := Lex(s).rest;
    var n := Lex(r);
    if n.token == EndObject {
      var h := NextCharacter(r, '}');
      t, u := EmptyObject(h), n.rest;
      assert s == g + (['{'] + h + ['}']) + u;
    } else {
      var m, v := FoundMembers(r, n, map[], strtod);
      t, u := Object(m), v;
      assert s == g + (['{'] + MembersWritten(m)) + u;
      assert map[] + MembersOf(m, strtod).value == MembersOf(m, strtod).value;
    }
  }

  lemma {:induction false} FoundScalar(s: string, strtod: string -> real) returns (g: string, t: Syntax, u: string)
    requires Lex(s).token != BeginArray && Lex(s).token != BeginObject && ParseValue(Lex(s), strtod).Ok?
    ensures IsGap(g) && Valid(t) && s == g + Written(t) + u
    ensures ValueOf(t, strtod).Ok? && ParseValue(Lex(s), strtod) == Outcome(ValueOf(t, strtod), u)
  {
    hide Lex, IsGap, NumberOf, StringOf, Unquoted, IsContent, IsStringToken;
    var l := Lex(s);
    g := NextToken(s);
    u := l.rest;
    match l.token
    case ValueString =>
      var c := StringTokenIs(l.text);
      t := Text(c);
    case ValueNumber => t := Number(l.text);
    case _ => t := Word(l.text);
  }

  // A value that is parsed is one of the grammar between a gap and what is left, and means what is read.
  lemma {:induction false} FoundValue(s: string, strtod: string -> real) returns (g: string, t: Syntax, u: string)
    requires ParseValue(Lex(s), strtod).Ok?
    ensures IsGap(g) && Valid(t) && s == g + Written(t) + u
    ensures ValueOf(t, strtod).Ok? && ParseValue(Lex(s), strtod) == Outcome(ValueOf(t, strtod), u)
    decreases |s|, 1
  {
    hide *;
    if Lex(s).token == BeginArray {
      g, t, u := FoundArray(s, strtod);
    } else if Lex(s).token == BeginObject {
      g, t, u := FoundObject(s, strtod);
    } else {
      g, t, u := FoundScalar(s, strtod);
    }
  }

  // ---- One reading ----

  // The first token of a written value; for containers, what is left is behind the bracket.
  lemma {:induction false} FirstOf(t: Syntax, post: string)
    requires Valid(t) && EndsNumber(post)
    ensures var l := Lex(Written(t) + post);
            match t
            case Word(word) => l.token in {LiteralTrue, LiteralFalse, LiteralNull} && l.text == word && l.rest == post
            case Number(digits) => l == Lexeme(ValueNumber, digits, post)
            case Text(c) => l == Lexeme(ValueString, Quote(c), post)
            case EmptyArray(gap) => l == Lexeme(BeginArray, ['['], gap + [']'] + post)
            case Array(items) => l == Lexeme(BeginArray, ['['], ItemsWritten(items) + post)
            case EmptyObject(gap) => l == Lexeme(BeginObject, ['{'], gap + ['}'] + post)
            case Object(members) => l == Lexeme(BeginObject, ['{'], MembersWritten(members) + post)
    ensures Written(t) + post == Lex(Written(t) + post).text + Lex(Written(t) + post).rest
  {
    hide Lex, EndsNumber, IsNumber, IsContent, IsGap, ItemsWritten, MembersWritten, ItemsShaped, MembersShaped;
    match t
    case Word(word) => LiteralToken(word, post);
    case Number(digits) => NumberToken(digits, post);
    case Text(c) => QuotedIsOneToken(c, post);
    case EmptyArray(gap) =>
      assert Written(t) == ['['] + (gap + [']']);
      Opened('[', gap + [']'], post);
    case Array(items) => Opened('[', ItemsWritten(items), post);
    case EmptyObject(gap) =>
      assert Written(t) == ['{'] + (gap + ['}']);
      Opened('{', gap + ['}'], post);
    case Object(members) => Opened('{', MembersWritten(members), post);
  }

  lemma {:induction false} Opened(open: char, inner: string, post: string)
    requires Structural(open) != ParseError
    ensures Lex([open] + inner + post) == Lexeme(Structural(open), [open], inner + post)
    ensures [open] + inner + post == [open] + (inner + post)
  {
    hide Lex;
    assert [open] + inner + post == [open] + (inner + post);
    StructuralToken(open, inner + post);
  }

  lemma {:induction false} OneFront(g: string, x: string, h: string, y: string)
    requires g + x == h + y && x == y
    ensures g == h
  {
    assert |g + x| == |h + y|;
    assert g == (g + x)[..|g|] && h == (h + y)[..|g|];
  }

  lemma {:induction false} OneGap(g: string, c: char, x: string, h: string, d: char, y: string)
    requires IsGap(g) && IsGap(h) && Structural(c) != ParseError && Structural(d) != ParseError
    requires g + [c] + x == h + [d] + y
    ensures g == h && c == d && x == y
  {
    GapAndToken(g, c, x);
    GapAndToken(h, d, y);
    hide Lex, IsGap, Structural;
    assert [c][0] == [d][0];
    OneFront(g + [c], x, h + [d], y);
    OneFront(g, [c], h, [d]);
  }

  // The first token of a written value, behind a gap.
  lemma {:induction false} FirstBehind(g: string, t: Syntax, post: string)
    requires IsGap(g) && Valid(t) && EndsNumber(post)
    ensures var l := Lex(g + (Written(t) + post)); Begins(l.token) && l.text + l.rest == Written(t) + post
  {
    hide Lex, IsGap, EndsNumber, Written, Shaped;
    GapSkipped(g, Written(t) + post);
    WrittenValue(t, post, _ => 0.0);
    FirstOf(t, post);
  }

  lemma {:induction false} OneItem(g: string, t: Syntax, after: string, c: char, x: string,
                                   h: string, u: Syntax, behind: string, d: char, y: string)
    requires IsGap(g) && Valid(t) && IsGap(after) && Structural(c) != ParseError
    requires IsGap(h) && Valid(u) && IsGap(behind) && Structural(d) != ParseError
    requires g + Written(t) + after + [c] + x == h + Written(u) + behind + [d] + y
    ensures g == h && t == u && after == behind && c == d && x == y
    decreases t, 3
  {
    hide *;
    var p, q := after + [c] + x, behind + [d] + y;
    ItemEnds(after, c, x);
    ItemEnds(behind, d, y);
    assert g + (Written(t) + p) == h + (Written(u) + q) by {
      assert g + Written(t) + after + [c] + x == g + (Written(t) + p);
      assert h + Written(u) + behind + [d] + y == h + (Written(u) + q);
    }
    FirstBehind(g, t, p);
    FirstBehind(h, u, q);
    OneFront(g, Written(t) + p, h, Written(u) + q);
    OneValue(t, p, u, q);
    OneGap(after, c, x, behind, d, y);
  }

  lemma {:induction false} OneItems(i: Items, x: string, j: Items, y: string)
    requires ItemsValid(i) && ItemsValid(j) && ItemsWritten(i) + x == ItemsWritten(j) + y
    ensures i == j && x == y
    decreases i, 0
  {
    hide Lex, IsGap, Written, ItemsWritten;
    ItemParts(i, x);
    ItemParts(j, y);
    var v := if i.LastItem? then x else ItemsWritten(i.more) + x;
    var w := if j.LastItem? then y else ItemsWritten(j.more) + y;
    OneItem(i.before, i.value, i.after, if i.LastItem? then ']' else ',', v,
            j.before, j.value, j.after, if j.LastItem? then ']' else ',', w);
    if i.MoreItems? {
      OneItems(i.more, x, j.more, y);
    }
  }

  lemma {:induction false} ItemParts(i: Items, x: string)
    ensures var rest := if i.LastItem? then x else ItemsWritten(i.more) + x;
            ItemsWritten(i) + x == i.before + Written(i.value) + i.after + [if i.LastItem? then ']' else ','] + rest
  {
    hide Written, ItemsWritten;
    if i.LastItem? {
      LastWritten(i);
    } else {
      MoreWritten(i, x);
    }
  }

  lemma {:induction false} OneKey(k: Key, x: string, l: Key, y: string)
    requires IsGap(k.before) && IsContent(k.content) && IsGap(k.after)
    requires IsGap(l.before) && IsContent(l.content) && IsGap(l.after)
    requires KeyWritten(k) + x == KeyWritten(l) + y
    ensures k == l && x == y
  {
    hide *;
    KeyParts(k, x);
    KeyParts(l, y);
    var p, q := k.after + [':'] + x, l.after + [':'] + y;
    GapSkipped(k.before, Quote(k.content) + p);
    GapSkipped(l.before, Quote(l.content) + q);
    QuotedToken(k.content, p);
    QuotedToken(l.content, q);
    OneFront(k.before, Quote(k.content) + p, l.before, Quote(l.content) + q);
    OneQuote(k.content, l.content);
    StructuralColon();
    OneGap(k.after, ':', x, l.after, ':', y);
  }

  lemma {:induction false} StructuralColon()
    ensures Structural(':') == NameSeparator
  {
  }

  lemma {:induction false} QuotedToken(c: string, rest: string)
    requires IsContent(c)
    ensures Lex(Quote(c) + rest) == Lexeme(ValueString, Quote(c), rest)
  {
    QuotedIsOneToken(c, rest);
  }

  lemma {:induction false} OneQuote(c: string, d: string)
    requires Quote(c) == Quote(d)
    ensures c == d
  {
    assert c == Quote(c)[1..|c| + 1] && d == Quote(d)[1..|d| + 1];
  }

  lemma {:induction false} OneMembers(m: Members, x: string, n: Members, y: string)
    requires MembersValid(m) && MembersValid(n) && MembersWritten(m) + x == MembersWritten(n) + y
    ensures m == n && x == y
    decreases m, 0
  {
    hide Lex, IsGap, IsContent, Written, MembersWritten, MemberWritten, KeyWritten;
    MemberParts(m, x);
    MemberParts(n, y);
    var v := if m.LastMember? then x else MembersWritten(m.others) + x;
    var w := if n.LastMember? then y else MembersWritten(n.others) + y;
    OneKey(m.key, MemberWritten(m, v), n.key, MemberWritten(n, w));
    MemberText(m, v);
    MemberText(n, w);
    OneItem(m.before, m.value, m.after, if m.LastMember? then '}' else ',', v,
            n.before, n.value, n.after, if n.LastMember? then '}' else ',', w);
    if m.MoreMembers? {
      OneMembers(m.others, x, n.others, y);
    }
  }

  lemma {:induction false} OneInner(c: char, a: string, b: string)
    requires [c] + a == [c] + b
    ensures a == b
  {
    assert a == ([c] + a)[1..] && b == ([c] + b)[1..];
  }

  // Behind an opening bracket stands its closing one, or else a value or a name.
  lemma {:induction false} NoElements(i: Items, x: string, gap: string, y: string)
    requires ItemsValid(i) && IsGap(gap)
    ensures Written(Array(i)) + x != Written(EmptyArray(gap)) + y
  {
    hide Lex, IsGap, ItemsWritten, ParseElements, ElementsOf, ItemsShaped;
    var a, b := ItemsWritten(i) + x, gap + [']'] + y;
    WrittenItems(i, Lexeme(ValueSeparator, [], a), [], x, _ => 0.0);
    GapAndToken(gap, ']', y);
    assert Written(Array(i)) + x == ['['] + a && Written(EmptyArray(gap)) + y == ['['] + b;
    if ['['] + a == ['['] + b {
      OneInner('[', a, b);
    }
  }

  lemma {:induction false} NoMembers(m: Members, x: string, gap: string, y: string)
    requires MembersValid(m) && IsGap(gap)
    ensures Written(Object(m)) + x != Written(EmptyObject(gap)) + y
  {
    hide Lex, IsGap, MembersWritten, ParseMembers, MembersOf, MembersShaped;
    var a, b := MembersWritten(m) + x, gap + ['}'] + y;
    WrittenMembers(m, Lexeme(ValueSeparator, [], a), map[], x, _ => 0.0);
    GapAndToken(gap, '}', y);
    assert Written(Object(m)) + x == ['{'] + a && Written(EmptyObject(gap)) + y == ['{'] + b;
    if ['{'] + a == ['{'] + b {
      OneInner('{', a, b);
    }
  }

  lemma {:induction false} OneArray(i: Items, x: string, j: Items, y: string)
    requires ItemsValid(i) && ItemsValid(j) && Written(Array(i)) + x == Written(Array(j)) + y
    ensures i == j && x == y
    decreases i, 1
  {
    hide ItemsWritten, ItemsShaped;
    assert Written(Array(i)) + x == ['['] + (ItemsWritten(i) + x);
    assert Written(Array(j)) + y == ['['] + (ItemsWritten(j) + y);
    OneInner('[', ItemsWritten(i) + x, ItemsWritten(j) + y);
    OneItems(i, x, j, y);
  }

  lemma {:induction false} OneObject(m: Members, x: string, n: Members, y: string)
    requires MembersValid(m) && MembersValid(n) && Written(Object(m)) + x == Written(Object(n)) + y
    ensures m == n && x == y
    decreases m, 1
  {
    hide MembersWritten, MembersShaped;
    assert Written(Object(m)) + x == ['{'] + (MembersWritten(m) + x);
    assert Written(Object(n)) + y == ['{'] + (MembersWritten(n) + y);
    OneInner('{', MembersWritten(m) + x, MembersWritten(n) + y);
    OneMembers(m, x, n, y);
  }

  lemma {:induction false} OneEmpty(open: char, gap: string, close: char, x: string, other: string, y: string)
    requires IsGap(gap) && IsGap(other) && Structural(close) != ParseError
    requires [open] + gap + [close] + x == [open] + other + [close] + y
    ensures gap == other && x == y
  {
    hide IsGap;
    var a, b := gap + [close] + x, other + [close] + y;
    assert [open] + gap + [close] + x == [open] + a && [open] + other + [close] + y == [open] + b;
    OneInner(open, a, b);
    OneGap(gap, close, x, other, close, y);
  }

  // No text can be read in two ways.
  lemma {:induction false} OneValue(t: Syntax, x: string, u: Syntax, y: string)
    requires Valid(t) && Valid(u) && EndsNumber(x) && EndsNumber(y) && Written(t) + x == Written(u) + y
    ensures t == u && x == y
    decreases t, 2
  {
    hide Lex, IsGap, IsContent, ItemsWritten, MembersWritten, IsNumber, EndsNumber, Quote, ItemsShaped, MembersShaped,
      IsWord;
    FirstOf(t, x);
    FirstOf(u, y);
    match t
    case Word(_) =>
    case Number(_) =>
    case Text(c) =>
      assert u.Text?;
      OneQuote(c, u.content);
    case EmptyArray(gap) =>
      if u.Array? {
        NoElements(u.items, y, gap, x);
      } else {
        OneEmpty('[', gap, ']', x, u.gap, y);
      }
    case Array(items) =>
      if u.Array? {
        OneArray(items, x, u.items, y);
      } else {
        NoElements(items, x, u.gap, y);
      }
    case EmptyObject(gap) =>
      if u.Object? {
        NoMembers(u.members, y, gap, x);
      } else {
        OneEmpty('{', gap, '}', x, u.gap, y);
      }
    case Object(members) =>
      if u.Object? {
        OneObject(members, x, u.members, y);
      } else {
        NoMembers(members, x, u.gap, y);
      }
  }

  // ---- Whole texts ----

  // What stands behind the value and its gap is nothing, or begins with a null byte.
  datatype Document = Document(before: string, value: Syntax, after: string, tail: string) {
    function Text(): string {
      before + Written(value) + after + tail
    }

    ghost predicate ShapedBy(gap: string -> bool, content: string -> bool) {
      gap(before) && Shaped(value, gap, content) && gap(after)
    }

    ghost predicate Accepted() {
      ShapedBy(IsGap, IsContent) && (tail == [] || tail[0] == NUL)
    }

    // JSON-text of section 2 of RFC 7159
    ghost predicate IsRfc() {
      ShapedBy(IsRfcGap, IsRfcContent) && tail == []
    }

    // No byte order mark, no raw control character, nothing in a string that is not UTF-8, nothing behind a null byte.
    ghost predicate IsClean() {
      ShapedBy(IsUnmarked, IsCleanContent) && tail == []
    }

    ghost predicate Paired() {
      ShapedBy(IsAnything, IsPaired)
    }
  }

  predicate IsUnmarked(g: string) {
    '\U{ef}' !in g
  }

  predicate IsCleanContent(c: string) {
    NoControls(c) && IsUtf8Text(c)
  }

  predicate IsAnything(g: string) {
    true
  }

  predicate StartsHigh(c: string) {
    IsUnicodeEscape(c) && 0xD800 <= UnicodeValue(c) <= 0xDBFF
  }

  // Behind every escape for a high surrogate follows one for a low surrogate.
  predicate IsPaired(c: string)
    decreases |c|
  {
    if Unit(c) == 0 then true
    else if StartsHigh(c) then
      && IsUnicodeEscape(c[6..]) && 0xDC00 <= UnicodeValue(c[6..]) <= 0xDFFF
      && IsPaired(c[12..])
    else IsPaired(c[Unit(c)..])
  }

  lemma {:induction false} DocumentParts(d: Document)
    ensures d.Text() == d.before + (Written(d.value) + (d.after + d.tail))
  {
    hide Written;
  }

  lemma {:induction false} TailEnds(tail: string)
    requires tail == [] || tail[0] == NUL
    ensures EndsNumber(tail) && Lex(tail).token == EndOfInput
  {
  }

  // Every text of the grammar is parsed as what it means, with the error of the first string that has none.
  lemma {:induction false} WrittenDocument(d: Document, strtod: string -> real)
    requires d.Accepted()
    ensures Parse(d.Text(), strtod) == ValueOf(d.value, strtod)
  {
    hide Lex, IsGap, ParseValue, EndsNumber, Written, ValueOf, Shaped;
    hide d.Text;
    var post := d.after + d.tail;
    TailEnds(d.tail);
    GapEnds(d.after, d.tail);
    GapSkipped(d.after, d.tail);
    WrittenValue(d.value, post, strtod);
    DocumentParts(d);
    GapSkipped(d.before, Written(d.value) + post);
  }

  // Every text that is parsed is one of the grammar, and means the result.
  lemma {:induction false} FoundDocument(s: string, strtod: string -> real) returns (d: Document)
    requires Parse(s, strtod).Ok?
    ensures d.Accepted() && d.Text() == s && ValueOf(d.value, strtod) == Parse(s, strtod)
  {
    hide Lex, IsGap, ParseValue, Written, ValueOf, Shaped;
    var g, t, u := FoundValue(s, strtod);
    var h := NextToken(u);
    var l := Lex(u);
    d := Document(g, t, h, l.text + l.rest);
    assert d.Text() == g + Written(t) + (h + l.text + l.rest);
  }

  // ---- Which texts are accepted, and which of them are the RFC's ----

  predicate SameError(r: Result<string>, t: Result<string>) {
    (r.Ok? <==> t.Ok?) && (r.Err? ==> r == t)
  }

  lemma {:induction false} ContentSplits(c: string)
    requires c != [] && IsContent(c)
    ensures Unit(c) > 0 && IsContent(c[Unit(c)..])
  {
    hide Unit;
  }

  lemma {:induction false} OtherEscape(c: string)
    requires IsUnicodeEscape(c) && IsContent(c) && !StartsHigh(c)
    ensures Unit(c) == 6 && IsContent(c[6..]) && SameError(Unquoted(c), Unquoted(c[6..]))
  {
    ContentSplits(c);
    hide UnicodeValue, ToUnicode, IsHex, IsHighSurrogate, IsContent;
  }

  lemma {:induction false} ShortUnit(c: string)
    requires c != [] && IsContent(c) && !(Unit(c) == 6 && c[0] == BACKSLASH)
    ensures IsContent(c[Unit(c)..]) && SameError(Unquoted(c), Unquoted(c[Unit(c)..]))
  {
    ContentSplits(c);
    EscapeLetters('u');
    hide SimpleEscape, ToUnicode, UnicodeValue, IsUnicodeEscape, IsContent, IsEscapeLetter;
  }

  // One character or escape that is no high surrogate has a value.
  lemma {:induction false} OtherUnit(c: string)
    requires c != [] && IsContent(c) && !StartsHigh(c)
    ensures IsContent(c[Unit(c)..]) && SameError(Unquoted(c), Unquoted(c[Unit(c)..]))
  {
    if Unit(c) == 6 && c[0] == BACKSLASH {
      assert IsUnicodeEscape(c) by {
        hide SimpleEscape, IsHex, IsContent, Unquoted;
      }
      OtherEscape(c);
    } else {
      ShortUnit(c);
    }
    hide *;
  }

  lemma {:induction false} EscapeSplits(c: string)
    requires IsContent(c) && IsUnicodeEscape(c)
    ensures Unit(c) == 6 && IsContent(c[6..])
  {
    ContentSplits(c);
    hide IsContent, IsHex;
  }

  lemma {:induction false} HighUnit(c: string)
    requires IsContent(c) && StartsHigh(c)
    ensures Unit(c) == 6 && IsContent(c[6..])
    ensures var rest := c[6..];
            if IsUnicodeEscape(rest) && IsLowSurrogate(UnicodeValue(rest)) then
              Unit(rest) == 6 && IsContent(rest[6..]) && SameError(Unquoted(c), Unquoted(rest[6..]))
            else Unquoted(c) == Err(InvalidArgument)
  {
    EscapeSplits(c);
    var rest := c[6..];
    if IsUnicodeEscape(rest) {
      EscapeSplits(rest);
      ToUnicodeDecodes(UnicodeValue(c), UnicodeValue(rest));
    }
    assert c[0] == BACKSLASH && c[1] == 'u';
    hide UnicodeValue, ToUnicode, IsUnicodeEscape, IsHighSurrogate, IsLowSurrogate, IsContent, Unit;
  }

  lemma {:induction false} PairedIff(c: string)
    requires IsContent(c)
    ensures Unquoted(c).Ok? <==> IsPaired(c)
    ensures Unquoted(c).Ok? || Unquoted(c) == Err(InvalidArgument)
    decreases |c|
  {
    hide Unit, UnicodeValue, Unquoted, IsUnicodeEscape;
    if c == [] {
      NothingPaired();
    } else if StartsHigh(c) {
      HighUnit(c);
      var rest := c[6..];
      if IsUnicodeEscape(rest) && IsLowSurrogate(UnicodeValue(rest)) {
        assert rest[6..] == c[12..];
        PairedIff(rest[6..]);
      }
    } else {
      OtherUnit(c);
      PairedIff(c[Unit(c)..]);
    }
  }

  lemma {:induction false} NothingPaired()
    ensures Unquoted([]).Ok? && IsPaired([])
  {
  }

  lemma {:induction false} ItemsHaveValueIff(i: Items, strtod: string -> real)
    requires ItemsValid(i)
    ensures ElementsOf(i, strtod).Ok? <==> ItemsShaped(i, IsAnything, IsPaired)
    decreases i, 0
  {
    hide IsGap, IsContent, IsPaired;
    HasValueIff(i.value, strtod);
    if i.MoreItems? {
      ItemsHaveValueIff(i.more, strtod);
    }
  }

  lemma {:induction false} MembersHaveValueIff(m: Members, strtod: string -> real)
    requires MembersValid(m)
    ensures MembersOf(m, strtod).Ok? <==> MembersShaped(m, IsAnything, IsPaired)
    decreases m, 0
  {
    hide IsGap, IsContent, IsPaired, Unquoted;
    PairedIff(m.key.content);
    HasValueIff(m.value, strtod);
    if m.MoreMembers? {
      MembersHaveValueIff(m.others, strtod);
    }
  }

  // A text has a value exactly if the surrogates in its strings and names are paired.
  lemma {:induction false} HasValueIff(t: Syntax, strtod: string -> real)
    requires Valid(t)
    ensures ValueOf(t, strtod).Ok? <==> Shaped(t, IsAnything, IsPaired)
    decreases t, 1
  {
    hide IsGap, IsContent, IsPaired, Unquoted, NumberOf;
    match t
    case Text(c) => PairedIff(c);
    case Array(items) => ItemsHaveValueIff(items, strtod);
    case Object(members) => MembersHaveValueIff(members, strtod);
    case _ =>
  }

  lemma {:induction false} TailToken(after: string, tail: string)
    requires IsGap(after) && (tail == [] || tail[0] == NUL)
    ensures Lex(after + tail).text + Lex(after + tail).rest == tail
  {
    GapSkipped(after, tail);
    TextAtOnce(tail);
    hide Lex, IsGap;
  }

  // No text is two documents.
  lemma {:induction false} OneDocument(d: Document, e: Document)
    requires d.Accepted() && e.Accepted() && d.Text() == e.Text()
    ensures d == e
  {
    DocumentParts(d);
    DocumentParts(e);
    TailEnds(d.tail);
    TailEnds(e.tail);
    TailToken(d.after, d.tail);
    TailToken(e.after, e.tail);
    hide *;
    var p, q := d.after + d.tail, e.after + e.tail;
    GapEnds(d.after, d.tail);
    GapEnds(e.after, e.tail);
    FirstBehind(d.before, d.value, p);
    FirstBehind(e.before, e.value, q);
    OneFront(d.before, Written(d.value) + p, e.before, Written(e.value) + q);
    OneValue(d.value, p, e.value, q);
    OneFront(d.after, d.tail, e.after, e.tail);
  }

  // The texts that parse accepts: those of the grammar in which every high surrogate has its low one behind it.
  lemma {:induction false} AcceptedIff(s: string, strtod: string -> real)
    ensures Parse(s, strtod).Ok? <==> exists d: Document :: d.Accepted() && d.Paired() && d.Text() == s
  {
    hide *;
    if Parse(s, strtod).Ok? {
      var d := FoundDocument(s, strtod);
      DocumentHasValueIff(d, strtod);
      assert d.Accepted() && d.Paired() && d.Text() == s;
    }
    if d: Document :| d.Accepted() && d.Paired() && d.Text() == s {
      WrittenDocument(d, strtod);
      DocumentHasValueIff(d, strtod);
    }
  }

  lemma {:induction false} DocumentHasValueIff(d: Document, strtod: string -> real)
    requires d.Accepted()
    ensures Valid(d.value) && (ValueOf(d.value, strtod).Ok? <==> d.Paired())
  {
    HasValueIff(d.value, strtod);
    hide IsGap, Shaped, ValueOf;
  }

  // Where one kind of gap and content is the two others together, so is the shape.
  ghost predicate Both(p: string -> bool, q: string -> bool, r: string -> bool) {
    forall s :: p(s) <==> q(s) && r(s)
  }

  lemma {:induction false} ItemsShapedBoth(i: Items, g: string -> bool, h: string -> bool, k: string -> bool,
                                           c: string -> bool, d: string -> bool, e: string -> bool)
    requires Both(g, h, k) && Both(c, d, e)
    ensures ItemsShaped(i, g, c) <==> ItemsShaped(i, h, d) && ItemsShaped(i, k, e)
    decreases i, 0
  {
    ShapedBoth(i.value, g, h, k, c, d, e);
    if i.MoreItems? {
      ItemsShapedBoth(i.more, g, h, k, c, d, e);
    }
    hide Shaped;
  }

  lemma {:induction false} MembersShapedBoth(m: Members, g: string -> bool, h: string -> bool, k: string -> bool,
                                             c: string -> bool, d: string -> bool, e: string -> bool)
    requires Both(g, h, k) && Both(c, d, e)
    ensures MembersShaped(m, g, c) <==> MembersShaped(m, h, d) && MembersShaped(m, k, e)
    decreases m, 0
  {
    ShapedBoth(m.value, g, h, k, c, d, e);
    if m.MoreMembers? {
      MembersShapedBoth(m.others, g, h, k, c, d, e);
    }
    hide Shaped;
  }

  lemma {:induction false} ShapedBoth(t: Syntax, g: string -> bool, h: string -> bool, k: string -> bool,
                                      c: string -> bool, d: string -> bool, e: string -> bool)
    requires Both(g, h, k) && Both(c, d, e)
    ensures Shaped(t, g, c) <==> Shaped(t, h, d) && Shaped(t, k, e)
    decreases t, 1
  {
    hide IsNumber;
    match t
    case Array(items) => ItemsShapedBoth(items, g, h, k, c, d, e);
    case Object(members) => MembersShapedBoth(members, g, h, k, c, d, e);
    case _ =>
  }

  lemma {:induction false} RfcGapIsGap(g: string)
    requires IsRfcGap(g)
    ensures IsGap(g)
  {
    if g != [] {
      assert g[0] in g && forall c <- g[1..] :: c in g;
      RfcGapIsGap(g[1..]);
    }
  }

  lemma {:induction false} GapsOfTheRfc()
    ensures Both(IsRfcGap, IsGap, IsUnmarked)
  {
    hide IsRfcGap, IsGap;
    forall g: string
      ensures IsRfcGap(g) <==> IsGap(g) && IsUnmarked(g)
    {
      if IsRfcGap(g) {
        RfcGapIsGap(g);
      }
      if IsGap(g) {
        GapIsRfcIff(g);
      }
    }
  }

  lemma {:induction false} ContentOfTheRfc()
    ensures Both(IsRfcContent, IsContent, IsCleanContent)
  {
    hide IsRfcContent, IsContent;
    forall c: string
      ensures IsRfcContent(c) <==> IsContent(c) && IsCleanContent(c)
    {
      ContentIsRfcIff(c);
    }
  }

  // The documents of the RFC are the accepted ones without byte order marks, raw control characters, bytes that are
  // not UTF-8, and anything from a null byte on.
  lemma {:induction false} RfcIff(d: Document)
    ensures d.IsRfc() <==> d.Accepted() && d.IsClean()
  {
    GapsOfTheRfc();
    ContentOfTheRfc();
    ShapedBoth(d.value, IsRfcGap, IsGap, IsUnmarked, IsRfcContent, IsContent, IsCleanContent);
    hide Shaped, IsRfcGap, IsGap, IsUnmarked, IsRfcContent, IsContent, IsCleanContent;
    assert forall g :: IsRfcGap(g) <==> IsGap(g) && IsUnmarked(g);
  }

  ghost predicate IsRfcText(s: string) {
    exists d: Document :: d.IsRfc() && d.Text() == s
  }

  // An accepted text is one of the RFC exactly if it is clean.
  lemma {:induction false} RfcTextIff(d: Document)
    requires d.Accepted()
    ensures IsRfcText(d.Text()) <==> d.IsClean()
  {
    RfcIff(d);
    hide d.IsRfc, d.Accepted, d.IsClean, d.Text;
    if e: Document :| e.IsRfc() && e.Text() == d.Text() {
      RfcIff(e);
      OneDocument(d, e);
    }
  }

  // A text of the RFC is accepted exactly if its surrogates are paired, and then it is read as what it means.
  lemma {:induction false} RfcTextIsParsed(d: Document, strtod: string -> real)
    requires d.IsRfc()
    ensures d.Accepted() && Parse(d.Text(), strtod) == ValueOf(d.value, strtod)
    ensures Parse(d.Text(), strtod).Ok? <==> d.Paired()
  {
    hide *;
    RfcIff(d);
    WrittenDocument(d, strtod);
    DocumentHasValueIff(d, strtod);
  }

  // A text that is a number and no more is read as get_number reads it; with a point or an exponent letter, as strtod
  // reads all of it.
  lemma {:induction false} NumberIsParsed(t: string, strtod: string -> real)
    requires IsNumber(t)
    ensures IsRfcText(t) && Parse(t, strtod) == Ok(NumberOf(t, strtod))
    ensures HasFractionOrExponent(t) ==> Parse(t, strtod) == Ok(Float(strtod(t)))
  {
    if HasFractionOrExponent(t) {
      FractionIsFloat(t, strtod);
    }
    var d := Document([], Number(t), [], []);
    hide Parse, IsNumber, NumberOf, HasFractionOrExponent;
    assert d.IsRfc();
    assert d.Text() == t;
    RfcTextIsParsed(d, strtod);
  }

  // ---- The one error ----

  predicate OkOrInvalid<T>(r: Result<T>) {
    r.Ok? || r.error == InvalidArgument
  }

  lemma {:induction false} StringError(t: string)
    ensures OkOrInvalid(StringOf(t))
  {
    hide IsContent, Unquoted, IsPaired;
    if IsStringToken(t) {
      PairedIff(t[1..|t| - 1]);
    }
  }

  lemma {:induction false} KeyError(l: Lexeme)
    ensures OkOrInvalid(ParseKey(l))
  {
    StringError(SkipSeparator(l).text);
    hide StringOf, Lex, SkipSeparator;
  }

  lemma {:induction false} ElementsError(l: Lexeme, a: seq<Json>, strtod: string -> real)
    ensures OkOrInvalid(ParseElements(l, a, strtod))
    decreases Size(l), 1
  {
    ValueError(SkipSeparator(l), strtod);
    hide ParseValue, Lex, SkipSeparator;
    var r := ParseValue(SkipSeparator(l), strtod);
    if r.Ok? && r.value.next.token == ValueSeparator {
      ElementsError(r.value.next, a + [r.value.value], strtod);
    }
  }

  lemma {:induction false} MembersError(l: Lexeme, o: map<string, Json>, strtod: string -> real)
    ensures OkOrInvalid(ParseMembers(l, o, strtod))
    decreases Size(l), 1
  {
    KeyError(l);
    hide ParseKey, ParseValue, Lex;
    var k := ParseKey(l);
    if k.Ok? {
      ValueError(k.value.1, strtod);
      var r := ParseValue(k.value.1, strtod);
      if r.Ok? && r.value.next.token == ValueSeparator {
        MembersError(r.value.next, o[k.value.0 := r.value.value], strtod);
      }
    }
  }

  lemma {:induction false} ValueError(l: Lexeme, strtod: string -> real)
    ensures OkOrInvalid(ParseValue(l, strtod))
    decreases Size(l), 0
  {
    StringError(l.text);
    hide Lex, StringOf, NumberOf, ParseElements, ParseMembers;
    if l.token == BeginArray {
      ElementsError(Lex(l.rest), [], strtod);
    } else if l.token == BeginObject {
      MembersError(Lex(l.rest), map[], strtod);
    }
  }

  // What is refused is refused with invalid_argument.
  lemma {:induction false} RefusedAsInvalid(s: string, strtod: string -> real)
    ensures Parse(s, strtod).Ok? || Parse(s, strtod) == Err(InvalidArgument)
  {
    ValueError(Lex(s), strtod);
    hide ParseValue, Lex;
  }

  // ---- A text for each difference ----

  lemma {:induction false} MarkIsGap()
    ensures IsGap(BYTE_ORDER_MARK) && IsGap([]) && !IsUnmarked(BYTE_ORDER_MARK)
  {
    assert BYTE_ORDER_MARK[3..] == [] && BYTE_ORDER_MARK[..3] == BYTE_ORDER_MARK;
    assert BYTE_ORDER_MARK[0] == '\U{ef}';
  }

  // A byte order mark between two tokens.
  lemma {:induction false} MarkIsNotRfc(strtod: string -> real)
    ensures var s := "[\U{ef}\U{bb}\U{bf}]"; Parse(s, strtod) == Ok(Arr([])) && !IsRfcText(s)
  {
    MarkBetweenTokens(strtod);
    MarkIsGap();
    var d := Document([], EmptyArray(BYTE_ORDER_MARK), [], []);
    hide IsGap, Parse, IsRfcText, IsUnmarked;
    assert d.Accepted() && !d.IsClean();
    assert d.Text() == "[" + BYTE_ORDER_MARK + "]" == "[\U{ef}\U{bb}\U{bf}]";
    RfcTextIff(d);
  }

  lemma {:induction false} QuotedIsRfcIff(c: string)
    requires IsContent(c)
    ensures IsRfcText(Quote(c)) <==> IsRfcContent(c)
  {
    var d := Document([], Text(c), [], []);
    assert d.Text() == Quote(c);
    MarkIsGap();
    RfcIff(d);
    hide IsGap, IsRfcText, IsContent, IsCleanContent, IsRfcContent, IsUnmarked, Quote;
    assert d.Accepted() && (d.IsRfc() <==> IsRfcContent(c));
    RfcTextIff(d);
  }

  // A raw control character from 0x10 on, or a byte that is no UTF-8, in a string.
  lemma {:induction false} RawByteIsNotRfc(b: char, strtod: string -> real)
    requires 0x10 <= b as int <= 0x1F || b == '\U{ff}'
    ensures var s := [QUOTE, b, QUOTE]; Parse(s, strtod) == Ok(Str([b])) && !IsRfcText(s)
  {
    RawByteRead(b, strtod);
    RawByteAccepted(b);
    QuotedIsRfcIff([b]);
    hide Parse, IsRfcText, IsContent, IsRfcContent;
    assert Quote([b]) == [QUOTE, b, QUOTE];
  }

  // A null byte, and whatever follows it.
  lemma {:induction false} NullIsNotRfc(rest: string, strtod: string -> real)
    ensures var s := "[]\U{0}" + rest; Parse(s, strtod) == Ok(Arr([])) && !IsRfcText(s)
  {
    NullEndsText(rest, strtod);
    MarkIsGap();
    var tail := [NUL] + rest;
    var d := Document([], EmptyArray([]), [], tail);
    hide IsGap, Parse, IsRfcText, IsUnmarked;
    assert d.Accepted() && !d.IsClean();
    assert d.Text() == "[]" + tail == "[]\U{0}" + rest;
    RfcTextIff(d);
  }

  lemma {:induction false} LoneSurrogate()
    ensures var c := "\\ud800"; !IsPaired(c) && IsRfcContent(c)
  {
    var c := "\\ud800";
    hide Utf8Length, StartsUnescaped;
    assert IsUnicodeEscape(c) && c[6..] == [] && UnicodeValue(c) == 0xD800;
    assert IsRfcContent([]);
  }

  // The escape of a high surrogate alone: a text of the RFC that is refused.
  lemma {:induction false} LoneSurrogateIsRefused(strtod: string -> real)
    ensures var s := Quote("\\ud800"); IsRfcText(s) && Parse(s, strtod).Err?
  {
    LoneSurrogate();
    QuotedTextIsParsed("\\ud800", strtod);
    hide *;
  }

  // A string of the RFC alone is a text of it.
  lemma {:induction false} QuotedTextIsParsed(c: string, strtod: string -> real)
    requires IsRfcContent(c)
    ensures IsRfcText(Quote(c)) && (Parse(Quote(c), strtod).Ok? <==> IsPaired(c))
  {
    hide Parse, IsRfcContent, IsPaired, Quote;
    var d := Document([], Text(c), [], []);
    assert d.IsRfc() && (d.Paired() <==> IsPaired(c));
    assert d.Text() == Quote(c);
    RfcTextIsParsed(d, strtod);
  }
}
