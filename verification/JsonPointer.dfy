/** JSON pointers (RFC 6901): printing, parsing, and the two escaping passes they rest on. */
module JsonPointer {
  import opened JsonResult

  // ---- replace_substring ----

  // Every occurrence of `f`, found from left to right, is replaced by `t`.
  function Replace(s: string, f: string, t: string): string
    requires f != []
    decreases |s|
  {
    if |s| < |f| then s
    else if s[..|f|] == f then t + Replace(s[|f|..], f, t)
    else [s[0]] + Replace(s[1..], f, t)
  }

  predicate Occurs(s: string, f: string, i: int) {
    0 <= i && i + |f| <= |s| && s[i..i + |f|] == f
  }

  // std::string::find: the first occurrence from `from` on, -1 if there is none.
  function Find(s: string, f: string, from: nat): (i: int)
    ensures i == -1 || (from <= i && Occurs(s, f, i))
    ensures forall j :: from <= j && Occurs(s, f, j) ==> i != -1 && i <= j
    decreases |s| - from
  {
    if from + |f| > |s| then -1
    else if s[from..from + |f|] == f then from
    else if from == |s| then -1
    else Find(s, f, from + 1)
  }

  lemma {:induction false} ReplaceStep(s: string, f: string, t: string)
    requires f != [] && s != [] && (|f| <= |s| ==> s[..|f|] != f)
    ensures Replace(s, f, t) == [s[0]] + Replace(s[1..], f, t)
  {
  }

  // Nothing is replaced before the next occurrence.
  lemma {:induction false} SkipTo(s: string, f: string, t: string, done: nat, pos: nat)
    requires f != [] && done <= pos <= |s| && forall j :: done <= j < pos ==> !Occurs(s, f, j)
    ensures s[..done] + Replace(s[done..], f, t) == s[..pos] + Replace(s[pos..], f, t)
    decreases pos - done
  {
    if done < pos {
      var u := s[done..];
      assert !Occurs(s, f, done);
      if |f| <= |u| {
        assert u[..|f|] == s[done..done + |f|];
      }
      ReplaceStep(u, f, t);
      assert u[1..] == s[done + 1..] && s[..done + 1] == s[..done] + [u[0]];
      SkipTo(s, f, t, done + 1, pos);
    }
  }

  lemma {:induction false} ReplaceHit(s: string, f: string, t: string, pos: nat)
    requires f != [] && Occurs(s, f, pos)
    ensures Replace(s[pos..], f, t) == t + Replace(s[pos + |f|..], f, t)
  {
    assert s[pos..][..|f|] == f && s[pos..][|f|..] == s[pos + |f|..];
  }

  lemma {:induction false} ReplaceNone(s: string, f: string, t: string, done: nat)
    requires f != [] && done <= |s| && Find(s, f, done) == -1
    ensures s[..done] + Replace(s[done..], f, t) == s
  {
    SkipTo(s, f, t, done, |s|);
    assert s[|s|..] == [] && s[..|s|] == s;
  }

  // The loop that edits the string in place.
  method ReplaceSubstring(input: string, f: string, t: string) returns (s: string)
    requires f != []
    ensures s == Replace(input, f, t)
  {
    hide Replace, Find;
    s := input;
    ghost var done: nat := 0;
    var pos := Find(s, f, 0);
    assert s[0..] == s && s[..0] == [];
    while pos != -1
      invariant done <= |s| && pos == Find(s, f, done)
      invariant Replace(input, f, t) == s[..done] + Replace(s[done..], f, t)
      decreases |s| - done
    {
      SkipTo(s, f, t, done, pos);
      ReplaceHit(s, f, t, pos);
      ghost var rest := s[pos + |f|..];
      ghost var head := s[..pos] + t;
      s := s[..pos] + t + s[pos + |f|..];
      assert s[..|head|] == head && s[|head|..] == rest;
      done := pos + |t|;
      pos := Find(s, f, pos + |t|);
    }
    ReplaceNone(s, f, t, done);
  }

  // ---- Escaping of one token ----

  // escape and unescape, as the library does them: two passes each, in this order.
  function Escape(s: string): string {
    Replace(Replace(s, "~", "~0"), "/", "~1")
  }

  function Unescape(s: string): string {
    Replace(Replace(s, "~1", "/"), "~0", "~")
  }

  predicate IsTildeDigit(c: char) {
    c == '0' || c == '1'
  }

  // Every tilde is followed by 0 or 1.
  predicate ProperlyEscaped(t: string)
    decreases |t|
  {
    if t == [] then true
    else if t[0] == '~' then |t| > 1 && IsTildeDigit(t[1]) && ProperlyEscaped(t[2..])
    else ProperlyEscaped(t[1..])
  }

  predicate TildeAt(t: string, i: nat)
    requires i < |t|
  {
    t[i] == '~' ==> i + 1 < |t| && IsTildeDigit(t[i + 1])
  }

  lemma {:induction false} ProperlyEscapedIff(t: string)
    ensures ProperlyEscaped(t) <==> forall i: nat :: i < |t| ==> TildeAt(t, i)
    decreases |t|
  {
    if t != [] {
      var n := if t[0] == '~' && |t| > 1 && IsTildeDigit(t[1]) then 2 else 1;
      var u := t[n..];
      ProperlyEscapedIff(u);
      assert TildeAt(t, 0) <==> t[0] != '~' || n == 2;
      if n == 2 {
        assert TildeAt(t, 1);
      }
      forall i: nat | n <= i < |t|
        ensures TildeAt(t, i) <==> TildeAt(u, i - n)
      {
      }
      if forall i: nat :: i < |u| ==> TildeAt(u, i) {
        forall i: nat | n <= i < |t|
          ensures TildeAt(t, i)
        {
          assert TildeAt(u, i - n);
        }
      } else {
        var i: nat :| i < |u| && !TildeAt(u, i);
        assert !TildeAt(t, i + n);
      }
    }
  }

  // RFC 6901, sections 3 and 4: one character at a time.
  function EscapeChar(c: char): string {
    if c == '~' then "~0" else if c == '/' then "~1" else [c]
  }

  function Encode(s: string): string {
    if s == [] then [] else EscapeChar(s[0]) + Encode(s[1..])
  }

  function Decode(t: string): string
    requires ProperlyEscaped(t)
    decreases |t|
  {
    if t == [] then []
    else if t[0] == '~' then [if t[1] == '0' then '~' else '/'] + Decode(t[2..])
    else [t[0]] + Decode(t[1..])
  }

  lemma {:induction false} ReplaceCharAppend(a: string, b: string, c: char, t: string)
    ensures Replace(a + b, [c], t) == Replace(a, [c], t) + Replace(b, [c], t)
    decreases |a|
  {
    if a == [] {
      assert a + b == b;
    } else {
      ReplaceCharAppend(a[1..], b, c, t);
      assert (a + b)[1..] == a[1..] + b;
      assert (a + b)[..1] == a[..1];
    }
  }

  lemma {:induction false} ReplaceOneChar(d: char, c: char, t: string)
    ensures Replace([d], [c], t) == if d == c then t else [d]
  {
    assert [d][..1] == [d] && [d][1..] == [];
  }

  lemma {:induction false} EscapeIsEncode(s: string)
    ensures Escape(s) == Encode(s)
    decreases |s|
  {
    if s != [] {
      var head, tail := [s[0]], s[1..];
      assert s == head + tail;
      EscapeIsEncode(tail);
      ReplaceCharAppend(head, tail, '~', "~0");
      ReplaceOneChar(s[0], '~', "~0");
      var first := Replace(head, "~", "~0");
      ReplaceCharAppend(first, Replace(tail, "~", "~0"), '/', "~1");
      EscapeOne(s[0]);
    }
  }

  lemma {:induction false} EscapeOne(c: char)
    ensures Replace(if c == '~' then "~0" else [c], "/", "~1") == EscapeChar(c)
  {
    ReplaceOneChar(c, '/', "~1");
    ReplaceOneChar('0', '/', "~1");
    assert "~0"[..1] == "~" && "~0"[1..] == "0";
  }

  // A two-character pattern that begins with a tilde passes over any other character, and over a tilde that is
  // followed by another digit.
  lemma {:induction false} ReplacePasses(c: char, s: string, d: char, t: string)
    ensures c != '~' ==> Replace([c] + s, ['~', d], t) == [c] + Replace(s, ['~', d], t)
    ensures c != d && c != '~' ==> Replace(['~', c] + s, ['~', d], t) == ['~', c] + Replace(s, ['~', d], t)
    ensures Replace(['~', d] + s, ['~', d], t) == t + Replace(s, ['~', d], t)
  {
    var f := ['~', d];
    assert ([c] + s)[1..] == s;
    if s != [] {
      assert ([c] + s)[..2] == [c, s[0]];
    }
    assert (f + s)[..2] == f && (f + s)[2..] == s;
    var u := ['~', c] + s;
    assert u[..2] == ['~', c] && u[1..] == [c] + s;
    if c != '~' && c != d {
      assert ['~'] + ([c] + Replace(s, f, t)) == ['~', c] + Replace(s, f, t);
    }
  }

  lemma {:induction false} UnescapeIsDecode(t: string)
    requires ProperlyEscaped(t)
    ensures Unescape(t) == Decode(t)
    decreases |t|
  {
    if t != [] {
      if t[0] == '~' {
        var rest := t[2..];
        assert t == ['~', t[1]] + rest;
        UnescapeIsDecode(rest);
        var mid := Replace(rest, "~1", "/");
        ReplacePasses('0', rest, '1', "/");
        ReplacePasses('/', mid, '0', "~");
        assert "~1" == ['~', '1'] && "~0" == ['~', '0'] && "/" == ['/'];
      } else {
        var rest := t[1..];
        assert t == [t[0]] + rest;
        UnescapeIsDecode(rest);
        ReplacePasses(t[0], rest, '1', "/");
        ReplacePasses(t[0], Replace(rest, "~1", "/"), '0', "~");
        assert "~1" == ['~', '1'] && "~0" == ['~', '0'];
      }
    }
  }

  predicate NoSlash(s: string) {
    forall i :: 0 <= i < |s| ==> s[i] != '/'
  }

  lemma {:induction false} EncodeIsProper(s: string)
    ensures ProperlyEscaped(Encode(s)) && NoSlash(Encode(s))
  {
    if s != [] {
      EncodeIsProper(s[1..]);
    }
  }

  lemma {:induction false} DecodeEncode(s: string)
    ensures ProperlyEscaped(Encode(s)) && Decode(Encode(s)) == s
  {
    EncodeIsProper(s);
    if s != [] {
      DecodeEncode(s[1..]);
      var e := Encode(s[1..]);
      if s[0] == '~' || s[0] == '/' {
        assert Encode(s)[2..] == e;
      } else {
        assert Encode(s)[1..] == e;
      }
    }
  }

  lemma {:induction false} EncodeDecode(t: string)
    requires ProperlyEscaped(t) && NoSlash(t)
    ensures Encode(Decode(t)) == t
    decreases |t|
  {
    if t != [] {
      if t[0] == '~' {
        EncodeDecode(t[2..]);
        var d := Decode(t);
        assert d[1..] == Decode(t[2..]);
        assert t == [t[0], t[1]] + t[2..];
      } else {
        EncodeDecode(t[1..]);
        assert Decode(t)[1..] == Decode(t[1..]);
        assert t == [t[0]] + t[1..];
      }
    }
  }

  // The two pairs of passes are inverse to each other.
  lemma {:induction false} UnescapeEscape(s: string)
    ensures Unescape(Escape(s)) == s
  {
    EscapeIsEncode(s);
    DecodeEncode(s);
    UnescapeIsDecode(Escape(s));
  }

  lemma {:induction false} EscapeUnescape(t: string)
    requires ProperlyEscaped(t) && NoSlash(t)
    ensures Escape(Unescape(t)) == t
  {
    UnescapeIsDecode(t);
    EncodeDecode(t);
    EscapeIsEncode(Decode(t));
  }

  method EscapeToken(s: string) returns (r: string)
    ensures r == Escape(s)
  {
    r := ReplaceSubstring(s, "~", "~0");
    r := ReplaceSubstring(r, "/", "~1");
  }

  method UnescapeToken(s: string) returns (r: string)
    ensures r == Unescape(s)
  {
    r := ReplaceSubstring(s, "~1", "/");
    r := ReplaceSubstring(r, "~0", "~");
  }

  // ---- Whole pointers ----

  type Pointer = seq<string>

  // to_string
  function ToStr(p: Pointer): string {
    if p == [] then "" else "/" + (Escape(p[0]) + ToStr(p[1..]))
  }

  function FirstSlash(s: string): (n: nat)
    ensures n <= |s| && (forall i :: 0 <= i < n ==> s[i] != '/') && (n < |s| ==> s[n] == '/')
  {
    if s == [] || s[0] == '/' then 0 else 1 + FirstSlash(s[1..])
  }

  // The tokens already found, in front of those still to come.
  function After(done: Pointer, r: Result<Pointer>): Result<Pointer> {
    if r.Ok? then Ok(done + r.value) else r
  }

  // The tokens of what follows a slash.
  function Tokens(s: string): Result<Pointer>
    decreases |s|
  {
    var n := FirstSlash(s);
    if !ProperlyEscaped(s[..n]) then Err(DomainError)
    else if n == |s| then Ok([Unescape(s)])
    else After([Unescape(s[..n])], Tokens(s[n + 1..]))
  }

  // split
  function Split(s: string): Result<Pointer> {
    if s == "" then Ok([])
    else if s[0] != '/' then Err(DomainError)
    else Tokens(s[1..])
  }

  method CheckEscapes(token: string) returns (ok: bool)
    ensures ok <==> ProperlyEscaped(token)
  {
    ProperlyEscapedIff(token);
    hide ProperlyEscaped, Find, TildeAt;
    var pos := Find(token, "~", 0);
    ghost var from := 0;
    while pos != -1
      invariant 0 <= from <= |token| && pos == Find(token, "~", from)
      invariant forall i: nat :: i < from ==> TildeAt(token, i)
      decreases |token| - from
    {
      TildeFound(token, from);
      if pos == |token| - 1 || (token[pos + 1] != '0' && token[pos + 1] != '1') {
        return false;
      }
      from := pos + 1;
      pos := Find(token, "~", pos + 1);
    }
    TildeFound(token, from);
    return true;
  }

  lemma {:induction false} TildeFound(token: string, from: nat)
    requires from <= |token|
    ensures var pos := Find(token, "~", from);
            && -1 <= pos < |token|
            && (forall i: nat :: from <= i < (if pos == -1 then |token| else pos) ==> TildeAt(token, i))
            && (pos != -1 ==> (TildeAt(token, pos) <==>
                               pos != |token| - 1 && (token[pos + 1] == '0' || token[pos + 1] == '1')))
  {
    var pos := Find(token, "~", from);
    if pos != -1 {
      assert token[pos..pos + 1] == [token[pos]];
    }
    forall i: nat | from <= i < if pos == -1 then |token| else pos
      ensures TildeAt(token, i)
    {
      assert !Occurs(token, "~", i);
      assert token[i..i + 1] == [token[i]];
    }
  }

  lemma {:induction false} SlashFound(s: string, from: nat)
    requires from <= |s|
    ensures var n := FirstSlash(s[from..]); Find(s, "/", from) == if n == |s| - from then -1 else from + n
  {
    var i, n := Find(s, "/", from), FirstSlash(s[from..]);
    if i != -1 {
      assert s[i..i + 1] == [s[i]] && s[from..][i - from] == '/';
    }
    if n < |s| - from {
      assert s[from + n..from + n + 1] == "/" && Occurs(s, "/", from + n);
    }
  }

  lemma {:induction false} AfterNothing(r: Result<Pointer>)
    ensures After([], r) == r
  {
    if r.Ok? {
      assert [] + r.value == r.value;
    }
  }

  lemma {:induction false} AfterTwice(a: Pointer, b: Pointer, r: Result<Pointer>)
    ensures After(a, After(b, r)) == After(a + b, r)
  {
    if r.Ok? {
      assert a + (b + r.value) == a + b + r.value;
    }
  }

  // One token: the text up to the next slash, and what the rest gives after it.
  lemma {:induction false} NextToken(reference: string, start: nat, slash: int, result: Pointer, token: string)
    requires start <= |reference| && slash == Find(reference, "/", start)
    requires token == if slash == -1 then reference[start..] else reference[start..slash]
    ensures After(result, Tokens(reference[start..])) ==
              if !ProperlyEscaped(token) then Err(DomainError)
              else if slash == -1 then Ok(result + [Unescape(token)])
              else After(result + [Unescape(token)], Tokens(reference[slash + 1..]))
  {
    var rest := reference[start..];
    var n := FirstSlash(rest);
    SlashFound(reference, start);
    hide Unescape, Find, FirstSlash, After;
    assert token == rest[..n];
    if slash == -1 {
      assert rest[..n] == rest;
      LastToken(result, Unescape(token));
    } else {
      assert rest[n + 1..] == reference[slash + 1..];
      AfterTwice(result, [Unescape(token)], Tokens(reference[slash + 1..]));
    }
    AfterError(result);
  }

  lemma {:induction false} LastToken(a: Pointer, t: string)
    ensures After(a, Ok([t])) == Ok(a + [t])
  {
  }

  lemma {:induction false} AfterError(a: Pointer)
    ensures After(a, Err(DomainError)) == Err(DomainError)
  {
  }

  // The loop of split: `slash` is the next slash or -1, and `start` becomes 0 when there is none left.
  method SplitString(reference: string) returns (r: Result<Pointer>)
    ensures r == Split(reference)
  {
    if reference == "" {
      return Ok([]);
    }
    if reference[0] != '/' {
      return Err(DomainError);
    }
    var result: Pointer := [];
    var slash, start := Find(reference, "/", 1), 1;
    AfterNothing(Tokens(reference[1..]));
    hide Find, Unescape, ProperlyEscaped, Tokens, After, Split;
    while start != 0
      invariant 0 <= start <= |reference|
      invariant start != 0 ==> slash == Find(reference, "/", start)
      invariant Split(reference) == if start == 0 then Ok(result) else After(result, Tokens(reference[start..]))
      decreases if start == 0 then 0 else |reference| - start + 1
    {
      var token := if slash == -1 then reference[start..] else reference[start..slash];
      NextToken(reference, start, slash, result, token);
      var ok := CheckEscapes(token);
      if !ok {
        return Err(DomainError);
      }
      token := UnescapeToken(token);
      result := result + [token];
      start := slash + 1;
      slash := Find(reference, "/", start);
    }
    return Ok(result);
  }

  method Print(p: Pointer) returns (s: string)
    ensures s == ToStr(p)
  {
    hide Escape, ToStr;
    s := "";
    var i := 0;
    ToStrEmpty(p);
    while i < |p|
      invariant 0 <= i <= |p| && s == ToStr(p[..i])
    {
      var e := EscapeToken(p[i]);
      ToStrSnoc(p, i);
      s := s + ("/" + e);
      i := i + 1;
    }
    assert p[..i] == p;
  }

  lemma {:induction false} ToStrEmpty(p: Pointer)
    ensures ToStr(p[..0]) == ""
  {
  }

  lemma {:induction false} ToStrSnoc(p: Pointer, i: nat)
    requires i < |p|
    ensures ToStr(p[..i + 1]) == ToStr(p[..i]) + ("/" + Escape(p[i]))
  {
    assert p[..i + 1] == p[..i] + [p[i]];
    ToStrAppend(p[..i], [p[i]]);
    hide Escape;
    assert [p[i]][1..] == [] && Escape(p[i]) + "" == Escape(p[i]);
  }

  lemma {:induction false} ToStrUnfolds(p: Pointer)
    requires p != []
    ensures ToStr(p) != "" && ToStr(p)[0] == '/' && ToStr(p)[1..] == Escape(p[0]) + ToStr(p[1..])
  {
    hide Escape;
  }

  // A printed token in front of a printed pointer.
  lemma {:induction false} TokensOfOne(e: string, rest: string)
    requires ProperlyEscaped(e) && NoSlash(e) && (rest == [] || rest[0] == '/')
    ensures Tokens(e + rest) == if rest == [] then Ok([Unescape(e)]) else After([Unescape(e)], Tokens(rest[1..]))
  {
    var s := e + rest;
    assert FirstSlash(s) == |e|;
    assert s[..|e|] == e && (rest == [] ==> s == e);
    hide Unescape, ProperlyEscaped;
    if rest != [] {
      assert s[|e| + 1..] == rest[1..];
    }
  }

  lemma {:induction false} TokensOfPrinted(k: string, p: Pointer)
    ensures Tokens(Escape(k) + ToStr(p)) == Ok([k] + p)
    decreases |p|
  {
    EscapeIsEncode(k);
    EncodeIsProper(k);
    UnescapeEscape(k);
    hide Escape, Unescape, ProperlyEscaped, Tokens;
    if p == [] {
      TokensOfOne(Escape(k), ToStr(p));
      assert [k] + p == [k];
    } else {
      ToStrUnfolds(p);
      TokensOfOne(Escape(k), ToStr(p));
      TokensOfPrinted(p[0], p[1..]);
      assert p == [p[0]] + p[1..];
    }
  }

  // Parsing undoes printing, for every token list.
  lemma {:induction false} SplitOfPrinted(p: Pointer)
    ensures Split(ToStr(p)) == Ok(p)
  {
    if p != [] {
      ToStrUnfolds(p);
      TokensOfPrinted(p[0], p[1..]);
      assert p == [p[0]] + p[1..];
      hide ToStr, Tokens;
    }
  }

  lemma {:induction false} PrintedTokens(s: string)
    requires Tokens(s).Ok?
    ensures Tokens(s).value != [] && ToStr(Tokens(s).value)[1..] == s && ToStr(Tokens(s).value)[0] == '/'
    decreases |s|
  {
    var n, p := FirstSlash(s), Tokens(s).value;
    EscapeUnescape(s[..n]);
    ToStrUnfolds(p);
    if n == |s| {
      assert s[..n] == s && ToStr([]) == "";
    } else {
      PrintedTokens(s[n + 1..]);
      var ts := Tokens(s[n + 1..]).value;
      hide Escape, Unescape, ProperlyEscaped, ToStr, Tokens;
      assert p == [Unescape(s[..n])] + ts;
      assert p[1..] == ts;
      Rejoin(s, n, ToStr(ts));
    }
  }

  lemma {:induction false} Rejoin(s: string, n: nat, tail: string)
    requires n < |s| && tail != [] && tail[0] == s[n] && tail[1..] == s[n + 1..]
    ensures s[..n] + tail == s
  {
    assert tail == [tail[0]] + tail[1..];
  }

  // Printing undoes parsing, for every string that is accepted.
  lemma {:induction false} PrintedOfSplit(s: string)
    requires Split(s).Ok?
    ensures ToStr(Split(s).value) == s
  {
    if s != "" {
      PrintedTokens(s[1..]);
      assert s == [s[0]] + s[1..];
    }
  }

  // A string is accepted exactly when it is empty, or begins with a slash and is properly escaped.
  lemma {:induction false} SplitAccepts(s: string)
    ensures Split(s).Ok? <==> s == "" || (s[0] == '/' && ProperlyEscaped(s))
    ensures Split(s).Ok? || Split(s) == Err(DomainError)
  {
    if s != "" && s[0] == '/' {
      TokensAccept(s[1..]);
    }
  }

  lemma {:induction false} TokensAccept(s: string)
    ensures Tokens(s).Ok? <==> ProperlyEscaped(s)
    ensures Tokens(s).Ok? || Tokens(s) == Err(DomainError)
    decreases |s|
  {
    var n := FirstSlash(s);
    if n < |s| {
      TokensAccept(s[n + 1..]);
      ProperParts(s, n);
    } else {
      assert s[..n] == s;
    }
  }

  lemma {:induction false} ProperParts(s: string, n: nat)
    requires n < |s| && s[n] == '/'
    ensures ProperlyEscaped(s) <==> ProperlyEscaped(s[..n]) && ProperlyEscaped(s[n + 1..])
    decreases n
  {
    if n == 0 {
      assert s[..0] == [];
    } else if s[0] == '~' && n > 1 && IsTildeDigit(s[1]) {
      ProperParts(s[2..], n - 2);
      assert s[..n][2..] == s[2..][..n - 2] && s[2..][n - 1..] == s[n + 1..];
    } else if s[0] != '~' {
      ProperParts(s[1..], n - 1);
      assert s[..n][1..] == s[1..][..n - 1] && s[1..][n..] == s[n + 1..];
    }
  }

  lemma {:induction false} ToStrAppend(p: Pointer, q: Pointer)
    ensures ToStr(p + q) == ToStr(p) + ToStr(q)
    decreases |p|
  {
    if p == [] {
      assert p + q == q;
    } else {
      hide Escape;
      assert (p + q)[1..] == p[1..] + q;
      ToStrAppend(p[1..], q);
      var e := Escape(p[0]);
      assert e + (ToStr(p[1..]) + ToStr(q)) == e + ToStr(p[1..]) + ToStr(q);
    }
  }
}
