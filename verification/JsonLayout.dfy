/** The text of a dump, as a text of the grammar: where it breaks lines, how far it indents, and when it is JSON text of
    RFC 7159. */
module JsonLayout {
  import opened Decimal
  import opened JsonAccess
  import opened JsonGrammar
  import opened JsonLexer
  import opened JsonParser
  import opened JsonResult
  import opened JsonSerializer
  import opened JsonText
  import opened JsonValue
  import opened StringOrder

  // At a depth of the value: nothing, or a new line and so many blanks; the count is an unsigned integer of 32 bits.
  function Blanks(l: Layout, depth: nat): nat {
    if l.pretty then l.step * depth % 0x1_0000_0000 else 0
  }

  function Gap(l: Layout, depth: nat): string {
    if l.pretty then "\n" + seq(Blanks(l, depth), _ => ' ') else ""
  }

  // Every element and every member stands on a line of its own, one deeper than the bracket that closes them.
  function TreeOf(j: Json, l: Layout, depth: nat): Syntax
    decreases j, 1, 0
  {
    match j
    case Null => Word("null")
    case Bool(b) => Word(if b then "true" else "false")
    case Int(i) => Number(IntegerText(Magnitude(i), i < 0))
    case UInt(n) => Number(IntegerText(n, false))
    case Float(f) => Number(if f == 0.0 then "0.0" else l.show(f))
    case Str(s) => Text(Escaped(s))
    case Arr(a) => if a == [] then EmptyArray("") else Array(ItemsOf(j, l, depth, 0))
    case Obj(o) =>
      if o == map[] then EmptyObject("")
      else
        SortedNotEmpty(o);
        Object(MembersFrom(j, l, depth, Sorted(o.Keys)))
  }

  function ItemsOf(j: Json, l: Layout, depth: nat, i: nat): Items
    requires j.Arr? && i < |j.a|
    decreases j, 0, |j.a| - i
  {
    var v := TreeOf(j.a[i], l, depth + 1);
    if i + 1 == |j.a| then LastItem(Gap(l, depth + 1), v, Gap(l, depth))
    else MoreItems(Gap(l, depth + 1), v, "", ItemsOf(j, l, depth, i + 1))
  }

  function MembersFrom(j: Json, l: Layout, depth: nat, keys: seq<string>): Members
    requires j.Obj? && keys != [] && KeysOf(j.o, keys)
    decreases j, 0, |keys|
  {
    var k, v := Key(Gap(l, depth + 1), Escaped(keys[0]), ""), TreeOf(j.o[keys[0]], l, depth + 1);
    var behindColon := if l.pretty then " " else "";
    if |keys| == 1 then LastMember(k, behindColon, v, Gap(l, depth))
    else MoreMembers(k, behindColon, v, "", MembersFrom(j, l, depth, keys[1..]))
  }

  lemma {:induction false} OneDeeper(l: Layout, depth: nat)
    ensures Deeper(l, Blanks(l, depth)) == Blanks(l, depth + 1)
  {
    var a := l.step * depth;
    assert l.step * (depth + 1) == a + l.step;
    var q, r := a / 0x1_0000_0000, a % 0x1_0000_0000;
    assert a + l.step == r + l.step + q * 0x1_0000_0000;
    Multiples(r + l.step, q);
  }

  lemma {:induction false} Multiples(a: nat, q: nat)
    ensures (a + q * 0x1_0000_0000) % 0x1_0000_0000 == a % 0x1_0000_0000
  {
    if q > 0 {
      Multiples(a, q - 1);
      assert a + q * 0x1_0000_0000 == a + (q - 1) * 0x1_0000_0000 + 0x1_0000_0000;
    }
  }

  lemma {:induction false} GapIs(l: Layout, depth: nat)
    ensures Gap(l, depth) == LineBreak(l) + Spaces(Blanks(l, depth))
  {
    assert !l.pretty ==> Spaces(0) == "";
    hide Blanks;
  }

  // ---- The text of a dump ----

  lemma {:induction false} MoreElements(j: Json, l: Layout, inner: UInt32, i: nat, closing: string)
    requires j.Arr? && i + 1 < |j.a|
    ensures var b := LineBreak(l) + Spaces(inner);
            b + Dump(j.a[i], l, inner) + Elements(j, l, inner, i + 1) + closing
            == b + Dump(j.a[i], l, inner) + "" + [',']
               + (b + Dump(j.a[i + 1], l, inner) + Elements(j, l, inner, i + 2) + closing)
  {
    hide Spaces, LineBreak, Dump;
    assert Elements(j, l, inner, i + 1)
        == Leading(l, inner, false) + Dump(j.a[i + 1], l, inner) + Elements(j, l, inner, i + 2);
  }

  lemma {:induction false} ElementsAreItems(j: Json, l: Layout, depth: nat, i: nat)
    requires j.Arr? && i < |j.a|
    ensures var inner := Blanks(l, depth + 1);
            LineBreak(l) + Spaces(inner) + Dump(j.a[i], l, inner) + Elements(j, l, inner, i + 1)
            + Closing(l, Blanks(l, depth), ']')
            == ItemsWritten(ItemsOf(j, l, depth, i))
    decreases j, 0, |j.a| - i
  {
    var inner, items := Blanks(l, depth + 1), ItemsOf(j, l, depth, i);
    DumpIsWritten(j.a[i], l, depth + 1);
    GapIs(l, depth);
    GapIs(l, depth + 1);
    hide Spaces, LineBreak, Gap, Blanks, Dump, Written, TreeOf;
    if i + 1 == |j.a| {
      assert Elements(j, l, inner, i + 1) == "";
      LastWritten(items);
    } else {
      hide Elements, Closing;
      ElementsAreItems(j, l, depth, i + 1);
      MoreElements(j, l, inner, i, Closing(l, Blanks(l, depth), ']'));
      MoreWritten(items, "");
      hide ItemsWritten;
      var w, more := ItemsWritten(items), ItemsWritten(items.more);
      assert w + "" == w && more + "" == more;
    }
  }

  lemma {:induction false} Regrouped(a: string, b: string, c: string, d: string, e: string, f: string)
    ensures a + b + (c + d + e) + f == a + (b + c + d + e + f)
  {
  }

  lemma {:induction false} FirstElement(j: Json, l: Layout, inner: UInt32)
    requires j.Arr? && j.a != []
    ensures Elements(j, l, inner, 0) == Spaces(inner) + Dump(j.a[0], l, inner) + Elements(j, l, inner, 1)
  {
    hide Spaces, LineBreak, Dump;
    assert Leading(l, inner, true) == Spaces(inner);
  }

  lemma {:induction false} ArrayIsWritten(j: Json, l: Layout, depth: nat)
    requires j.Arr? && j.a != []
    ensures Dump(j, l, Blanks(l, depth)) == Written(TreeOf(j, l, depth))
    decreases j, 0, |j.a| + 1
  {
    OneDeeper(l, depth);
    ElementsAreItems(j, l, depth, 0);
    var inner, closing := Blanks(l, depth + 1), Closing(l, Blanks(l, depth), ']');
    FirstElement(j, l, inner);
    hide Blanks, Gap, LineBreak, ItemsOf, Closing, ItemsWritten, Spaces, Elements;
    Regrouped("[", LineBreak(l), Spaces(inner), Dump(j.a[0], l, inner), Elements(j, l, inner, 1), closing);
    hide Deeper;
    ArrayText(j, l, depth, closing);
  }

  lemma {:induction false} ArrayText(j: Json, l: Layout, depth: nat, closing: string)
    requires j.Arr? && j.a != []
    ensures Dump(j, l, Blanks(l, depth)) == "[" + LineBreak(l) + Elements(j, l, Deeper(l, Blanks(l, depth)), 0)
                                            + Closing(l, Blanks(l, depth), ']')
    ensures Written(TreeOf(j, l, depth)) == "[" + ItemsWritten(ItemsOf(j, l, depth, 0))
  {
    hide Blanks, Gap, LineBreak, ItemsOf, Closing, ItemsWritten, Elements, Deeper;
  }

  // A member behind its line break and blanks, and what follows it.
  function MemberText(j: Json, l: Layout, inner: UInt32, k: string): string
    requires j.Obj? && k in j.o
  {
    LineBreak(l) + Spaces(inner) + Name(k, l) + Dump(j.o[k], l, inner)
  }

  lemma {:induction false} KeyIs(l: Layout, depth: nat, k: string)
    ensures var key := Key(Gap(l, depth), Escaped(k), "");
            KeyWritten(key) + (if l.pretty then " " else "") == LineBreak(l) + Spaces(Blanks(l, depth)) + Name(k, l)
  {
    GapIs(l, depth);
    hide Blanks, Gap, LineBreak, Spaces, Escaped;
  }

  // The text of the members `keys`, from the line break in front of the first to the closing brace.
  function MembersText(j: Json, l: Layout, inner: UInt32, keys: seq<string>, closing: string): string
    requires j.Obj? && keys != [] && KeysOf(j.o, keys)
  {
    MemberText(j, l, inner, keys[0]) + JsonSerializer.Members(j, l, inner, keys[1..], false) + closing
  }

  lemma {:induction false} Commas(h: string, b: string, sp: string, n: string, d: string, m: string, c: string)
    ensures h + ([','] + b + sp + n + d + (m + c)) == h + "" + [','] + (b + sp + n + d + m + c)
  {
  }

  lemma {:induction false} LeadingIs(l: Layout, inner: UInt32)
    ensures Leading(l, inner, false) == [','] + LineBreak(l) + Spaces(inner)
    ensures Leading(l, inner, true) == Spaces(inner)
  {
  }

  lemma {:induction false} NextMember(j: Json, l: Layout, inner: UInt32, keys: seq<string>, closing: string)
    requires j.Obj? && |keys| > 1 && KeysOf(j.o, keys)
    ensures KeysOf(j.o, keys[1..])
    ensures MembersText(j, l, inner, keys, closing)
         == MemberText(j, l, inner, keys[0]) + "" + [','] + MembersText(j, l, inner, keys[1..], closing)
  {
    var more, head := keys[1..], MemberText(j, l, inner, keys[0]);
    MembersSplit(j, l, inner, more, false, closing);
    LeadingIs(l, inner);
    var n, d := Name(more[0], l), Dump(j.o[more[0]], l, inner);
    var rest := JsonSerializer.Members(j, l, inner, more[1..], false);
    hide Spaces, LineBreak, Dump, Name, JsonSerializer.Members, Leading;
    Commas(head, LineBreak(l), Spaces(inner), n, d, rest, closing);
    TwoAtOnce(head, JsonSerializer.Members(j, l, inner, more, false), closing);
  }

  lemma {:induction false} TwoAtOnce(a: string, b: string, c: string)
    ensures a + b + c == a + (b + c)
  {
  }

  lemma {:induction false} OneMember(j: Json, l: Layout, inner: UInt32, keys: seq<string>, closing: string)
    requires j.Obj? && |keys| == 1 && KeysOf(j.o, keys)
    ensures MembersText(j, l, inner, keys, closing) == MemberText(j, l, inner, keys[0]) + closing
  {
    hide MemberText;
    assert keys[1..] == [] && JsonSerializer.Members(j, l, inner, [], false) == "";
  }

  lemma {:induction false} MembersAreMembers(j: Json, l: Layout, depth: nat, keys: seq<string>)
    requires j.Obj? && keys != [] && KeysOf(j.o, keys)
    ensures MembersText(j, l, Blanks(l, depth + 1), keys, Closing(l, Blanks(l, depth), '}'))
         == MembersWritten(MembersFrom(j, l, depth, keys))
    decreases j, 0, |keys|
  {
    var inner, m := Blanks(l, depth + 1), MembersFrom(j, l, depth, keys);
    var closing := Closing(l, Blanks(l, depth), '}');
    DumpIsWritten(j.o[keys[0]], l, depth + 1);
    KeyIs(l, depth + 1, keys[0]);
    var head := MemberText(j, l, inner, keys[0]);
    hide Spaces, LineBreak, Gap, Blanks, Dump, Written, TreeOf, Name, KeyWritten;
    assert head == KeyWritten(m.key) + m.before + Written(m.value);
    hide MemberText;
    if |keys| == 1 {
      GapIs(l, depth);
      OneMember(j, l, inner, keys, closing);
      LastMemberIs(m);
      assert closing == m.after + ['}'];
    } else {
      hide MembersText;
      NextMember(j, l, inner, keys, closing);
      MembersAreMembers(j, l, depth, keys[1..]);
      MoreMembersIs(m);
    }
  }

  lemma {:induction false} MoreMembersIs(m: Members)
    requires m.MoreMembers?
    ensures MembersWritten(m)
         == KeyWritten(m.key) + m.before + Written(m.value) + m.after + [','] + MembersWritten(m.others)
  {
    hide Written, KeyWritten;
  }

  lemma {:induction false} LastMemberIs(m: Members)
    requires m.LastMember?
    ensures MembersWritten(m) == KeyWritten(m.key) + m.before + Written(m.value) + m.after + ['}']
  {
    hide Written, KeyWritten;
  }

  lemma {:induction false} Regrouped2(a: string, b: string, m: string, f: string, c: string, n: string, d: string,
                                      e: string)
    requires m + f == c + n + d + (e + f)
    ensures a + b + m + f == a + (b + c + n + d + e + f)
  {
    assert a + b + m + f == a + b + (m + f);
  }

  lemma {:induction false} ObjectText(j: Json, l: Layout, depth: nat)
    requires j.Obj? && j.o != map[] && Sorted(j.o.Keys) != [] && KeysOf(j.o, Sorted(j.o.Keys))
    ensures Dump(j, l, Blanks(l, depth))
         == "{" + LineBreak(l) + JsonSerializer.Members(j, l, Deeper(l, Blanks(l, depth)), Sorted(j.o.Keys), true)
            + Closing(l, Blanks(l, depth), '}')
    ensures Written(TreeOf(j, l, depth)) == "{" + MembersWritten(MembersFrom(j, l, depth, Sorted(j.o.Keys)))
  {
    hide Blanks, Gap, LineBreak, MembersFrom, Closing, MembersWritten, Sorted, Deeper, JsonSerializer.Members;
  }

  lemma {:induction false} ObjectIsWritten(j: Json, l: Layout, depth: nat)
    requires j.Obj? && j.o != map[]
    ensures Dump(j, l, Blanks(l, depth)) == Written(TreeOf(j, l, depth))
    decreases j, 0, |j.o| + 1
  {
    SortedNotEmpty(j.o);
    SortedKeys(j.o);
    var keys, inner, closing := Sorted(j.o.Keys), Blanks(l, depth + 1), Closing(l, Blanks(l, depth), '}');
    OneDeeper(l, depth);
    MembersAreMembers(j, l, depth, keys);
    MembersSplit(j, l, inner, keys, true, closing);
    LeadingIs(l, inner);
    ObjectText(j, l, depth);
    hide *;
    hide Blanks, Gap, LineBreak, MembersFrom, Closing, MembersWritten, Sorted, Name, Spaces, JsonSerializer.Members;
    Regrouped2("{", LineBreak(l), JsonSerializer.Members(j, l, inner, keys, true), closing, Spaces(inner),
               Name(keys[0], l), Dump(j.o[keys[0]], l, inner),
               JsonSerializer.Members(j, l, inner, keys[1..], false));
    assert MembersText(j, l, inner, keys, closing) == LineBreak(l) + Spaces(inner) + Name(keys[0], l)
        + Dump(j.o[keys[0]], l, inner) + JsonSerializer.Members(j, l, inner, keys[1..], false) + closing by {
      MembersTextIs(j, l, inner, keys, closing);
    }
  }

  lemma {:induction false} MembersTextIs(j: Json, l: Layout, inner: UInt32, keys: seq<string>, closing: string)
    requires j.Obj? && keys != [] && KeysOf(j.o, keys)
    ensures MembersText(j, l, inner, keys, closing) == LineBreak(l) + Spaces(inner) + Name(keys[0], l)
              + Dump(j.o[keys[0]], l, inner) + JsonSerializer.Members(j, l, inner, keys[1..], false) + closing
  {
    hide LineBreak, Spaces, Name, Dump, JsonSerializer.Members;
  }

  lemma {:induction false} DumpIsWritten(j: Json, l: Layout, depth: nat)
    ensures Dump(j, l, Blanks(l, depth)) == Written(TreeOf(j, l, depth))
    decreases j, 1, 0
  {
    hide Blanks, Gap, LineBreak, Spaces, ItemsOf, Escaped, IntegerText;
    match j
    case Arr(a) =>
      if a == [] {
        assert ['['] + "" + [']'] == "[]";
      } else {
        ArrayIsWritten(j, l, depth);
      }
    case Obj(o) =>
      if o == map[] {
        assert ['{'] + "" + ['}'] == "{}";
      } else {
        ObjectIsWritten(j, l, depth);
      }
    case _ =>
  }

  // ---- When it is text of the RFC ----

  // Every string and every name is of the given kind.
  ghost predicate AllStrings(j: Json, kind: string -> bool) {
    match j
    case Str(s) => kind(s)
    case Arr(a) => forall i :: 0 <= i < |a| ==> AllStrings(a[i], kind)
    case Obj(o) => forall k :: k in o ==> kind(k) && AllStrings(o[k], kind)
    case _ => true
  }

  // The blanks of a dump are gaps of the one kind, and an escaped string is content of the other if the string is of
  // the third.
  ghost predicate Suits(gap: string -> bool, content: string -> bool, kind: string -> bool) {
    && (forall l, depth :: gap(Gap(l, depth))) && gap("") && gap(" ")
    && forall s :: content(Escaped(s)) <==> kind(s)
  }

  lemma {:induction false} IntegerIsNumber(n: nat, negative: bool)
    ensures IsNumber(IntegerText(n, negative))
  {
    var t := NumberText(if negative then "-" else "", ToString(n), "", "");
    assert t.Valid();
    assert t.Text() == IntegerText(n, negative);
    hide ToString;
  }

  lemma {:induction false} ItemsShapedIff(j: Json, l: Layout, depth: nat, i: nat, g: string -> bool, c: string -> bool,
                                          kind: string -> bool)
    requires j.Arr? && i < |j.a| && FloatsAreNumbers(j, l.show) && Suits(g, c, kind)
    ensures ItemsShaped(ItemsOf(j, l, depth, i), g, c) <==> forall n :: i <= n < |j.a| ==> AllStrings(j.a[n], kind)
    decreases j, 0, |j.a| - i
  {
    TreeShapedIff(j.a[i], l, depth + 1, g, c, kind);
    hide Gap, TreeOf, Shaped, Escaped;
    if i + 1 < |j.a| {
      ItemsShapedIff(j, l, depth, i + 1, g, c, kind);
    }
    hide ItemsShaped, AllStrings, FloatsAreNumbers;
  }

  lemma {:induction false} MembersShapedIff(j: Json, l: Layout, depth: nat, keys: seq<string>, g: string -> bool,
                                            c: string -> bool, kind: string -> bool)
    requires j.Obj? && keys != [] && KeysOf(j.o, keys) && FloatsAreNumbers(j, l.show) && Suits(g, c, kind)
    ensures MembersShaped(MembersFrom(j, l, depth, keys), g, c)
       <==> forall k <- keys :: kind(k) && AllStrings(j.o[k], kind)
    decreases j, 0, |keys|
  {
    TreeShapedIff(j.o[keys[0]], l, depth + 1, g, c, kind);
    hide Gap, TreeOf, Shaped, Escaped;
    assert keys == [keys[0]] + keys[1..];
    if |keys| > 1 {
      MembersShapedIff(j, l, depth, keys[1..], g, c, kind);
    }
    hide AllStrings, FloatsAreNumbers;
  }

  lemma {:induction false} ArrayShaped(j: Json, l: Layout, depth: nat, g: string -> bool, c: string -> bool,
                                       kind: string -> bool)
    requires j.Arr? && j.a != []
    ensures Shaped(TreeOf(j, l, depth), g, c) <==> ItemsShaped(ItemsOf(j, l, depth, 0), g, c)
    ensures AllStrings(j, kind) <==> forall n :: 0 <= n < |j.a| ==> AllStrings(j.a[n], kind)
  {
    hide ItemsOf, ItemsShaped;
  }

  lemma {:induction false} ObjectTree(j: Json, l: Layout, depth: nat)
    requires j.Obj? && j.o != map[]
    ensures var keys := Sorted(j.o.Keys);
            keys != [] && KeysOf(j.o, keys) && TreeOf(j, l, depth) == Object(MembersFrom(j, l, depth, keys))
  {
    SortedNotEmpty(j.o);
    SortedKeys(j.o);
    hide MembersFrom, Sorted, KeysOf;
  }

  lemma {:induction false} ObjectStrings(o: map<string, Json>, keys: seq<string>, kind: string -> bool)
    requires KeysOf(o, keys) && forall k :: k in o <==> k in keys
    ensures AllStrings(Obj(o), kind) <==> forall k <- keys :: kind(k) && AllStrings(o[k], kind)
  {
  }

  lemma {:induction false} ObjectShaped(j: Json, l: Layout, depth: nat, g: string -> bool, c: string -> bool,
                                        kind: string -> bool)
    requires j.Obj? && j.o != map[]
    ensures var keys := Sorted(j.o.Keys);
            && keys != [] && KeysOf(j.o, keys)
            && (Shaped(TreeOf(j, l, depth), g, c) <==> MembersShaped(MembersFrom(j, l, depth, keys), g, c))
            && (AllStrings(j, kind) <==> forall k <- keys :: kind(k) && AllStrings(j.o[k], kind))
  {
    ObjectTree(j, l, depth);
    ObjectStrings(j.o, Sorted(j.o.Keys), kind);
    hide MembersFrom, MembersShaped, Sorted, AllStrings, TreeOf, KeysOf;
  }

  lemma {:induction false} LeafShaped(j: Json, l: Layout, depth: nat, g: string -> bool, c: string -> bool,
                                      kind: string -> bool)
    requires FloatsAreNumbers(j, l.show) && ((!j.Arr? && !j.Obj?) || j == Arr([]) || j == Obj(map[]))
    requires Suits(g, c, kind)
    ensures Shaped(TreeOf(j, l, depth), g, c) <==> AllStrings(j, kind)
  {
    hide Gap, Escaped, IntegerText, IsNumber;
    match j
    case Int(i) => IntegerIsNumber(Magnitude(i), i < 0);
    case UInt(n) => IntegerIsNumber(n, false);
    case _ =>
  }

  lemma {:induction false} TreeShapedIff(j: Json, l: Layout, depth: nat, g: string -> bool, c: string -> bool,
                                         kind: string -> bool)
    requires FloatsAreNumbers(j, l.show) && Suits(g, c, kind)
    ensures Shaped(TreeOf(j, l, depth), g, c) <==> AllStrings(j, kind)
    decreases j, 1, 0
  {
    hide *;
    if j.Arr? && j.a != [] {
      ArrayShaped(j, l, depth, g, c, kind);
      ItemsShapedIff(j, l, depth, 0, g, c, kind);
    } else if j.Obj? && j.o != map[] {
      ObjectShaped(j, l, depth, g, c, kind);
      MembersShapedIff(j, l, depth, Sorted(j.o.Keys), g, c, kind);
    } else {
      LeafShaped(j, l, depth, g, c, kind);
    }
  }

  lemma {:induction false} RfcSuits()
    ensures Suits(IsRfcGap, IsRfcContent, IsUtf8Text) && Suits(IsGap, IsContent, IsAnything)
  {
    forall l, depth
      ensures IsRfcGap(Gap(l, depth)) && IsGap(Gap(l, depth))
    {
      RfcGapIsGap(Gap(l, depth));
    }
    RfcGapIsGap(" ");
    forall s
      ensures IsRfcContent(Escaped(s)) <==> IsUtf8Text(s)
      ensures IsContent(Escaped(s))
    {
      EscapedIsRfcIff(s);
      UnquotedEscaped(s);
    }
    hide Gap, IsGap, IsRfcGap, Escaped, IsRfcContent, IsUtf8Text, IsContent;
  }

  lemma {:induction false} AnyStrings(j: Json)
    ensures AllStrings(j, IsAnything)
  {
    match j
    case Arr(a) =>
      forall i | 0 <= i < |a|
        ensures AllStrings(a[i], IsAnything)
      {
        AnyStrings(a[i]);
      }
    case Obj(o) =>
      forall k | k in o
        ensures AllStrings(o[k], IsAnything)
      {
        AnyStrings(o[k]);
      }
    case _ =>
  }

  // dump(indent) writes a line for every element and every member, indented by so many blanks for each level above it,
  // or all on one line; and no other blanks but one behind a colon.
  lemma {:induction false} DumpLayout(j: Json, indent: int, show: real -> string)
    requires indent < 0x8000_0000
    ensures var l := Layout(indent >= 0, if indent >= 0 then indent else 0, show);
            DumpDocument(j, indent, show) == Written(TreeOf(j, l, 0))
  {
    var l := Layout(indent >= 0, if indent >= 0 then indent else 0, show);
    DumpIsWritten(j, l, 0);
    hide Dump, Written, TreeOf;
  }

  lemma {:induction false} PlainDocument(t: Syntax)
    ensures var d := Document("", t, "", "");
            && d.Text() == Written(t)
            && (Shaped(t, IsGap, IsContent) ==> d.Accepted())
            && (d.IsRfc() <==> Shaped(t, IsRfcGap, IsRfcContent))
  {
    RfcSuits();
    hide Written, Shaped, IsRfcContent, IsContent;
    var d := Document("", t, "", "");
    assert d.Text() == Written(t);
  }

  // A dump is JSON text of the RFC exactly if all strings and names in the value are UTF-8.
  lemma {:induction false} DumpIsRfcIff(j: Json, indent: int, show: real -> string)
    requires indent < 0x8000_0000 && FloatsAreNumbers(j, show)
    ensures IsRfcText(DumpDocument(j, indent, show)) <==> AllStrings(j, IsUtf8Text)
  {
    var l := Layout(indent >= 0, if indent >= 0 then indent else 0, show);
    hide *;
    DumpLayout(j, indent, show);
    RfcSuits();
    AnyStrings(j);
    var t := TreeOf(j, l, 0);
    TreeShapedIff(j, l, 0, IsRfcGap, IsRfcContent, IsUtf8Text);
    TreeShapedIff(j, l, 0, IsGap, IsContent, IsAnything);
    PlainDocument(t);
    RfcIff(Document("", t, "", ""));
    RfcTextIff(Document("", t, "", ""));
  }

  // A string that is not UTF-8 is written as it is.
  lemma {:induction false} DumpOfRawByte(indent: int, show: real -> string)
    requires indent < 0x8000_0000
    ensures !IsRfcText(DumpDocument(Str(['\U{ff}']), indent, show))
  {
    var s := ['\U{ff}'];
    assert s[..1] == s;
    assert !IsUtf8Text(s);
    assert FloatsAreNumbers(Str(s), show) && !AllStrings(Str(s), IsUtf8Text);
    DumpIsRfcIff(Str(s), indent, show);
    hide *;
  }
}
