/** The text of a JSON value: dump. */
module JsonSerializer {
  import opened JsonAccess
  import opened JsonLexer
  import opened JsonText
  import opened JsonValue
  import opened StringOrder

  type UInt32 = n: int | 0 <= n < 0x1_0000_0000

  // How a dump is laid out; `show` is the stream's conversion of a floating-point number that is not zero.
  datatype Layout = Layout(pretty: bool, step: UInt32, show: real -> string)

  function Spaces(n: nat): (s: string)
    ensures |s| == n && forall c <- s :: c == ' '
  {
    seq(n, _ => ' ')
  }

  function LineBreak(l: Layout): string {
    if l.pretty then [NEWLINE] else []
  }

  // Unsigned arithmetic wraps around.
  function Deeper(l: Layout, indent: UInt32): UInt32 {
    if l.pretty then (indent + l.step) % 0x1_0000_0000 else indent
  }

  function Shallower(l: Layout, indent: UInt32): UInt32 {
    if l.pretty then (indent - l.step) % 0x1_0000_0000 else indent
  }

  function Magnitude(i: int): nat {
    if i < 0 then -i else i
  }

  function FloatText(f: real, show: real -> string): string {
    if f == 0.0 then "0.0" else show(f)
  }

  function ScalarText(j: Json, l: Layout): string {
    match j
    case Null => "null"
    case Bool(b) => if b then "true" else "false"
    case Int(i) => IntegerText(Magnitude(i), i < 0)
    case UInt(n) => IntegerText(n, false)
    case Float(f) => FloatText(f, l.show)
    case Str(s) => [QUOTE] + Escaped(s) + [QUOTE]
    case _ => ""
  }

  function Dump(j: Json, l: Layout, indent: UInt32): string
    decreases j, 1, 0
  {
    match j
    case Arr(a) =>
      if a == [] then "[]"
      else "[" + LineBreak(l) + Elements(j, l, Deeper(l, indent), 0) + Closing(l, indent, ']')
    case Obj(o) =>
      if o == map[] then "{}"
      else "{" + LineBreak(l) + Members(j, l, Deeper(l, indent), Sorted(o.Keys), true) + Closing(l, indent, '}')
    case _ => ScalarText(j, l)
  }

  function Closing(l: Layout, indent: UInt32, bracket: char): string {
    LineBreak(l) + Spaces(indent) + [bracket]
  }

  // What stands in front of an element or a member.
  function Leading(l: Layout, indent: UInt32, first: bool): string {
    (if first then [] else [','] + LineBreak(l)) + Spaces(indent)
  }

  // The elements from position `i` on.
  function Elements(j: Json, l: Layout, indent: UInt32, i: nat): string
    requires j.Arr?
    decreases j, 0, |j.a| - i
  {
    if i >= |j.a| then []
    else Leading(l, indent, i == 0) + Dump(j.a[i], l, indent) + Elements(j, l, indent, i + 1)
  }

  function Name(k: string, l: Layout): string {
    [QUOTE] + Escaped(k) + [QUOTE] + [':'] + if l.pretty then [' '] else []
  }

  function Members(j: Json, l: Layout, indent: UInt32, keys: seq<string>, first: bool): string
    requires j.Obj? && KeysOf(j.o, keys)
    decreases j, 0, |keys|
  {
    if keys == [] then []
    else
      Leading(l, indent, first) + Name(keys[0], l) + Dump(j.o[keys[0]], l, indent)
      + Members(j, l, indent, keys[1..], false)
  }

  // dump(indent): pretty-printed with the given step, or, for a negative argument, on one line.
  function DumpDocument(j: Json, indent: int, show: real -> string): string
    requires indent < 0x8000_0000
  {
    if indent >= 0 then Dump(j, Layout(true, indent, show), 0) else Dump(j, Layout(false, 0, show), 0)
  }

  // ---- The loops ----

  lemma {:induction false} BackAgain(l: Layout, indent: UInt32)
    ensures Shallower(l, Deeper(l, indent)) == indent
  {
  }

  lemma {:induction false} ElementStep(out: string, j: Json, l: Layout, indent: UInt32, i: nat)
    requires j.Arr? && i < |j.a|
    ensures out + Elements(j, l, indent, i)
         == out + Leading(l, indent, i == 0) + Dump(j.a[i], l, indent) + Elements(j, l, indent, i + 1)
  {
    hide Leading, Dump;
    var a, b, c := Leading(l, indent, i == 0), Dump(j.a[i], l, indent), Elements(j, l, indent, i + 1);
    assert out + (a + b + c) == out + a + b + c;
  }

  lemma {:induction false} NoElementsLeft(j: Json, l: Layout, indent: UInt32)
    requires j.Arr?
    ensures Elements(j, l, indent, |j.a|) == []
  {
  }

  method DumpElements(input: string, j: Json, l: Layout, indent: UInt32) returns (out: string)
    requires j.Arr?
    ensures out == input + Elements(j, l, indent, 0)
    decreases j, 0
  {
    hide Elements, Dump;
    out := input;
    for i := 0 to |j.a|
      invariant out + Elements(j, l, indent, i) == input + Elements(j, l, indent, 0)
    {
      ElementStep(out, j, l, indent, i);
      out := out + Leading(l, indent, i == 0);
      out := DumpValue(out, j.a[i], l, indent);
    }
    NoElementsLeft(j, l, indent);
  }

  lemma {:induction false} MemberStep(out: string, j: Json, l: Layout, indent: UInt32, keys: seq<string>, i: nat)
    requires j.Obj? && i < |keys| && KeysOf(j.o, keys[i..])
    ensures KeysOf(j.o, keys[i + 1..]) && keys[i] in j.o
    ensures out + Members(j, l, indent, keys[i..], i == 0)
         == out + Leading(l, indent, i == 0) + Name(keys[i], l) + Dump(j.o[keys[i]], l, indent)
            + Members(j, l, indent, keys[i + 1..], false)
  {
    hide Leading, Name, Dump;
    assert keys[i..][0] == keys[i] && keys[i..][1..] == keys[i + 1..];
    var a, b, c := Leading(l, indent, i == 0), Name(keys[i], l), Dump(j.o[keys[i]], l, indent);
    var d := Members(j, l, indent, keys[i + 1..], false);
    assert out + (a + b + c + d) == out + a + b + c + d;
  }

  lemma {:induction false} NoMembersLeft(j: Json, l: Layout, indent: UInt32, first: bool)
    requires j.Obj?
    ensures Members(j, l, indent, [], first) == []
  {
  }

  method DumpMembers(input: string, j: Json, l: Layout, indent: UInt32) returns (out: string)
    requires j.Obj?
    ensures out == input + Members(j, l, indent, Sorted(j.o.Keys), true)
    decreases j, 0
  {
    SortedKeys(j.o);
    var keys := Sorted(j.o.Keys);
    hide Members, Dump, Sorted, KeysOf, Leading, Name;
    out := input;
    assert keys[0..] == keys;
    for i := 0 to |keys|
      invariant KeysOf(j.o, keys[i..])
      invariant out + Members(j, l, indent, keys[i..], i == 0) == input + Members(j, l, indent, keys, true)
    {
      MemberStep(out, j, l, indent, keys, i);
      out := out + Leading(l, indent, i == 0);
      out := out + Name(keys[i], l);
      out := DumpValue(out, j.o[keys[i]], l, indent);
    }
    assert keys[|keys|..] == [];
    NoMembersLeft(j, l, indent, |keys| == 0);
  }

  method DumpContainer(input: string, j: Json, l: Layout, indent: UInt32) returns (out: string)
    requires (j.Arr? && j.a != []) || (j.Obj? && |j.o| > 0)
    ensures out == input + Dump(j, l, indent)
    decreases j, 1
  {
    hide Members, Elements, Closing, Sorted;
    var opening := (if j.Arr? then "[" else "{") + LineBreak(l);
    var newIndent := Deeper(l, indent);
    out := input + opening;
    ghost var middle: string;
    if j.Arr? {
      out := DumpElements(out, j, l, newIndent);
      middle := Elements(j, l, newIndent, 0);
    } else {
      SortedKeys(j.o);
      out := DumpMembers(out, j, l, newIndent);
      middle := Members(j, l, newIndent, Sorted(j.o.Keys), true);
    }
    newIndent := Shallower(l, newIndent);
    BackAgain(l, indent);
    var closing := Closing(l, newIndent, if j.Arr? then ']' else '}');
    assert Dump(j, l, indent) == opening + middle + closing;
    assert input + opening + middle + closing == input + (opening + middle + closing);
    out := out + closing;
  }

  method DumpValue(input: string, j: Json, l: Layout, indent: UInt32) returns (out: string)
    ensures out == input + Dump(j, l, indent)
    decreases j, 2
  {
    hide Members, Elements, ScalarText;
    match j {
      case Arr(a) =>
        if a == [] {
          out := input + "[]";
        } else {
          out := DumpContainer(input, j, l, indent);
        }
      case Obj(o) =>
        if |o| == 0 {
          out := input + "{}";
        } else {
          out := DumpContainer(input, j, l, indent);
        }
      case _ => out := input + ScalarText(j, l);
    }
  }
}
