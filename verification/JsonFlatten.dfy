/** Flattening a JSON value to a map from pointers to primitives, and rebuilding it. */
module JsonFlatten {
  import opened Decimal
  import opened JsonAccess
  import opened JsonPointer
  import opened JsonResult
  import opened JsonValue
  import opened StringOrder

  // ---- flatten ----

  // The members that `value` adds to `result`, under names that begin with `path`.
  function FlattenInto(result: map<string, Json>, path: string, value: Json): map<string, Json>
    decreases value, 1, 0
  {
    match value
    case Arr(a) => if a == [] then result[path := Null] else FlattenElements(result, path, value, 0)
    case Obj(o) => if o == map[] then result[path := Null] else FlattenMembers(result, path, value, Sorted(o.Keys))
    case _ => result[path := value]
  }

  function FlattenElements(result: map<string, Json>, path: string, value: Json, i: nat): map<string, Json>
    requires value.Arr?
    decreases value, 0, |value.a| - i
  {
    if i >= |value.a| then result
    else FlattenElements(FlattenInto(result, path + "/" + ToString(i), value.a[i]), path, value, i + 1)
  }

  function FlattenMembers(result: map<string, Json>, path: string, value: Json, keys: seq<string>): map<string, Json>
    requires value.Obj? && KeysOf(value.o, keys)
    decreases value, 0, |keys|
  {
    if keys == [] then result
    else FlattenMembers(FlattenInto(result, path + "/" + Escape(keys[0]), value.o[keys[0]]), path, value, keys[1..])
  }

  function Flatten(j: Json): Json {
    Obj(FlattenInto(map[], "", j))
  }

  // ---- unflatten ----

  // Assignment through get_and_create: what is null becomes an array when the token is 0, else an object.
  function CreateAt(j: Json, p: Pointer, v: Json): Result<Json>
    decreases |p|
  {
    if p == [] then Ok(v)
    else
      match j
      case Null => if p[0] == "0" then CreateInArray([], p, v) else CreateInObject(map[], p, v)
      case Obj(o) => CreateInObject(o, p, v)
      case Arr(a) => CreateInArray(a, p, v)
      case _ => Err(DomainError)
  }

  function MemberOf(o: map<string, Json>, k: string): Json {
    if k in o then o[k] else Null
  }

  function CreateInObject(o: map<string, Json>, p: Pointer, v: Json): Result<Json>
    requires p != []
    decreases |p|, 0
  {
    WrapObj(o, p[0], CreateAt(MemberOf(o, p[0]), p[1..], v))
  }

  // A negative index would make the array grow without bound.
  function CreateInArray(a: seq<Json>, p: Pointer, v: Json): Result<Json>
    requires p != []
    decreases |p|, 0
  {
    match Stoi(p[0])
    case Value(n) =>
      if n < 0 then Err(BadAllocation)
      else WrapArr(Grown(a, n + 1), n, CreateAt(Grown(a, n + 1)[n], p[1..], v))
    case NotANumber => Err(InvalidArgument)
    case OutOfRange => Err(Error.OutOfRange)
  }

  predicate Primitive(j: Json) {
    !j.Arr? && !j.Obj?
  }

  // One member of the flat object.
  function CreateMember(result: Json, name: string, v: Json): Result<Json> {
    if !Primitive(v) then Err(DomainError)
    else
      match Split(name)
      case Ok(p) => CreateAt(result, p, v)
      case Err(e) => Err(e)
  }

  function UnflattenFrom(result: Json, m: map<string, Json>, keys: seq<string>): Result<Json>
    requires KeysOf(m, keys)
    decreases |keys|
  {
    if keys == [] then Ok(result)
    else
      match CreateMember(result, keys[0], m[keys[0]])
      case Ok(r) => UnflattenFrom(r, m, keys[1..])
      case Err(e) => Err(e)
  }

  function Unflatten(value: Json): Result<Json> {
    if value.Obj? then UnflattenFrom(Null, value.o, Sorted(value.o.Keys)) else Err(DomainError)
  }

  // ---- The leaves of a value ----

  // The token is the numeral of a position.
  predicate IsIndex(token: string, size: nat) {
    AllDigits(token) && Numeral(token) < size && ToString(Numeral(token)) == token
  }

  // What flattening writes for the place `p`.
  function LeafOf(j: Json, p: Pointer): (r: Option<Json>)
    ensures r.Some? ==> Primitive(r.value)
    decreases |p|
  {
    match j
    case Arr(a) =>
      if a == [] then (if p == [] then Some(Null) else None)
      else if p != [] && IsIndex(p[0], |a|) then LeafOf(a[Numeral(p[0])], p[1..]) else None
    case Obj(o) =>
      if o == map[] then (if p == [] then Some(Null) else None)
      else if p != [] && p[0] in o then LeafOf(o[p[0]], p[1..]) else None
    case _ => if p == [] then Some(j) else None
  }

  function Lookup(m: map<string, Json>, s: string): Option<Json> {
    if s in m then Some(m[s]) else None
  }

  function Or(a: Option<Json>, b: Option<Json>): Option<Json> {
    if a.Some? then a else b
  }

  // The leaf of `j` at the place `w`, when `j` stands at `q`.
  function Below(j: Json, q: Pointer, w: Pointer): Option<Json> {
    if q <= w then LeafOf(j, w[|q|..]) else None
  }

  lemma {:induction false} ToStrInjective(p: Pointer, q: Pointer)
    requires ToStr(p) == ToStr(q)
    ensures p == q
  {
    SplitOfPrinted(p);
    SplitOfPrinted(q);
  }

  // ---- What flattening writes ----

  lemma {:induction false} OneEntry(result: map<string, Json>, q: Pointer, j: Json, w: Pointer)
    requires Primitive(j) || j == Arr([]) || j == Obj(map[])
    ensures Lookup(FlattenInto(result, ToStr(q), j), ToStr(w)) == Or(Below(j, q, w), Lookup(result, ToStr(w)))
  {
    if q == w {
      assert w[|q|..] == [];
    } else {
      if ToStr(q) == ToStr(w) {
        ToStrInjective(q, w);
      }
      hide ToStr;
      if q <= w {
        assert w == q + w[|q|..];
      }
    }
  }

  // The elements from position `i` on.
  function BelowElements(a: seq<Json>, q: Pointer, w: Pointer, i: nat): Option<Json> {
    if q < w && IsIndex(w[|q|], |a|) && Numeral(w[|q|]) >= i then LeafOf(a[Numeral(w[|q|])], w[|q| + 1..]) else None
  }

  function BelowMembers(o: map<string, Json>, q: Pointer, w: Pointer, keys: seq<string>): Option<Json>
    requires KeysOf(o, keys)
  {
    if q < w && w[|q|] in keys then LeafOf(o[w[|q|]], w[|q| + 1..]) else None
  }

  lemma {:induction false} BelowOneElement(a: seq<Json>, q: Pointer, w: Pointer, i: nat)
    requires i < |a|
    ensures BelowElements(a, q, w, i) == Or(BelowElements(a, q, w, i + 1), Below(a[i], q + [ToString(i)], w))
  {
    NumeralOfToString(i);
    hide LeafOf, Numeral, ToString;
    var r := q + [ToString(i)];
    if q < w {
      assert w == q + [w[|q|]] + w[|q| + 1..];
    }
    if r <= w {
      assert w[|q|] == r[|q|] && q == w[..|q|];
    }
  }

  lemma {:induction false} BelowOneMember(o: map<string, Json>, q: Pointer, w: Pointer, keys: seq<string>)
    requires keys != [] && KeysOf(o, keys)
    ensures var k := keys[0];
            BelowMembers(o, q, w, keys) == Or(BelowMembers(o, q, w, keys[1..]), Below(o[k], q + [k], w))
  {
    hide LeafOf;
    var k := keys[0];
    var r := q + [k];
    if q < w {
      assert w == q + [w[|q|]] + w[|q| + 1..];
    }
    if r <= w {
      assert w[|q|] == r[|q|] && q == w[..|q|];
    }
  }

  lemma {:induction false} BelowContainer(j: Json, q: Pointer, w: Pointer)
    ensures j.Arr? && j.a != [] ==> Below(j, q, w) == BelowElements(j.a, q, w, 0)
    ensures j.Obj? && j.o != map[] ==> Below(j, q, w) == BelowMembers(j.o, q, w, Sorted(j.o.Keys))
  {
    hide IsIndex;
    if q <= w && q != w {
      assert w[|q|..][0] == w[|q|] && w[|q|..][1..] == w[|q| + 1..];
    }
  }

  lemma {:induction false} FlattenWrites(result: map<string, Json>, q: Pointer, j: Json, w: Pointer)
    ensures Lookup(FlattenInto(result, ToStr(q), j), ToStr(w)) == Or(Below(j, q, w), Lookup(result, ToStr(w)))
    decreases j, 1, 0
  {
    if Primitive(j) || j == Arr([]) || j == Obj(map[]) {
      OneEntry(result, q, j, w);
    } else {
      BelowContainer(j, q, w);
      hide ToStr, Below, BelowElements, BelowMembers, Lookup, Sorted;
      if j.Arr? {
        ElementsWrite(result, q, j, 0, w);
      } else {
        SortedKeys(j.o);
        MembersWrite(result, q, j, Sorted(j.o.Keys), w);
      }
    }
  }

  lemma {:induction false} ElementsWrite(result: map<string, Json>, q: Pointer, j: Json, i: nat, w: Pointer)
    requires j.Arr?
    ensures Lookup(FlattenElements(result, ToStr(q), j, i), ToStr(w)) ==
              Or(BelowElements(j.a, q, w, i), Lookup(result, ToStr(w)))
    decreases j, 0, |j.a| - i
  {
    hide ToStr, ToString, Below, Lookup, FlattenInto, LeafOf;
    if i < |j.a| {
      IndexPath(q, i);
      BelowOneElement(j.a, q, w, i);
      hide BelowElements;
      FlattenWrites(result, q + [ToString(i)], j.a[i], w);
      ElementsWrite(FlattenInto(result, ToStr(q + [ToString(i)]), j.a[i]), q, j, i + 1, w);
    }
  }

  lemma {:induction false} MembersWrite(result: map<string, Json>, q: Pointer, j: Json, keys: seq<string>, w: Pointer)
    requires j.Obj? && KeysOf(j.o, keys)
    ensures Lookup(FlattenMembers(result, ToStr(q), j, keys), ToStr(w)) ==
              Or(BelowMembers(j.o, q, w, keys), Lookup(result, ToStr(w)))
    decreases j, 0, |keys|
  {
    hide ToStr, Escape, Below, Lookup, FlattenInto, LeafOf;
    if keys != [] {
      var k := keys[0];
      PathOf(q, k);
      BelowOneMember(j.o, q, w, keys);
      hide BelowMembers;
      FlattenWrites(result, q + [k], j.o[k], w);
      MembersWrite(FlattenInto(result, ToStr(q + [k]), j.o[k]), q, j, keys[1..], w);
    }
  }

  // Every name is a pointer.
  predicate Pointers(m: map<string, Json>) {
    forall s <- m.Keys :: Split(s).Ok?
  }

  lemma {:induction false} OnePointer(m: map<string, Json>, q: Pointer, v: Json)
    requires Pointers(m)
    ensures Pointers(m[ToStr(q) := v])
  {
    SplitOfPrinted(q);
    hide Split, ToStr;
  }

  lemma {:induction false} WritesPointers(result: map<string, Json>, q: Pointer, j: Json)
    requires Pointers(result)
    ensures Pointers(FlattenInto(result, ToStr(q), j))
    decreases j, 1, 0
  {
    hide Pointers, ToStr, Sorted;
    match j
    case Arr(a) => if a == [] { OnePointer(result, q, Null); } else { ElementPointers(result, q, j, 0); }
    case Obj(o) =>
      if o == map[] {
        OnePointer(result, q, Null);
      } else {
        SortedKeys(o);
        MemberPointers(result, q, j, Sorted(o.Keys));
      }
    case _ => OnePointer(result, q, j);
  }

  lemma {:induction false} ElementPointers(result: map<string, Json>, q: Pointer, j: Json, i: nat)
    requires j.Arr? && Pointers(result)
    ensures Pointers(FlattenElements(result, ToStr(q), j, i))
    decreases j, 0, |j.a| - i
  {
    hide Pointers, ToStr, ToString, FlattenInto;
    if i < |j.a| {
      IndexPath(q, i);
      WritesPointers(result, q + [ToString(i)], j.a[i]);
      ElementPointers(FlattenInto(result, ToStr(q + [ToString(i)]), j.a[i]), q, j, i + 1);
    }
  }

  lemma {:induction false} MemberPointers(result: map<string, Json>, q: Pointer, j: Json, keys: seq<string>)
    requires j.Obj? && KeysOf(j.o, keys) && Pointers(result)
    ensures Pointers(FlattenMembers(result, ToStr(q), j, keys))
    decreases j, 0, |keys|
  {
    hide Pointers, ToStr, Escape, FlattenInto;
    if keys != [] {
      PathOf(q, keys[0]);
      WritesPointers(result, q + [keys[0]], j.o[keys[0]]);
      MemberPointers(FlattenInto(result, ToStr(q + [keys[0]]), j.o[keys[0]]), q, j, keys[1..]);
    }
  }

  // The flat object has one member for every leaf, under its pointer, and no others.
  lemma {:induction false} FlattenIsLeaves(j: Json)
    ensures Pointers(Flatten(j).o)
    ensures forall w: Pointer :: Lookup(Flatten(j).o, ToStr(w)) == LeafOf(j, w)
  {
    hide ToStr, Split, LeafOf, FlattenInto;
    EmptyPath();
    WritesPointers(map[], [], j);
    forall w: Pointer
      ensures Lookup(Flatten(j).o, ToStr(w)) == LeafOf(j, w)
    {
      FlattenWrites(map[], [], j, w);
      assert w[0..] == w;
    }
  }

  lemma {:induction false} EmptyPath()
    ensures ToStr([]) == ""
  {
  }

  // ---- What unflattening builds ----

  datatype Leaf = Leaf(p: Pointer, v: Json)

  function Build(j: Json, ls: seq<Leaf>): Result<Json>
    decreases |ls|
  {
    if ls == [] then Ok(j)
    else
      match CreateAt(j, ls[0].p, ls[0].v)
      case Ok(d) => Build(d, ls[1..])
      case Err(e) => Err(e)
  }

  // The leaves below the token `k`, seen from there.
  function Project(ls: seq<Leaf>, k: string): seq<Leaf> {
    if ls == [] then []
    else
      var rest := Project(ls[1..], k);
      var l := ls[0];
      if l.p != [] && l.p[0] == k then [Leaf(l.p[1..], l.v)] + rest else rest
  }

  predicate NoRoot(ls: seq<Leaf>) {
    forall l <- ls :: l.p != []
  }

  predicate HasToken(ls: seq<Leaf>, k: string) {
    exists l <- ls :: l.p != [] && l.p[0] == k
  }

  lemma {:induction false} ProjectNothing(ls: seq<Leaf>, k: string)
    requires !HasToken(ls, k)
    ensures Project(ls, k) == []
  {
    if ls != [] {
      assert ls[0] in ls;
      ProjectNothing(ls[1..], k);
    }
  }

  lemma {:induction false} ProjectMember(ls: seq<Leaf>, k: string, l: Leaf)
    ensures l in Project(ls, k) <==> Leaf([k] + l.p, l.v) in ls
  {
    if ls != [] {
      ProjectMember(ls[1..], k, l);
      var h := ls[0];
      var deeper := Leaf([k] + l.p, l.v);
      assert ls == [h] + ls[1..];
      assert deeper == h <==> h.p != [] && h.p[0] == k && l == Leaf(h.p[1..], h.v) by {
        assert ([k] + l.p)[1..] == l.p;
        if h.p != [] && h.p[0] == k {
          assert h.p == [k] + h.p[1..];
        }
      }
    }
  }

  // The members of an object are built one by one, each from the leaves below it.
  ghost predicate ObjectBuilt(o: map<string, Json>, ls: seq<Leaf>, r: Result<Json>) {
    && (r.Ok? ==> r.value.Obj? && forall k :: MemberBuilt(o, ls, r.value.o, k))
    && (r.Err? ==> exists k :: Build(MemberOf(o, k), Project(ls, k)).Err?)
  }

  ghost predicate MemberBuilt(o: map<string, Json>, ls: seq<Leaf>, m: map<string, Json>, k: string) {
    && (k in m <==> k in o || HasToken(ls, k))
    && Build(MemberOf(o, k), Project(ls, k)) == Ok(MemberOf(m, k))
  }

  lemma {:induction false} BuildObject(o: map<string, Json>, ls: seq<Leaf>)
    requires NoRoot(ls)
    ensures ObjectBuilt(o, ls, Build(Obj(o), ls))
    decreases |ls|
  {
    if ls == [] {
      NothingBuilt(o);
    } else {
      var l, rest := ls[0], ls[1..];
      var k := l.p[0];
      var c := CreateAt(MemberOf(o, k), l.p[1..], l.v);
      FirstLeaf(ls, k);
      assert CreateAt(Obj(o), l.p, l.v) == WrapObj(o, k, c);
      hide CreateAt, Project, MemberBuilt;
      if c.Err? {
        assert Build(MemberOf(o, k), Project(ls, k)).Err?;
      } else {
        var o' := o[k := c.value];
        BuildObject(o', rest);
        ObjectStep(o, ls, c.value, Build(Obj(o'), rest));
      }
    }
  }

  lemma {:induction false} NothingBuilt(o: map<string, Json>)
    ensures ObjectBuilt(o, [], Ok(Obj(o)))
  {
    forall k: string
      ensures MemberBuilt(o, [], o, k)
    {
    }
  }

  lemma {:induction false} FirstLeaf(ls: seq<Leaf>, k: string)
    requires ls != [] && ls[0].p != [] && ls[0].p[0] == k
    ensures Project(ls, k) == [Leaf(ls[0].p[1..], ls[0].v)] + Project(ls[1..], k)
    ensures forall j: Json :: Build(j, Project(ls, k)) ==
              var c := CreateAt(j, ls[0].p[1..], ls[0].v); if c.Ok? then Build(c.value, Project(ls[1..], k)) else c
    ensures HasToken(ls, k)
  {
    assert ls[0] in ls;
    hide CreateAt;
    var rest := Project(ls[1..], k);
    assert ([Leaf(ls[0].p[1..], ls[0].v)] + rest)[1..] == rest;
  }

  lemma {:induction false} OtherToken(ls: seq<Leaf>, k: string)
    requires ls != [] && (ls[0].p == [] || ls[0].p[0] != k)
    ensures Project(ls, k) == Project(ls[1..], k)
    ensures HasToken(ls, k) <==> HasToken(ls[1..], k)
  {
    assert ls == [ls[0]] + ls[1..];
  }

  lemma {:induction false} ObjectStep(o: map<string, Json>, ls: seq<Leaf>, c: Json, r: Result<Json>)
    requires ls != [] && NoRoot(ls)
    requires var l := ls[0]; CreateAt(MemberOf(o, l.p[0]), l.p[1..], l.v) == Ok(c)
    requires ObjectBuilt(o[ls[0].p[0] := c], ls[1..], r)
    ensures ObjectBuilt(o, ls, r)
  {
    var h, rest := ls[0].p[0], ls[1..];
    var o' := o[h := c];
    if r.Ok? {
      forall k
        ensures MemberBuilt(o, ls, r.value.o, k)
      {
        assert MemberBuilt(o', rest, r.value.o, k);
        OneMember(o, ls, c, k);
      }
    } else {
      var k :| Build(MemberOf(o', k), Project(rest, k)).Err?;
      OneMember(o, ls, c, k);
    }
  }

  lemma {:induction false} OneMember(o: map<string, Json>, ls: seq<Leaf>, c: Json, k: string)
    requires ls != [] && NoRoot(ls)
    requires var l := ls[0]; CreateAt(MemberOf(o, l.p[0]), l.p[1..], l.v) == Ok(c)
    ensures var o' := o[ls[0].p[0] := c];
            && Build(MemberOf(o, k), Project(ls, k)) == Build(MemberOf(o', k), Project(ls[1..], k))
            && (k in o || HasToken(ls, k) <==> k in o' || HasToken(ls[1..], k))
  {
    hide CreateAt, Build, Project, HasToken;
    if k == ls[0].p[0] {
      FirstLeaf(ls, k);
    } else {
      OtherToken(ls, k);
    }
  }

  // ---- The same for the elements of an array ----

  predicate Indexed(ls: seq<Leaf>) {
    forall l <- ls :: l.p != [] && IsIndex(l.p[0], INT_MAX + 1)
  }

  function ElementOf(a: seq<Json>, i: nat): Json {
    if i < |a| then a[i] else Null
  }

  // The size an array of `n` elements grows to.
  function Reach(n: nat, ls: seq<Leaf>): nat
    requires Indexed(ls)
    decreases |ls|
  {
    if ls == [] then n
    else
      assert ls[0] in ls;
      Reach(Max(n, Numeral(ls[0].p[0]) + 1), ls[1..])
  }

  ghost predicate ArrayBuilt(a: seq<Json>, ls: seq<Leaf>, r: Result<Json>)
    requires Indexed(ls)
  {
    && (r.Ok? ==> r.value.Arr? && |r.value.a| == Reach(|a|, ls) && forall i: nat :: ElementBuilt(a, ls, r.value.a, i))
    && (r.Err? ==> exists i: nat :: Build(ElementOf(a, i), Project(ls, ToString(i))).Err?)
  }

  ghost predicate ElementBuilt(a: seq<Json>, ls: seq<Leaf>, m: seq<Json>, i: nat) {
    Build(ElementOf(a, i), Project(ls, ToString(i))) == Ok(ElementOf(m, i))
  }

  function Stored(a: seq<Json>, n: nat, c: Json): (r: seq<Json>)
    ensures |r| == Max(|a|, n + 1)
    ensures forall i: nat :: ElementOf(r, i) == if i == n then c else ElementOf(a, i)
  {
    Grown(a, n + 1)[n := c]
  }

  lemma {:induction false} ArrayCreates(a: seq<Json>, p: Pointer, v: Json)
    requires p != [] && IsIndex(p[0], INT_MAX + 1)
    ensures var n := Numeral(p[0]);
            var c := CreateAt(ElementOf(a, n), p[1..], v);
            CreateAt(Arr(a), p, v) == if c.Ok? then Ok(Arr(Stored(a, n, c.value))) else c
  {
    StoiOfToString(Numeral(p[0]));
    hide Stoi, Numeral, ToString;
  }

  lemma {:induction false} BuildArray(a: seq<Json>, ls: seq<Leaf>)
    requires Indexed(ls)
    ensures ArrayBuilt(a, ls, Build(Arr(a), ls))
    decreases |ls|
  {
    if ls == [] {
      NoElementBuilt(a);
    } else {
      var l, rest := ls[0], ls[1..];
      assert l in ls;
      var n := Numeral(l.p[0]);
      var c := CreateAt(ElementOf(a, n), l.p[1..], l.v);
      FirstLeaf(ls, ToString(n));
      ArrayCreates(a, l.p, l.v);
      hide CreateAt, Project, ElementBuilt, Numeral, ToString, IsIndex;
      if c.Err? {
        assert Build(ElementOf(a, n), Project(ls, ToString(n))).Err?;
      } else {
        var a' := Stored(a, n, c.value);
        BuildArray(a', rest);
        ArrayStep(a, ls, c.value, Build(Arr(a'), rest));
      }
    }
  }

  lemma {:induction false} NoElementBuilt(a: seq<Json>)
    ensures ArrayBuilt(a, [], Ok(Arr(a)))
  {
    forall i: nat
      ensures ElementBuilt(a, [], a, i)
    {
    }
  }

  lemma {:induction false} ArrayStep(a: seq<Json>, ls: seq<Leaf>, c: Json, r: Result<Json>)
    requires ls != [] && Indexed(ls) && ls[0] in ls
    requires var l := ls[0]; CreateAt(ElementOf(a, Numeral(l.p[0])), l.p[1..], l.v) == Ok(c)
    requires ArrayBuilt(Stored(a, Numeral(ls[0].p[0]), c), ls[1..], r)
    ensures ArrayBuilt(a, ls, r)
  {
    hide CreateAt, Build, Project, Numeral, ToString, Stored;
    var n, rest := Numeral(ls[0].p[0]), ls[1..];
    var a' := Stored(a, n, c);
    if r.Ok? {
      forall i: nat
        ensures ElementBuilt(a, ls, r.value.a, i)
      {
        assert ElementBuilt(a', rest, r.value.a, i);
        OneElement(a, ls, c, i);
      }
    } else {
      var i: nat :| Build(ElementOf(a', i), Project(rest, ToString(i))).Err?;
      OneElement(a, ls, c, i);
    }
  }

  lemma {:induction false} OneElement(a: seq<Json>, ls: seq<Leaf>, c: Json, i: nat)
    requires ls != [] && Indexed(ls) && ls[0] in ls
    requires var l := ls[0]; CreateAt(ElementOf(a, Numeral(l.p[0])), l.p[1..], l.v) == Ok(c)
    ensures var a' := Stored(a, Numeral(ls[0].p[0]), c);
            Build(ElementOf(a, i), Project(ls, ToString(i))) == Build(ElementOf(a', i), Project(ls[1..], ToString(i)))
  {
    NumeralOfToString(i);
    hide CreateAt, Build, Project, Numeral, ToString, Stored;
    if ToString(i) == ls[0].p[0] {
      FirstLeaf(ls, ToString(i));
    } else {
      OtherToken(ls, ToString(i));
    }
  }

  lemma {:induction false} ArrayCreatesArray(a: seq<Json>, p: Pointer, v: Json)
    requires p != []
    ensures var r := CreateAt(Arr(a), p, v); (r.Ok? ==> r.value.Arr?) && (!Stoi(p[0]).Value? ==> r.Err?)
  {
    hide Stoi;
  }

  // An array stays an array, and fails at a token that is no index.
  lemma {:induction false} ArrayStays(a: seq<Json>, ls: seq<Leaf>)
    requires NoRoot(ls)
    ensures var r := Build(Arr(a), ls); r.Ok? ==> r.value.Arr?
    decreases |ls|
  {
    if ls != [] {
      assert ls[0] in ls;
      ArrayCreatesArray(a, ls[0].p, ls[0].v);
      hide CreateAt;
      var d := CreateAt(Arr(a), ls[0].p, ls[0].v);
      if d.Ok? {
        ArrayStays(d.value.a, ls[1..]);
      }
    }
  }

  lemma {:induction false} ArrayFails(a: seq<Json>, ls: seq<Leaf>, l: Leaf)
    requires NoRoot(ls) && l in ls && l.p != [] && !Stoi(l.p[0]).Value?
    ensures Build(Arr(a), ls).Err?
    decreases |ls|
  {
    assert ls[0] in ls;
    ArrayCreatesArray(a, ls[0].p, ls[0].v);
    hide CreateAt, Stoi;
    var d := CreateAt(Arr(a), ls[0].p, ls[0].v);
    if l != ls[0] && d.Ok? {
      assert l in ls[1..];
      ArrayFails(d.value.a, ls[1..], l);
    }
  }

  lemma {:induction false} ReachIs(n: nat, size: nat, ls: seq<Leaf>)
    requires Indexed(ls) && n <= size && forall l <- ls :: Numeral(l.p[0]) < size
    requires n == size || HasToken(ls, ToString(size - 1))
    ensures Reach(n, ls) == size
    decreases |ls|
  {
    hide Numeral, ToString;
    if ls != [] {
      assert ls[0] in ls && ls == [ls[0]] + ls[1..];
      var m := Max(n, Numeral(ls[0].p[0]) + 1);
      if n < size {
        NumeralOfToString(size - 1);
        assert HasToken(ls[1..], ToString(size - 1)) || ls[0].p[0] == ToString(size - 1);
      }
      ReachIs(m, size, ls[1..]);
    }
  }

  // What is null becomes an array or an object, as the first leaf says.
  lemma {:induction false} BuildFromNull(ls: seq<Leaf>)
    requires ls != [] && ls[0].p != []
    ensures Build(Null, ls) == if ls[0].p[0] == "0" then Build(Arr([]), ls) else Build(Obj(map[]), ls)
  {
  }

  // ---- The leaves in the order of their pointers ----

  ghost predicate Increasing(ls: seq<Leaf>) {
    ls != [] ==> (forall l <- ls[1..] :: Less(ToStr(ls[0].p), ToStr(l.p))) && Increasing(ls[1..])
  }

  // The leaves of `j`, in order.
  ghost predicate Listing(ls: seq<Leaf>, j: Json) {
    Increasing(ls) && forall p: Pointer, v: Json :: Leaf(p, v) in ls <==> LeafOf(j, p) == Some(v)
  }

  lemma {:induction false} LessBelow(k: string, p: Pointer, q: Pointer)
    ensures Less(ToStr([k] + p), ToStr([k] + q)) <==> Less(ToStr(p), ToStr(q))
  {
    ToStrAppend([k], p);
    ToStrAppend([k], q);
    CommonPrefix(ToStr([k]), ToStr(p), ToStr(q));
  }

  lemma {:induction false} ProjectIncreases(ls: seq<Leaf>, k: string)
    requires Increasing(ls)
    ensures Increasing(Project(ls, k))
  {
    hide Less, ToStr;
    if ls != [] {
      var rest := Project(ls[1..], k);
      ProjectIncreases(ls[1..], k);
      var l := ls[0];
      if l.p != [] && l.p[0] == k {
        assert l.p == [k] + l.p[1..];
        forall m <- rest
          ensures Less(ToStr(l.p[1..]), ToStr(m.p))
        {
          ProjectMember(ls[1..], k, m);
          assert Less(ToStr(l.p), ToStr(Leaf([k] + m.p, m.v).p));
          LessBelow(k, l.p[1..], m.p);
        }
        assert ([Leaf(l.p[1..], l.v)] + rest)[1..] == rest;
      }
    }
  }

  // The place of the child a token leads to.
  function Child(j: Json, k: string): Option<Json> {
    match j
    case Arr(a) => if IsIndex(k, |a|) then Some(a[Numeral(k)]) else None
    case Obj(o) => if k in o then Some(o[k]) else None
    case _ => None
  }

  predicate Nested(j: Json) {
    (j.Arr? && j.a != []) || (j.Obj? && j.o != map[])
  }

  lemma {:induction false} LeafOfChild(j: Json, p: Pointer)
    requires Nested(j)
    ensures LeafOf(j, p) == if p != [] && Child(j, p[0]).Some? then LeafOf(Child(j, p[0]).value, p[1..]) else None
  {
    hide IsIndex, Numeral;
  }

  lemma {:induction false} ProjectLists(ls: seq<Leaf>, j: Json, k: string)
    requires Listing(ls, j) && Nested(j) && Child(j, k).Some?
    ensures Listing(Project(ls, k), Child(j, k).value)
  {
    var c := Child(j, k).value;
    ProjectIncreases(ls, k);
    hide Child, Nested, LeafOf, Increasing, Project;
    forall p: Pointer, v: Json
      ensures Leaf(p, v) in Project(ls, k) <==> LeafOf(c, p) == Some(v)
    {
      ProjectMember(ls, k, Leaf(p, v));
      LeafOfChild(j, [k] + p);
      assert ([k] + p)[1..] == p;
      assert Leaf([k] + p, v) in ls <==> LeafOf(j, [k] + p) == Some(v);
    }
  }

  lemma {:induction false} ListingMember(ls: seq<Leaf>, j: Json, l: Leaf)
    requires Listing(ls, j) && l in ls
    ensures LeafOf(j, l.p) == Some(l.v)
  {
    assert Leaf(l.p, l.v) in ls;
  }

  lemma {:induction false} ListingTokens(ls: seq<Leaf>, j: Json)
    requires Listing(ls, j) && Nested(j)
    ensures NoRoot(ls)
    ensures forall l <- ls :: l.p != [] && Child(j, l.p[0]).Some?
  {
    hide Listing, Child, LeafOf, Nested;
    forall l <- ls
      ensures l.p != [] && Child(j, l.p[0]).Some?
    {
      ListingMember(ls, j, l);
      LeafOfChild(j, l.p);
    }
  }

  // Every value has a leaf.
  lemma {:induction false} SomeLeaf(j: Json) returns (p: Pointer)
    ensures LeafOf(j, p).Some?
    ensures p == [] <==> !Nested(j)
    decreases j
  {
    if !Nested(j) {
      p := [];
    } else {
      var k: string, c: Json;
      if j.Arr? {
        NumeralOfToString(0);
        k, c := ToString(0), j.a[0];
      } else {
        k :| k in j.o;
        c := j.o[k];
      }
      var q := SomeLeaf(c);
      p := [k] + q;
      assert p[1..] == q;
      LeafOfChild(j, p);
    }
  }

  lemma {:induction false} TokenListed(ls: seq<Leaf>, j: Json, k: string) returns (l: Leaf)
    requires Listing(ls, j) && Nested(j) && Child(j, k).Some?
    ensures l in ls && l.p != [] && l.p[0] == k && HasToken(ls, k)
    ensures |l.p| == 1 <==> !Nested(Child(j, k).value)
  {
    hide Child, LeafOf, Nested, Increasing, HasToken;
    var q := SomeLeaf(Child(j, k).value);
    LeafOfChild(j, [k] + q);
    assert ([k] + q)[1..] == q;
    l := Leaf([k] + q, LeafOf(j, [k] + q).value);
    ListedToken(ls, l);
  }

  lemma {:induction false} ListedToken(ls: seq<Leaf>, l: Leaf)
    requires l in ls && l.p != []
    ensures HasToken(ls, l.p[0])
  {
  }

  lemma {:induction false} FirstIsLeast(ls: seq<Leaf>, l: Leaf)
    requires Increasing(ls) && l in ls
    ensures l == ls[0] || Less(ToStr(ls[0].p), ToStr(l.p))
  {
    assert ls == [ls[0]] + ls[1..];
  }

  // A pointer through the key `k` comes before every pointer through "0"; `nested` says whether the latter go on.
  predicate Before(k: string, nested: bool) {
    || k == ""
    || (k[0] < '0' && k[0] != '/')
    || (nested && |k| > 1 && k[0] == '0' && k[1] < '/')
  }

  lemma {:induction false} LessAfterSlash(e: string, f: string)
    ensures Less("/" + e, "/" + f) <==> Less(e, f)
  {
    CommonPrefix("/", e, f);
  }

  lemma {:induction false} PrintedFirst(k: string, r: Pointer)
    ensures ToStr([k] + r) == "/" + (Encode(k) + ToStr(r))
    ensures k != "" ==> Encode(k) == EscapeChar(k[0]) + Encode(k[1..])
    ensures r != [] ==> ToStr(r) != "" && ToStr(r)[0] == '/'
    ensures r == [] ==> ToStr(r) == ""
  {
    EscapeIsEncode(k);
    assert ([k] + r)[1..] == r && ([k] + r)[0] == k;
    if r != [] {
      ToStrUnfolds(r);
    }
  }

  // What a comparison of escaped keys finds at their first difference.
  lemma {:induction false} EncodedOrder(k: string, t: string, u: string)
    requires k != "0" && (t == "" || t[0] == '/') && (u == "" || u[0] == '/')
    ensures Less(Encode(k) + t, "0" + u) <==> Before(k, u != "")
  {
    var e := Encode(k) + t;
    var f := "0" + u;
    assert f[0] == '0' && f[1..] == u;
    if k != "" {
      var rest := Encode(k[1..]) + t;
      var c := EscapeChar(k[0]);
      assert e[0] == c[0];
      if k[0] == '0' {
        assert e == ['0'] + rest && e[1..] == rest;
        assert k == ['0'] + k[1..];
        assert rest[0] == EscapeChar(k[1])[0];
      }
    }
  }

  lemma {:induction false} KeyOrder(k: string, r: Pointer, r0: Pointer)
    requires k != "0"
    ensures Less(ToStr([k] + r), ToStr(["0"] + r0)) <==> Before(k, r0 != [])
  {
    PrintedFirst(k, r);
    PrintedFirst("0", r0);
    hide ToStr, Less, Before, Encode;
    EncodedZero();
    LessAfterSlash(Encode(k) + ToStr(r), "0" + ToStr(r0));
    EncodedOrder(k, ToStr(r), ToStr(r0));
  }

  lemma {:induction false} EncodedZero()
    ensures Encode("0") == "0"
  {
    assert "0"[1..] == "";
  }

  // The first leaf of an object goes through the key "0", which unflattening takes for an array index.
  predicate StartsArray(o: map<string, Json>) {
    "0" in o && forall k :: k in o && k != "0" ==> !Before(k, Nested(o["0"]))
  }

  lemma {:induction false} SplitFirst(l: Leaf)
    requires l.p != []
    ensures l.p == [l.p[0]] + l.p[1..]
  {
  }

  // Two listed leaves, one of them through "0".
  lemma {:induction false} FirstAgainstZero(ls: seq<Leaf>, l: Leaf)
    requires Increasing(ls) && l in ls && l.p != [] && ls[0].p != []
    ensures l.p[0] == "0" && ls[0].p[0] != "0" ==> Before(ls[0].p[0], |l.p| > 1)
    ensures ls[0].p[0] == "0" && l.p[0] != "0" ==> !Before(l.p[0], |ls[0].p| > 1)
  {
    hide Less, ToStr, Before;
    var f := ls[0];
    FirstIsLeast(ls, l);
    SplitFirst(l);
    SplitFirst(f);
    if l.p[0] == "0" && f.p[0] != "0" {
      KeyOrder(f.p[0], f.p[1..], l.p[1..]);
    } else if f.p[0] == "0" && l.p[0] != "0" {
      NotBoth(ToStr(f.p), ToStr(l.p));
      KeyOrder(l.p[0], l.p[1..], f.p[1..]);
    }
  }

  lemma {:induction false} NotBoth(a: string, b: string)
    requires Less(a, b)
    ensures !Less(b, a)
  {
    Irreflexive(a);
    if Less(b, a) {
      Transitive(a, b, a);
    }
  }

  lemma {:induction false} IndexNotBefore(k: string, size: nat, nested: bool)
    requires IsIndex(k, size) && k != "0"
    ensures !Before(k, nested)
  {
    var n := Numeral(k);
    assert k == ToString(n);
    hide Numeral, ToString;
    assert k[0] == '0' <==> n == 0;
    assert IsDigit(k[0]);
    ZeroToken();
  }

  lemma {:induction false} ZeroToken()
    ensures ToString(0) == "0" && forall size: nat :: size > 0 ==> IsIndex("0", size)
  {
    NumeralOfToString(0);
  }

  lemma {:induction false} FirstOfArray(ls: seq<Leaf>, a: seq<Json>)
    requires Listing(ls, Arr(a)) && a != []
    ensures ls != [] && ls[0].p != [] && ls[0].p[0] == "0"
  {
    ZeroToken();
    ListingTokens(ls, Arr(a));
    hide LeafOf, IsIndex, Increasing, Before, HasToken;
    var l := TokenListed(ls, Arr(a), "0");
    assert ls[0] in ls;
    FirstAgainstZero(ls, l);
    var k := ls[0].p[0];
    assert IsIndex(k, |a|);
    if k != "0" {
      IndexNotBefore(k, |a|, |l.p| > 1);
    }
  }

  lemma {:induction false} FirstOfObject(ls: seq<Leaf>, o: map<string, Json>)
    requires Listing(ls, Obj(o)) && o != map[]
    ensures ls != [] && ls[0].p != [] && (ls[0].p[0] == "0" <==> StartsArray(o))
  {
    ListingTokens(ls, Obj(o));
    var any :| any in o;
    var l0 := TokenListed(ls, Obj(o), any);
    assert ls[0] in ls;
    var first := ls[0].p[0];
    assert first in o;
    if first == "0" {
      FirstNested(ls, Obj(o));
      forall k | k in o && k != "0"
        ensures !Before(k, Nested(o["0"]))
      {
        var l := TokenListed(ls, Obj(o), k);
        FirstAgainstZero(ls, l);
      }
    } else if "0" in o {
      var l := TokenListed(ls, Obj(o), "0");
      FirstAgainstZero(ls, l);
      assert !StartsArray(o);
    }
  }

  lemma {:induction false} FirstNested(ls: seq<Leaf>, j: Json)
    requires Listing(ls, j) && Nested(j) && ls != [] && ls[0].p != [] && Child(j, ls[0].p[0]).Some?
    ensures |ls[0].p| > 1 <==> Nested(Child(j, ls[0].p[0]).value)
  {
    ListingMember(ls, j, ls[0]);
    LeafOfChild(j, ls[0].p);
    hide Child, Nested, Listing;
    LeafAtRoot(Child(j, ls[0].p[0]).value, ls[0].p[1..]);
  }

  lemma {:induction false} LeafAtRoot(j: Json, p: Pointer)
    requires LeafOf(j, p).Some?
    ensures p == [] <==> !Nested(j)
  {
  }

  // ---- Unflattening a flattened value ----

  // No empty container, no array that stoi cannot index, and no object whose first leaf goes through "0".
  predicate Rebuilds(j: Json) {
    match j
    case Arr(a) => 0 < |a| <= INT_MAX + 1 && forall i :: 0 <= i < |a| ==> Rebuilds(a[i])
    case Obj(o) => o != map[] && !StartsArray(o) && forall k :: k in o ==> Rebuilds(o[k])
    case _ => true
  }

  ghost predicate Restores(r: Result<Json>, j: Json) {
    r.Ok? && Eq(r.value, j)
  }

  // The outcome for one value.
  ghost predicate Restored(r: Result<Json>, j: Json) {
    if Rebuilds(j) then r == Ok(j) else !Restores(r, j)
  }

  lemma {:induction false} SecondIsAfter(ls: seq<Leaf>)
    requires Increasing(ls) && |ls| > 1
    ensures Less(ToStr(ls[0].p), ToStr(ls[1].p))
  {
    hide Less, ToStr;
    assert ls[1] == ls[1..][0];
  }

  lemma {:induction false} OnlyOne(ls: seq<Leaf>, l: Leaf)
    requires Increasing(ls) && l in ls && forall i :: 0 <= i < |ls| ==> ls[i] == l
    ensures ls == [l]
  {
    hide Increasing, Less, ToStr;
    if |ls| > 1 {
      SecondIsAfter(ls);
      Irreflexive(ToStr(l.p));
    }
  }

  lemma {:induction false} SingleLeaf(ls: seq<Leaf>, j: Json)
    requires Listing(ls, j) && !Nested(j)
    ensures ls == [Leaf([], if Primitive(j) then j else Null)]
  {
    var l := Leaf([], if Primitive(j) then j else Null);
    assert l in ls;
    forall m <- ls
      ensures m == l
    {
      ListingMember(ls, j, m);
    }
    hide Listing;
    OnlyOne(ls, l);
  }

  lemma {:induction false} RestoreLeaf(ls: seq<Leaf>, j: Json)
    requires Listing(ls, j) && !Nested(j)
    ensures Restored(Build(Null, ls), j)
  {
    SingleLeaf(ls, j);
    hide Listing, StartsArray;
  }

  lemma {:induction false} RestoreArray(ls: seq<Leaf>, j: Json)
    requires Listing(ls, j) && j.Arr? && j.a != []
    ensures Restored(Build(Null, ls), j)
    decreases j, 0
  {
    hide Listing, Build, LeafOf, ArrayBuilt, Project, HasToken, Rebuilds, Increasing, CreateAt, Reach, Numeral,
      ToString;
    ListingTokens(ls, j);
    FirstOfArray(ls, j.a);
    BuildFromNull(ls);
    var n := |j.a|;
    IndexChild(j.a, n - 1);
    var l := TokenListed(ls, j, ToString(n - 1));
    if n > INT_MAX + 1 {
      StoiOfToString(n - 1);
      ArrayFails([], ls, l);
      TooLong(j, Build(Null, ls));
    } else {
      ArrayTokens(ls, j.a);
      BuildArray([], ls);
      ReachIs(0, n, ls);
      forall i | 0 <= i < n
        ensures Restored(Build(Null, Project(ls, ToString(i))), j.a[i])
      {
        IndexChild(j.a, i);
        ProjectLists(ls, j, ToString(i));
        RestoreValue(Project(ls, ToString(i)), j.a[i]);
      }
      CombineElements(ls, j.a, Build(Null, ls));
    }
  }

  lemma {:induction false} TooLong(j: Json, r: Result<Json>)
    requires j.Arr? && |j.a| > INT_MAX + 1 && r.Err?
    ensures Restored(r, j)
  {
  }

  lemma {:induction false} IndexChild(a: seq<Json>, i: nat)
    requires i < |a|
    ensures Nested(Arr(a)) && Child(Arr(a), ToString(i)) == Some(a[i])
  {
    NumeralOfToString(i);
  }

  lemma {:induction false} ArrayTokens(ls: seq<Leaf>, a: seq<Json>)
    requires |a| <= INT_MAX + 1 && forall l <- ls :: l.p != [] && Child(Arr(a), l.p[0]).Some?
    ensures Indexed(ls) && forall l <- ls :: Numeral(l.p[0]) < |a|
  {
  }

  lemma {:induction false} CombineElements(ls: seq<Leaf>, a: seq<Json>, r: Result<Json>)
    requires 0 < |a| <= INT_MAX + 1 && Indexed(ls) && Reach(0, ls) == |a| && ArrayBuilt([], ls, r)
    requires forall i :: 0 <= i < |a| ==> Restored(Build(Null, Project(ls, ToString(i))), a[i])
    requires forall l <- ls :: Numeral(l.p[0]) < |a|
    ensures Restored(r, Arr(a))
  {
    hide Build, Reach, Project, Numeral, ToString;
    if r.Ok? {
      var b := r.value.a;
      forall i | 0 <= i < |a|
        ensures if Rebuilds(a[i]) then b[i] == a[i] else !Eq(b[i], a[i])
      {
        assert ElementBuilt([], ls, b, i);
        assert Restored(Build(Null, Project(ls, ToString(i))), a[i]);
      }
      if forall i :: 0 <= i < |a| ==> Rebuilds(a[i]) {
        assert b == a;
      }
    } else {
      var i: nat :| Build(ElementOf([], i), Project(ls, ToString(i))).Err?;
      SomeFailed(ls, a, i);
    }
  }

  lemma {:induction false} SomeFailed(ls: seq<Leaf>, a: seq<Json>, i: nat)
    requires |a| <= INT_MAX + 1 && Indexed(ls) && Build(ElementOf([], i), Project(ls, ToString(i))).Err?
    requires forall i :: 0 <= i < |a| ==> Restored(Build(Null, Project(ls, ToString(i))), a[i])
    requires forall l <- ls :: Numeral(l.p[0]) < |a|
    ensures i < |a| && !Rebuilds(a[i])
  {
    hide Rebuilds, Restores;
    if i >= |a| {
      NumeralOfToString(i);
      ProjectNothing(ls, ToString(i));
    }
  }

  lemma {:induction false} RestoreObject(ls: seq<Leaf>, j: Json)
    requires Listing(ls, j) && j.Obj? && j.o != map[]
    ensures Restored(Build(Null, ls), j)
    decreases j, 0
  {
    hide Listing, Build, LeafOf, StartsArray, ObjectBuilt, Project, HasToken, Rebuilds, Increasing, CreateAt;
    ListingTokens(ls, j);
    FirstOfObject(ls, j.o);
    BuildFromNull(ls);
    if StartsArray(j.o) {
      ArrayStays([], ls);
      StartsAsArray(j, Build(Null, ls));
    } else {
      BuildObject(map[], ls);
      forall k | k in j.o
        ensures HasToken(ls, k) && Restored(Build(Null, Project(ls, k)), j.o[k])
      {
        var l := TokenListed(ls, j, k);
        ProjectLists(ls, j, k);
        RestoreValue(Project(ls, k), j.o[k]);
      }
      CombineMembers(ls, j.o, Build(Null, ls));
    }
  }

  lemma {:induction false} StartsAsArray(j: Json, r: Result<Json>)
    requires j.Obj? && StartsArray(j.o) && (r.Ok? ==> r.value.Arr?)
    ensures Restored(r, j)
  {
    hide StartsArray;
  }

  lemma {:induction false} CombineMembers(ls: seq<Leaf>, o: map<string, Json>, r: Result<Json>)
    requires o != map[] && !StartsArray(o) && ObjectBuilt(map[], ls, r)
    requires forall l <- ls :: l.p != [] && l.p[0] in o
    requires forall k :: k in o ==> HasToken(ls, k) && Restored(Build(Null, Project(ls, k)), o[k])
    ensures Restored(r, Obj(o))
  {
    hide Build, Project, StartsArray;
    if r.Ok? {
      var m := r.value.o;
      forall k
        ensures k in m <==> k in o
        ensures k in o ==> if Rebuilds(o[k]) then m[k] == o[k] else !Eq(m[k], o[k])
      {
        assert MemberBuilt(map[], ls, m, k);
      }
      if forall k :: k in o ==> Rebuilds(o[k]) {
        assert m == o;
      }
    } else {
      var k :| Build(MemberOf(map[], k), Project(ls, k)).Err?;
      FailedMember(ls, o, k);
    }
  }

  lemma {:induction false} FailedMember(ls: seq<Leaf>, o: map<string, Json>, k: string)
    requires Build(MemberOf(map[], k), Project(ls, k)).Err?
    requires forall l <- ls :: l.p != [] && l.p[0] in o
    requires forall k :: k in o ==> HasToken(ls, k) && Restored(Build(Null, Project(ls, k)), o[k])
    ensures k in o && !Rebuilds(o[k])
  {
    hide Rebuilds, Restores;
    if k !in o {
      ProjectNothing(ls, k);
    }
  }

  lemma {:induction false} RestoreValue(ls: seq<Leaf>, j: Json)
    requires Listing(ls, j)
    ensures Restored(Build(Null, ls), j)
    decreases j, 1
  {
    hide Listing, Restored, Build;
    if !Nested(j) {
      RestoreLeaf(ls, j);
    } else if j.Arr? {
      RestoreArray(ls, j);
    } else {
      RestoreObject(ls, j);
    }
  }

  // The members of a flat object, as leaves.
  function Entries(m: map<string, Json>, keys: seq<string>): seq<Leaf>
    requires KeysOf(m, keys) && Pointers(m)
  {
    if keys == [] then [] else [Leaf(Split(keys[0]).value, m[keys[0]])] + Entries(m, keys[1..])
  }

  lemma {:induction false} UnflattenBuilds(j: Json, m: map<string, Json>, keys: seq<string>)
    requires KeysOf(m, keys) && Pointers(m) && forall k <- keys :: Primitive(m[k])
    ensures UnflattenFrom(j, m, keys) == Build(j, Entries(m, keys))
    decreases |keys|
  {
    hide Split, CreateAt, Primitive;
    if keys != [] {
      var l, rest := Leaf(Split(keys[0]).value, m[keys[0]]), Entries(m, keys[1..]);
      assert ([l] + rest)[1..] == rest;
      var d := CreateAt(j, l.p, l.v);
      CreatesMember(j, keys[0], l.v);
      if d.Ok? {
        UnflattenBuilds(d.value, m, keys[1..]);
      }
    }
  }

  lemma {:induction false} CreatesMember(j: Json, name: string, v: Json)
    requires Primitive(v) && Split(name).Ok?
    ensures CreateMember(j, name, v) == CreateAt(j, Split(name).value, v)
  {
    hide Split, CreateAt, Primitive;
  }

  lemma {:induction false} EntriesIncrease(m: map<string, Json>, keys: set<string>)
    requires Pointers(m) && keys <= m.Keys
    ensures KeysOf(m, Sorted(keys)) && Increasing(Entries(m, Sorted(keys)))
    ensures forall l :: l in Entries(m, Sorted(keys)) <==> ToStr(l.p) in keys && m[ToStr(l.p)] == l.v
    decreases |keys|
  {
    hide Split, ToStr, Less;
    if keys != {} {
      var k := Least(keys);
      var rest := keys - {k};
      EntriesIncrease(m, rest);
      PrintedOfSplit(k);
      var l, es := Leaf(Split(k).value, m[k]), Entries(m, Sorted(rest));
      assert Sorted(keys)[1..] == Sorted(rest);
      assert Entries(m, Sorted(keys)) == [l] + es && ([l] + es)[1..] == es;
      forall x
        ensures x in [l] + es <==> ToStr(x.p) in keys && m[ToStr(x.p)] == x.v
      {
        if ToStr(x.p) == k {
          ToStrInjective(x.p, l.p);
        }
      }
    }
  }

  // Unflattening restores a flattened value exactly when it rebuilds; otherwise it fails, or gives another value.
  lemma {:induction false} UnflattenOfFlatten(j: Json)
    ensures if Rebuilds(j) then Unflatten(Flatten(j)) == Ok(j) else !Restores(Unflatten(Flatten(j)), j)
  {
    FlattenIsLeaves(j);
    var m := Flatten(j).o;
    EntriesIncrease(m, m.Keys);
    var es := Entries(m, Sorted(m.Keys));
    hide Flatten, ToStr, Split, Entries, Increasing, LeafOf, Build, CreateAt, UnflattenFrom, Sorted, Rebuilds;
    forall p: Pointer, v: Json
      ensures Leaf(p, v) in es <==> LeafOf(j, p) == Some(v)
    {
      assert Lookup(m, ToStr(p)) == LeafOf(j, p);
      assert Leaf(p, v) in es <==> ToStr(Leaf(p, v).p) in m.Keys && m[ToStr(p)] == v;
    }
    forall k <- Sorted(m.Keys)
      ensures Primitive(m[k])
    {
      PrintedOfSplit(k);
      assert Lookup(m, ToStr(Split(k).value)) == LeafOf(j, Split(k).value);
    }
    UnflattenBuilds(Null, m, Sorted(m.Keys));
    RestoreValue(es, j);
  }

  lemma {:induction false} SortedOne(k: string)
    ensures Sorted({k}) == [k]
  {
    var l := Least({k});
    assert l == k && {k} - {k} == {};
    assert Sorted({}) == [];
  }

  lemma {:induction false} FlattenZero(b: bool)
    ensures Flatten(Obj(map["0" := Bool(b)])) == Obj(map[ToStr(["0"]) := Bool(b)])
  {
    var o: map<string, Json> := map["0" := Bool(b)];
    SortedOne("0");
    assert o.Keys == {"0"} && o != map[];
    PathOf([], "0");
    EmptyPath();
    assert "" + "/" + Escape("0") == ToStr(["0"]);
    var start: map<string, Json> := map[];
    hide ToStr, Escape, Sorted;
    assert FlattenInto(start, "", Obj(o)) == FlattenMembers(start, "", Obj(o), ["0"]);
    FlattenOne(start, "", Obj(o), "0");
  }

  lemma {:induction false} FlattenOne(m: map<string, Json>, path: string, value: Json, k: string)
    requires value.Obj? && k in value.o && Primitive(value.o[k])
    ensures FlattenMembers(m, path, value, [k]) == m[path + "/" + Escape(k) := value.o[k]]
  {
    hide Escape;
    assert [k][1..] == [];
  }

  lemma {:induction false} CreateZero(v: Json)
    ensures CreateAt(Null, ["0"], v) == Ok(Arr([v]))
  {
    ZeroToken();
    StoiOfToString(0);
    hide Stoi, ToString;
    assert ["0"][1..] == [] && Grown([], 1)[0 := v] == [v];
  }

  // An object whose only key is "0" comes back as an array.
  lemma {:induction false} ZeroKeyComesBackAsArray(b: bool)
    ensures Unflatten(Flatten(Obj(map["0" := Bool(b)]))) == Ok(Arr([Bool(b)]))
  {
    FlattenZero(b);
    var name := ToStr(["0"]);
    var m: map<string, Json> := map[name := Bool(b)];
    SplitOfPrinted(["0"]);
    SortedOne(name);
    CreateZero(Bool(b));
    assert m.Keys == {name} && [name][1..] == [];
    hide ToStr, Split, CreateAt, Sorted;
    assert UnflattenFrom(Null, m, [name]) == Ok(Arr([Bool(b)]));
  }

  // ---- The loops ----

  method FlattenArray(input: map<string, Json>, path: string, value: Json) returns (result: map<string, Json>)
    requires value.Arr?
    ensures result == FlattenElements(input, path, value, 0)
    decreases value, 0
  {
    hide FlattenInto, ToString;
    result := input;
    for i := 0 to |value.a|
      invariant FlattenElements(result, path, value, i) == FlattenElements(input, path, value, 0)
    {
      result := FlattenValue(result, path + "/" + ToString(i), value.a[i]);
    }
  }

  method FlattenObject(input: map<string, Json>, path: string, value: Json) returns (result: map<string, Json>)
    requires value.Obj?
    ensures result == FlattenMembers(input, path, value, Sorted(value.o.Keys))
    decreases value, 0
  {
    SortedKeys(value.o);
    var keys := Sorted(value.o.Keys);
    hide FlattenMembers, Escape, Sorted, KeysOf;
    result := input;
    assert keys[0..] == keys;
    for i := 0 to |keys|
      invariant KeysOf(value.o, keys[i..])
      invariant FlattenMembers(result, path, value, keys[i..]) == FlattenMembers(input, path, value, keys)
    {
      MemberStep(result, path, value, keys, i);
      result := FlattenValue(result, path + "/" + Escape(keys[i]), value.o[keys[i]]);
    }
    assert keys[|keys|..] == [];
    NoMembersLeft(result, path, value);
  }

  lemma {:induction false} MemberStep(m: map<string, Json>, path: string, value: Json, keys: seq<string>, i: nat)
    requires value.Obj? && i < |keys| && KeysOf(value.o, keys[i..])
    ensures KeysOf(value.o, keys[i + 1..]) && keys[i] in value.o
    ensures FlattenMembers(m, path, value, keys[i..]) ==
              FlattenMembers(FlattenInto(m, path + "/" + Escape(keys[i]), value.o[keys[i]]), path, value, keys[i + 1..])
  {
    hide FlattenInto, Escape;
    assert keys[i..][0] == keys[i] && keys[i..][1..] == keys[i + 1..];
  }

  lemma {:induction false} NoMembersLeft(m: map<string, Json>, path: string, value: Json)
    requires value.Obj?
    ensures FlattenMembers(m, path, value, []) == m
  {
  }

  method FlattenValue(input: map<string, Json>, path: string, value: Json) returns (result: map<string, Json>)
    ensures result == FlattenInto(input, path, value)
    decreases value, 1
  {
    match value {
      case Arr(a) =>
        if a == [] {
          result := input[path := Null];
        } else {
          result := FlattenArray(input, path, value);
        }
      case Obj(o) =>
        if |o| == 0 {
          result := input[path := Null];
        } else {
          result := FlattenObject(input, path, value);
        }
      case _ => result := input[path := value];
    }
  }

  // get_and_create: the place is reached with operator[], which creates what is missing, then assigned.
  method UnflattenValue(value: Json) returns (r: Result<Json>)
    ensures r == Unflatten(value)
  {
    if !value.Obj? {
      return Err(DomainError);
    }
    SortedKeys(value.o);
    var keys := Sorted(value.o.Keys);
    hide Sorted, KeysOf, CreateMember, UnflattenFrom;
    var result := Null;
    assert keys[0..] == keys;
    for i := 0 to |keys|
      invariant KeysOf(value.o, keys[i..])
      invariant UnflattenFrom(result, value.o, keys[i..]) == UnflattenFrom(Null, value.o, keys)
    {
      CreateStep(result, value.o, keys, i);
      var next := CreateMember(result, keys[i], value.o[keys[i]]);
      if next.Err? {
        return next;
      }
      result := next.value;
    }
    assert keys[|keys|..] == [];
    NothingLeft(result, value.o);
    return Ok(result);
  }

  lemma {:induction false} CreateStep(r: Json, m: map<string, Json>, keys: seq<string>, i: nat)
    requires i < |keys| && KeysOf(m, keys[i..])
    ensures KeysOf(m, keys[i + 1..]) && keys[i] in m
    ensures var c := CreateMember(r, keys[i], m[keys[i]]);
            UnflattenFrom(r, m, keys[i..]) == if c.Ok? then UnflattenFrom(c.value, m, keys[i + 1..]) else c
  {
    hide CreateMember;
    assert keys[i..][0] == keys[i] && keys[i..][1..] == keys[i + 1..];
  }

  lemma {:induction false} NothingLeft(r: Json, m: map<string, Json>)
    ensures UnflattenFrom(r, m, []) == Ok(r)
  {
  }
}
