/** JSON patches (RFC 6902): what the library's diff writes and what its patch does with it. */
module JsonPatch {
  import opened Decimal
  import opened JsonAccess
  import opened JsonValue
  import opened JsonPointer
  import opened JsonResult
  import opened StringOrder

  // What the "add" operation does to the parent of its location.
  function AddTo(parent: Json, token: string, v: Json): Result<Json> {
    match parent
    case Null => Ok(Obj(map[token := v]))
    case Obj(o) => Ok(Obj(o[token := v]))
    case Arr(a) =>
      if token == "-" then Ok(Arr(a + [v]))
      else
        (match Stoi(token)
         case Value(n) => if 0 <= n <= |a| then Ok(Arr(a[..n] + [v] + a[n..])) else Err(Error.OutOfRange)
         case NotANumber => Err(InvalidArgument)
         case OutOfRange => Err(Error.OutOfRange))
    case _ => Err(AssertionFailed)
  }

  // The parent is reached with operator[], which creates what is missing.
  function AddAt(j: Json, p: Pointer, v: Json): Result<Json>
    requires p != []
    decreases |p|
  {
    if |p| == 1 then AddTo(j, p[0], v)
    else
      match j
      case Obj(o) => WrapObj(o, p[0], AddAt(if p[0] in o then o[p[0]] else Null, p[1..], v))
      case Arr(a) =>
        (match UncheckedIndex(p[0], |a|)
         case Ok(i) => WrapArr(Grown(a, i + 1), i, AddAt(Grown(a, i + 1)[i], p[1..], v))
         case Err(e) => Err(e))
      case _ => Err(Error.OutOfRange)
  }

  function OperationAdd(j: Json, p: Pointer, v: Json): Result<Json> {
    if p == [] then Ok(v)
    else if |p| > 1 && Get(j, [p[0]]).Err? then Get(j, [p[0]])
    else AddAt(j, p, v)
  }

  function RemoveFrom(parent: Json, token: string): Result<Json> {
    match parent
    case Obj(o) => if token in o then Ok(Obj(o - {token})) else Err(Error.OutOfRange)
    case Arr(a) =>
      (match Stoi(token)
       case Value(n) => if 0 <= n < |a| then Ok(Arr(a[..n] + a[n + 1..])) else Err(Error.OutOfRange)
       case NotANumber => Err(InvalidArgument)
       case OutOfRange => Err(Error.OutOfRange))
    case _ => Ok(parent)
  }

  function OperationRemove(j: Json, p: Pointer): Result<Json> {
    if p == [] then Err(DomainError)
    else
      var parent := p[..|p| - 1];
      match Get(j, parent)
      case Ok(v) =>
        (match RemoveFrom(v, p[|p| - 1])
         case Ok(w) => Set(j, parent, w)
         case Err(e) => Err(e))
      case Err(e) => Err(e)
  }

  // ---- patch ----

  // The text of a member of an operation object.
  function Member(op: map<string, Json>, name: string): Result<string> {
    if name in op && op[name].Str? then Ok(op[name].s) else Err(InvalidArgument)
  }

  function Then<A, B>(r: Result<A>, f: A -> Result<B>): Result<B> {
    match r
    case Ok(v) => f(v)
    case Err(e) => Err(e)
  }

  function ValueOf(op: map<string, Json>): Result<Json> {
    if "value" in op then Ok(op["value"]) else Err(InvalidArgument)
  }

  // Only out_of_range is caught: a location that does not exist fails the test, other errors leave it.
  function Tested(doc: Json, found: Result<Json>, v: Json): Result<Json> {
    match found
    case Ok(w) => if Eq(w, v) then Ok(doc) else Err(DomainError)
    case Err(e) => if e == Error.OutOfRange then Err(DomainError) else Err(e)
  }

  function ApplyTo(doc: Json, op: map<string, Json>, name: string, p: Pointer): Result<Json> {
    match name
    case "add" => Then(ValueOf(op), v => OperationAdd(doc, p, v))
    case "remove" => OperationRemove(doc, p)
    case "replace" => Then(Get(doc, p), _ => Then(ValueOf(op), v => Set(doc, p, v)))
    case "move" =>
      Then(Member(op, "from"), f => Then(Split(f), from => Then(Get(doc, from), v =>
        Then(OperationRemove(doc, from), d => OperationAdd(d, p, v)))))
    case "copy" =>
      Then(Member(op, "from"), f => Then(Split(f), from => Then(Get(doc, from), v => SetCreating(doc, p, v))))
    case "test" => Then(ValueOf(op), v => Tested(doc, Get(doc, p), v))
    case _ => Err(InvalidArgument)
  }

  function ApplyOp(doc: Json, op: Json): Result<Json> {
    if !op.Obj? then Err(InvalidArgument)
    else
      Then(Member(op.o, "op"), name => Then(Member(op.o, "path"), path => Then(Split(path), p =>
        ApplyTo(doc, op.o, name, p))))
  }

  function ApplyAll(doc: Json, ops: seq<Json>): Result<Json>
    decreases |ops|
  {
    if ops == [] then Ok(doc)
    else
      match ApplyOp(doc, ops[0])
      case Ok(d) => ApplyAll(d, ops[1..])
      case Err(e) => Err(e)
  }

  function Patch(doc: Json, patch: Json): Result<Json> {
    if patch.Arr? then ApplyAll(doc, patch.a) else Err(InvalidArgument)
  }

  // ---- diff ----

  function AddOp(path: string, v: Json): Json {
    Obj(map["op" := Str("add"), "path" := Str(path), "value" := v])
  }

  function RemoveOp(path: string): Json {
    Obj(map["op" := Str("remove"), "path" := Str(path)])
  }

  function ReplaceOp(path: string, v: Json): Json {
    Obj(map["op" := Str("replace"), "path" := Str(path), "value" := v])
  }

  function Min(m: nat, n: nat): (r: nat)
    ensures r <= m && r <= n
  {
    if m < n then m else n
  }

  // The operations that turn `source` into `target`, below `path`.
  function Diff(source: Json, target: Json, path: string): seq<Json>
    decreases source, 1, 0
  {
    if Eq(source, target) then []
    else if KindOf(source) != KindOf(target) then [ReplaceOp(path, target)]
    else
      match source
      case Arr(a) =>
        DiffElements(source, target, path, 0)
        + RemoveElements(|target.a|, |a|, path)
        + AddElements(target.a, Min(|a|, |target.a|), path)
      case Obj(o) =>
        DiffKeys(source, target, path, Sorted(o.Keys))
        + AddKeys(o, target.o, path, Sorted(target.o.Keys))
      case _ => [ReplaceOp(path, target)]
  }

  // The common elements of two arrays, from position `i` on.
  function DiffElements(source: Json, target: Json, path: string, i: nat): seq<Json>
    requires source.Arr? && target.Arr?
    decreases source, 0, |source.a| - i
  {
    if i >= |source.a| || i >= |target.a| then []
    else Diff(source.a[i], target.a[i], path + "/" + ToString(i)) + DiffElements(source, target, path, i + 1)
  }

  // Removals of positions `from` to `to`, the last one first.
  function RemoveElements(from: nat, to: nat, path: string): seq<Json>
    decreases to
  {
    if to <= from then []
    else [RemoveOp(path + "/" + ToString(to - 1))] + RemoveElements(from, to - 1, path)
  }

  function AddElements(target: seq<Json>, i: nat, path: string): seq<Json>
    decreases |target| - i
  {
    if i >= |target| then []
    else [AddOp(path + "/" + ToString(i), target[i])] + AddElements(target, i + 1, path)
  }

  // The keys of the source, in order: compared, or removed.
  function DiffKeys(source: Json, target: Json, path: string, keys: seq<string>): seq<Json>
    requires source.Obj? && target.Obj? && KeysOf(source.o, keys)
    decreases source, 0, |keys|
  {
    if keys == [] then []
    else
      var k := keys[0];
      (if k in target.o then Diff(source.o[k], target.o[k], path + "/" + Escape(k))
       else [RemoveOp(path + "/" + Escape(k))])
      + DiffKeys(source, target, path, keys[1..])
  }

  // The keys of the target the source does not have.
  function AddKeys(source: map<string, Json>, target: map<string, Json>, path: string, keys: seq<string>): seq<Json>
    requires KeysOf(target, keys)
  {
    if keys == [] then []
    else
      var k := keys[0];
      (if k in source then [] else [AddOp(path + "/" + Escape(k), target[k])])
      + AddKeys(source, target, path, keys[1..])
  }

  // The value a patched source becomes: what already equals the target is kept.
  function Patched(source: Json, target: Json): Json {
    if Eq(source, target) then source
    else if KindOf(source) != KindOf(target) then target
    else
      match source
      case Arr(a) =>
        Arr(seq(|target.a|, i requires 0 <= i < |target.a| =>
          if i < |a| then Patched(a[i], target.a[i]) else target.a[i]))
      case Obj(o) =>
        Obj(map k | k in target.o :: if k in o then Patched(o[k], target.o[k]) else target.o[k])
      case _ => target
  }

  lemma {:induction false} PatchedEqualsTarget(source: Json, target: Json)
    ensures Eq(Patched(source, target), target)
  {
    if !Eq(source, target) && KindOf(source) == KindOf(target) {
      match source
      case Arr(a) =>
        forall i | 0 <= i < |target.a|
          ensures Eq(Patched(source, target).a[i], target.a[i])
        {
          if i < |a| { PatchedEqualsTarget(a[i], target.a[i]); } else { EqReflexive(target.a[i]); }
        }
      case Obj(o) =>
        forall k | k in target.o
          ensures Eq(Patched(source, target).o[k], target.o[k])
        {
          if k in o { PatchedEqualsTarget(o[k], target.o[k]); } else { EqReflexive(target.o[k]); }
        }
      case _ => EqReflexive(target);
    } else {
      EqReflexive(target);
    }
  }

  // ---- Where the operations act ----

  // The location `p` exists and holds `v`.
  ghost predicate At(j: Json, p: Pointer, v: Json) {
    Get(j, p) == Ok(v)
  }

  // The document with `v` at a location that exists.
  function Put(j: Json, p: Pointer, v: Json): Json {
    if Set(j, p, v).Ok? then Set(j, p, v).value else j
  }

  lemma {:induction false} PutExists(j: Json, p: Pointer, s: Json, v: Json)
    requires At(j, p, s)
    ensures Set(j, p, v) == Ok(Put(j, p, v)) && At(Put(j, p, v), p, v)
    decreases |p|
  {
    if p != [] {
      match j
      case Obj(o) => PutExists(o[p[0]], p[1..], s, v);
      case Arr(a) => PutExists(a[CheckedIndex(p[0], |a|).value], p[1..], s, v);
    }
  }

  lemma {:induction false} PutTwice(j: Json, p: Pointer, s: Json, v: Json, w: Json)
    requires At(j, p, s)
    ensures Put(Put(j, p, v), p, w) == Put(j, p, w)
    ensures Put(j, p, s) == j
    decreases |p|
  {
    if p != [] {
      match j
      case Obj(o) =>
        var c := o[p[0]];
        PutExists(c, p[1..], s, v);
        PutExists(c, p[1..], s, w);
        PutExists(c, p[1..], s, s);
        PutTwice(c, p[1..], s, v, w);
        PutExists(Put(c, p[1..], v), p[1..], v, w);
        assert o[p[0] := c] == o;
        assert o[p[0] := Put(c, p[1..], v)][p[0] := Put(c, p[1..], w)] == o[p[0] := Put(c, p[1..], w)];
      case Arr(a) =>
        var i := CheckedIndex(p[0], |a|).value;
        var c := a[i];
        PutExists(c, p[1..], s, v);
        PutExists(c, p[1..], s, w);
        PutExists(c, p[1..], s, s);
        PutTwice(c, p[1..], s, v, w);
        PutExists(Put(c, p[1..], v), p[1..], v, w);
        assert a[i := c] == a;
        assert a[i := Put(c, p[1..], v)][i := Put(c, p[1..], w)] == a[i := Put(c, p[1..], w)];
    }
  }

  // One token below a location.
  lemma {:induction false} GetDeeper(j: Json, p: Pointer, s: Json, q: Pointer)
    requires At(j, p, s)
    ensures Get(j, p + q) == Get(s, q)
    decreases |p|
  {
    if p == [] {
      assert p + q == q;
    } else {
      assert (p + q)[1..] == p[1..] + q;
      match j
      case Obj(o) => GetDeeper(o[p[0]], p[1..], s, q);
      case Arr(a) => GetDeeper(a[CheckedIndex(p[0], |a|).value], p[1..], s, q);
    }
  }

  lemma {:induction false} PutDeeper(j: Json, p: Pointer, s: Json, q: Pointer, v: Json)
    requires At(j, p, s) && Set(s, q, v).Ok?
    ensures Set(j, p + q, v) == Ok(Put(j, p, Put(s, q, v)))
    decreases |p|
  {
    if p == [] {
      assert p + q == q;
    } else {
      assert (p + q)[1..] == p[1..] + q;
      match j
      case Obj(o) =>
        PutDeeper(o[p[0]], p[1..], s, q, v);
        PutExists(o[p[0]], p[1..], s, Put(s, q, v));
      case Arr(a) =>
        var c := a[CheckedIndex(p[0], |a|).value];
        PutDeeper(c, p[1..], s, q, v);
        PutExists(c, p[1..], s, Put(s, q, v));
    }
  }

  // The document after a change at `p` that may fail.
  function PutResult(j: Json, p: Pointer, r: Result<Json>): Result<Json> {
    if r.Ok? then Ok(Put(j, p, r.value)) else r
  }

  lemma {:induction false} AddDeeper(j: Json, p: Pointer, s: Json, q: Pointer, v: Json)
    requires At(j, p, s) && q != []
    ensures AddAt(j, p + q, v) == PutResult(j, p, AddAt(s, q, v))
    decreases |p|
  {
    var r := AddAt(s, q, v);
    if p == [] {
      assert p + q == q;
    } else {
      assert (p + q)[1..] == p[1..] + q;
      match j
      case Obj(o) =>
        AddDeeper(o[p[0]], p[1..], s, q, v);
        if r.Ok? { PutExists(o[p[0]], p[1..], s, r.value); }
      case Arr(a) =>
        var i := CheckedIndex(p[0], |a|).value;
        assert Grown(a, i + 1) == a && UncheckedIndex(p[0], |a|) == Ok(i);
        AddDeeper(a[i], p[1..], s, q, v);
        if r.Ok? { PutExists(a[i], p[1..], s, r.value); }
    }
  }

  // ---- One operation ----

  lemma {:induction false} FirstTokenExists(j: Json, p: Pointer)
    requires p != [] && Get(j, p).Ok?
    ensures Get(j, [p[0]]).Ok?
  {
    assert [p[0]][1..] == [];
  }

  // What an operation object says.
  lemma {:induction false} Selected(d: Json, op: Json, name: string, q: Pointer)
    requires op.Obj? && Member(op.o, "op") == Ok(name)
    requires Member(op.o, "path").Ok? && Split(Member(op.o, "path").value) == Ok(q)
    ensures ApplyOp(d, op) == ApplyTo(d, op.o, name, q)
  {
    hide Split, ApplyTo, Member;
  }

  lemma {:induction false} AddAction(d: Json, op: map<string, Json>, p: Pointer)
    requires "value" in op
    ensures ApplyTo(d, op, "add", p) == OperationAdd(d, p, op["value"])
  {
    hide OperationAdd, OperationRemove, Get, Set, SetCreating, Split, Eq;
  }

  lemma {:induction false} RemoveAction(d: Json, op: map<string, Json>, p: Pointer)
    ensures ApplyTo(d, op, "remove", p) == OperationRemove(d, p)
  {
    hide OperationAdd, OperationRemove, Get, Set, SetCreating, Split, Eq;
  }

  lemma {:induction false} ReplaceAction(d: Json, op: map<string, Json>, p: Pointer)
    requires "value" in op
    ensures ApplyTo(d, op, "replace", p) == if Get(d, p).Ok? then Set(d, p, op["value"]) else Get(d, p)
  {
    hide OperationAdd, OperationRemove, Get, Set, SetCreating, Split, Eq;
  }

  // The three operations of a diff, at a location of their own.
  lemma {:induction false} ApplyAdd(d: Json, p: Pointer, v: Json)
    ensures ApplyOp(d, AddOp(ToStr(p), v)) == OperationAdd(d, p, v)
  {
    SplitOfPrinted(p);
    hide Split, ToStr, ApplyTo, OperationAdd, ApplyOp;
    var op := AddOp(ToStr(p), v);
    Selected(d, op, "add", p);
    AddAction(d, op.o, p);
  }

  lemma {:induction false} ApplyRemove(d: Json, p: Pointer)
    ensures ApplyOp(d, RemoveOp(ToStr(p))) == OperationRemove(d, p)
  {
    SplitOfPrinted(p);
    hide Split, ToStr, ApplyTo, OperationRemove, ApplyOp;
    var op := RemoveOp(ToStr(p));
    Selected(d, op, "remove", p);
    RemoveAction(d, op.o, p);
  }

  lemma {:induction false} ApplyReplace(d: Json, p: Pointer, v: Json)
    ensures ApplyOp(d, ReplaceOp(ToStr(p), v)) == if Get(d, p).Ok? then Set(d, p, v) else Get(d, p)
  {
    SplitOfPrinted(p);
    hide Split, ToStr, ApplyTo, Get, Set, ApplyOp;
    var op := ReplaceOp(ToStr(p), v);
    Selected(d, op, "replace", p);
    ReplaceAction(d, op.o, p);
  }

  lemma {:induction false} AddApplies(d: Json, p: Pointer, s: Json, k: string, v: Json)
    requires At(d, p, s)
    ensures ApplyOp(d, AddOp(ToStr(p + [k]), v)) == PutResult(d, p, AddTo(s, k, v))
  {
    ApplyAdd(d, p + [k], v);
    AddDeeper(d, p, s, [k], v);
    if p != [] {
      FirstTokenExists(d, p);
      assert (p + [k])[0] == p[0];
    }
    hide ApplyOp, ToStr, Get, Put, AddTo;
  }

  lemma {:induction false} RemoveApplies(d: Json, p: Pointer, s: Json, k: string)
    requires At(d, p, s)
    ensures ApplyOp(d, RemoveOp(ToStr(p + [k]))) == PutResult(d, p, RemoveFrom(s, k))
  {
    ApplyRemove(d, p + [k]);
    if RemoveFrom(s, k).Ok? {
      PutExists(d, p, s, RemoveFrom(s, k).value);
    }
    assert (p + [k])[..|p + [k]| - 1] == p;
    hide ApplyOp, ToStr, Get, Set, Put, RemoveFrom;
  }

  lemma {:induction false} ReplaceApplies(d: Json, p: Pointer, s: Json, v: Json)
    requires At(d, p, s)
    ensures ApplyOp(d, ReplaceOp(ToStr(p), v)) == Ok(Put(d, p, v))
  {
    ApplyReplace(d, p, v);
    PutExists(d, p, s, v);
    hide ApplyOp, ToStr, Get, Set, Put;
  }

  lemma {:induction false} ApplyInTurn(d: Json, a: seq<Json>, b: seq<Json>)
    ensures ApplyAll(d, a + b) == (if ApplyAll(d, a).Ok? then ApplyAll(ApplyAll(d, a).value, b) else ApplyAll(d, a))
    decreases |a|
  {
    hide ApplyOp;
    if a == [] {
      assert a + b == b;
    } else {
      assert (a + b)[0] == a[0] && (a + b)[1..] == a[1..] + b;
      if ApplyOp(d, a[0]).Ok? {
        ApplyInTurn(ApplyOp(d, a[0]).value, a[1..], b);
      }
    }
  }

  lemma {:induction false} ApplyOne(d: Json, op: Json)
    ensures ApplyAll(d, [op]) == ApplyOp(d, op)
  {
    hide ApplyOp;
    assert [op][1..] == [];
  }

  // ---- Arrays ----

  lemma {:induction false} IndexToken(i: nat, size: nat)
    ensures ToString(i) != "-" && Stoi(ToString(i)) == (if i <= INT_MAX then Value(i) else Number.OutOfRange)
    ensures CheckedIndex(ToString(i), size) == if i <= INT_MAX && i < size then Ok(i) else Err(Error.OutOfRange)
    ensures Escape(ToString(i)) == ToString(i)
  {
    StoiOfToString(i);
    DigitsNeedNoEscape(ToString(i));
    assert IsDigit(ToString(i)[0]);
    hide Stoi, Escape, ToString;
  }

  lemma {:induction false} ElementAt(d: Json, p: Pointer, m: seq<Json>, i: nat, v: Json)
    requires At(d, p, Arr(m)) && i < |m| && i <= INT_MAX
    ensures At(d, p + [ToString(i)], m[i])
    ensures Put(d, p + [ToString(i)], v) == Put(d, p, Arr(m[i := v]))
  {
    IndexToken(i, |m|);
    var q := [ToString(i)];
    assert q[1..] == [];
    hide ToString, Escape, Stoi;
    GetDeeper(d, p, Arr(m), q);
    PutDeeper(d, p, Arr(m), q, v);
  }

  lemma {:induction false} LastRemoved(m: seq<Json>)
    requires m != []
    ensures RemoveFrom(Arr(m), ToString(|m| - 1)) ==
              if |m| - 1 <= INT_MAX then Ok(Arr(m[..|m| - 1])) else Err(Error.OutOfRange)
  {
    var n := |m| - 1;
    IndexToken(n, |m|);
    assert m[..n] + m[n + 1..] == m[..n];
    hide ToString, Stoi;
  }

  lemma {:induction false} LastAdded(m: seq<Json>, v: Json)
    ensures AddTo(Arr(m), ToString(|m|), v) ==
              if |m| <= INT_MAX then Ok(Arr(m + [v])) else Err(Error.OutOfRange)
  {
    IndexToken(|m|, |m|);
    assert m[..|m|] + [v] + m[|m|..] == m + [v];
    hide ToString, Stoi;
  }

  // `r` is `a` without the element `n`.
  predicate Without(r: seq<Json>, a: seq<Json>, n: nat) {
    && |r| + 1 == |a| && n < |a|
    && forall i :: 0 <= i < |r| ==> r[i] == if i < n then a[i] else a[i + 1]
  }

  lemma {:induction false} RemoveIndex(a: seq<Json>, n: nat)
    ensures var r := RemoveFrom(Arr(a), ToString(n));
            if n < |a| && n <= INT_MAX then r.Ok? && r.value.Arr? && Without(r.value.a, a, n)
            else r == Err(Error.OutOfRange)
  {
    IndexToken(n, |a|);
    hide ToString, Stoi;
  }

  // A remove takes the element at the index, and those behind it move up; beyond the end it fails.
  lemma {:induction false} RemoveElement(d: Json, p: Pointer, a: seq<Json>, n: nat)
    requires At(d, p, Arr(a))
    ensures var r := ApplyOp(d, RemoveOp(ToStr(p) + "/" + ToString(n)));
            if n < |a| && n <= INT_MAX then exists m :: r == Ok(Put(d, p, Arr(m))) && Without(m, a, n)
            else r == Err(Error.OutOfRange)
  {
    hide RemoveFrom, RemoveOp, ToString, ToStr, ApplyOp, Get, Put, At, Without;
    IndexPath(p, n);
    RemoveIndex(a, n);
    RemoveApplies(d, p, Arr(a), ToString(n));
  }

  lemma {:induction false} AddIndex(a: seq<Json>, n: nat, v: Json)
    ensures var r := AddTo(Arr(a), ToString(n), v);
            if n <= |a| && n <= INT_MAX then r.Ok? && r.value.Arr? && Without(a, r.value.a, n) && r.value.a[n] == v
            else r == Err(Error.OutOfRange)
  {
    IndexToken(n, |a|);
    hide ToString, Stoi;
  }

  // An add puts the value in front of the element at the index, or behind the last one, and takes nothing away.
  lemma {:induction false} AddElement(d: Json, p: Pointer, a: seq<Json>, n: nat, v: Json)
    requires At(d, p, Arr(a))
    ensures var r := ApplyOp(d, AddOp(ToStr(p) + "/" + ToString(n), v));
            if n <= |a| && n <= INT_MAX then
              exists m :: r == Ok(Put(d, p, Arr(m))) && Without(a, m, n) && m[n] == v
            else r == Err(Error.OutOfRange)
  {
    hide AddTo, AddOp, ToString, ToStr, ApplyOp, Get, Put, At;
    IndexPath(p, n);
    AddIndex(a, n, v);
    AddApplies(d, p, Arr(a), ToString(n), v);
  }

  lemma {:induction false} RemoveLast(d: Json, p: Pointer, m: seq<Json>)
    requires At(d, p, Arr(m)) && m != []
    ensures ApplyOp(d, RemoveOp(ToStr(p) + "/" + ToString(|m| - 1))) ==
              if |m| - 1 <= INT_MAX then Ok(Put(d, p, Arr(m[..|m| - 1]))) else Err(Error.OutOfRange)
  {
    hide RemoveFrom, RemoveOp, AddTo, AddOp, ToString, ToStr, ApplyOp, Get, Put, At;
    IndexPath(p, |m| - 1);
    LastRemoved(m);
    RemoveApplies(d, p, Arr(m), ToString(|m| - 1));
  }

  lemma {:induction false} AddLast(d: Json, p: Pointer, m: seq<Json>, v: Json)
    requires At(d, p, Arr(m))
    ensures ApplyOp(d, AddOp(ToStr(p) + "/" + ToString(|m|), v)) ==
              if |m| <= INT_MAX then Ok(Put(d, p, Arr(m + [v]))) else Err(Error.OutOfRange)
  {
    hide RemoveFrom, RemoveOp, AddTo, AddOp, ToString, ToStr, ApplyOp, Get, Put, At;
    IndexPath(p, |m|);
    LastAdded(m, v);
    AddApplies(d, p, Arr(m), ToString(|m|), v);
  }

  // Applying `ops` puts `v` at `p`; where they need an index that stoi cannot read, they fail.
  ghost predicate Yields(d: Json, ops: seq<Json>, p: Pointer, fits: bool, v: Json) {
    ApplyAll(d, ops) == if fits then Ok(Put(d, p, v)) else Err(Error.OutOfRange)
  }

  // Two groups of operations at the same location.
  lemma {:induction false} YieldsTwice(d: Json, p: Pointer, s: Json, a: seq<Json>, f: bool, v: Json, b: seq<Json>,
                                       g: bool, w: Json)
    requires At(d, p, s) && Yields(d, a, p, f, v) && (f ==> Yields(Put(d, p, v), b, p, g, w))
    ensures Yields(d, a + b, p, f && g, w)
  {
    ApplyInTurn(d, a, b);
    PutTwice(d, p, s, v, w);
    hide ApplyAll, Put;
  }

  lemma {:induction false} YieldsNothing(d: Json, p: Pointer, s: Json)
    requires At(d, p, s)
    ensures Yields(d, [], p, true, s)
  {
    PutTwice(d, p, s, s, s);
  }

  lemma {:induction false} Removals(d: Json, p: Pointer, m: seq<Json>, from: nat)
    requires At(d, p, Arr(m)) && from <= |m|
    ensures Yields(d, RemoveElements(from, |m|, ToStr(p)), p, from == |m| || |m| - 1 <= INT_MAX, Arr(m[..from]))
    decreases |m|
  {
    hide ToString, ToStr, ApplyOp, Put, Get;
    if from == |m| {
      assert m[..from] == m;
      YieldsNothing(d, p, Arr(m));
    } else {
      var n, fits := |m| - 1, |m| - 1 <= INT_MAX;
      var op := RemoveOp(ToStr(p) + "/" + ToString(n));
      RemoveLast(d, p, m);
      ApplyOne(d, op);
      if fits {
        PutExists(d, p, Arr(m), Arr(m[..n]));
        Removals(Put(d, p, Arr(m[..n])), p, m[..n], from);
      }
      assert m[..n][..from] == m[..from];
      YieldsTwice(d, p, Arr(m), [op], fits, Arr(m[..n]), RemoveElements(from, n, ToStr(p)), fits, Arr(m[..from]));
    }
  }

  lemma {:induction false} Additions(d: Json, p: Pointer, m: seq<Json>, target: seq<Json>)
    requires At(d, p, Arr(m)) && |m| <= |target|
    ensures Yields(d, AddElements(target, |m|, ToStr(p)), p, |m| == |target| || |target| - 1 <= INT_MAX,
                   Arr(m + target[|m|..]))
    decreases |target| - |m|
  {
    hide ToString, ToStr, ApplyOp, Put, Get;
    if |m| == |target| {
      assert m + target[|m|..] == m;
      YieldsNothing(d, p, Arr(m));
    } else {
      var n, v := |m|, target[|m|];
      var op := AddOp(ToStr(p) + "/" + ToString(n), v);
      AddLast(d, p, m, v);
      ApplyOne(d, op);
      if n <= INT_MAX {
        PutExists(d, p, Arr(m), Arr(m + [v]));
        Additions(Put(d, p, Arr(m + [v])), p, m + [v], target);
      }
      assert m + [v] + target[n + 1..] == m + target[n..];
      YieldsTwice(d, p, Arr(m), [op], n <= INT_MAX, Arr(m + [v]), AddElements(target, n + 1, ToStr(p)),
                  n + 1 == |target| || |target| - 1 <= INT_MAX, Arr(m + target[n..]));
    }
  }

  // ---- Objects ----

  lemma {:induction false} MemberAt(d: Json, p: Pointer, m: map<string, Json>, k: string, v: Json)
    requires At(d, p, Obj(m)) && k in m
    ensures At(d, p + [k], m[k])
    ensures Put(d, p + [k], v) == Put(d, p, Obj(m[k := v]))
  {
    assert [k][1..] == [];
    GetDeeper(d, p, Obj(m), [k]);
    PutDeeper(d, p, Obj(m), [k], v);
  }

  // The members that are missing in `source` are added.
  function WithAdded(m: map<string, Json>, source: map<string, Json>, target: map<string, Json>, keys: seq<string>)
    : map<string, Json>
    requires KeysOf(target, keys)
  {
    map x | x in m.Keys + target.Keys && (x in m || (x in keys && x !in source))
      :: if x in keys && x !in source then target[x] else m[x]
  }

  lemma {:induction false} WithOneAdded(m: map<string, Json>, source: map<string, Json>, target: map<string, Json>,
                                        keys: seq<string>)
    requires keys != [] && KeysOf(target, keys)
    ensures WithAdded(m, source, target, keys)
         == WithAdded(if keys[0] in source then m else m[keys[0] := target[keys[0]]], source, target, keys[1..])
  {
  }

  lemma {:induction false} KeyAdded(d: Json, p: Pointer, m: map<string, Json>, k: string, v: Json)
    requires At(d, p, Obj(m))
    ensures Yields(d, [AddOp(ToStr(p) + "/" + Escape(k), v)], p, true, Obj(m[k := v]))
    ensures At(Put(d, p, Obj(m[k := v])), p, Obj(m[k := v]))
  {
    hide AddOp, Escape, ToStr, ApplyOp, ApplyAll, Put, Get, At;
    PathOf(p, k);
    AddApplies(d, p, Obj(m), k, v);
    ApplyOne(d, AddOp(ToStr(p + [k]), v));
    PutExists(d, p, Obj(m), Obj(m[k := v]));
  }

  lemma {:induction false} KeyRemoved(d: Json, p: Pointer, m: map<string, Json>, k: string)
    requires At(d, p, Obj(m)) && k in m
    ensures Yields(d, [RemoveOp(ToStr(p) + "/" + Escape(k))], p, true, Obj(m - {k}))
    ensures At(Put(d, p, Obj(m - {k})), p, Obj(m - {k}))
  {
    hide RemoveOp, Escape, ToStr, ApplyOp, ApplyAll, Put, Get, At;
    PathOf(p, k);
    RemoveApplies(d, p, Obj(m), k);
    ApplyOne(d, RemoveOp(ToStr(p + [k])));
    PutExists(d, p, Obj(m), Obj(m - {k}));
  }

  lemma {:induction false} KeyAdditions(d: Json, p: Pointer, m: map<string, Json>, source: map<string, Json>,
                                        target: map<string, Json>, keys: seq<string>)
    requires At(d, p, Obj(m)) && KeysOf(target, keys)
    ensures Yields(d, AddKeys(source, target, ToStr(p), keys), p, true, Obj(WithAdded(m, source, target, keys)))
    decreases |keys|
  {
    hide Escape, ToStr, ApplyAll, Put, Get, Yields;
    if keys == [] {
      assert WithAdded(m, source, target, keys) == m;
      YieldsNothing(d, p, Obj(m));
    } else {
      var k, rest := keys[0], keys[1..];
      WithOneAdded(m, source, target, keys);
      hide WithAdded;
      var ops := AddKeys(source, target, ToStr(p), rest);
      if k in source {
        KeyAdditions(d, p, m, source, target, rest);
        assert [] + ops == ops;
      } else {
        var v := target[k];
        var m' := m[k := v];
        KeyAdded(d, p, m, k, v);
        KeyAdditions(Put(d, p, Obj(m')), p, m', source, target, rest);
        YieldsTwice(d, p, Obj(m), [AddOp(ToStr(p) + "/" + Escape(k), v)], true, Obj(m'), ops, true,
                    Obj(WithAdded(m', source, target, rest)));
      }
    }
  }

  // ---- Every operation of a diff acts at or below its path ----

  predicate Acts(op: Json, path: string) {
    op == RemoveOp(path)
    || (op.Obj? && "value" in op.o && (op == AddOp(path, op.o["value"]) || op == ReplaceOp(path, op.o["value"])))
  }

  ghost predicate Below(op: Json, q: Pointer) {
    exists r: Pointer :: Acts(op, ToStr(q + r))
  }

  ghost predicate AllBelow(ops: seq<Json>, q: Pointer) {
    forall op <- ops :: Below(op, q)
  }

  lemma {:induction false} BelowHere(op: Json, q: Pointer)
    requires Acts(op, ToStr(q))
    ensures Below(op, q)
  {
    hide Acts, ToStr;
    assert q + [] == q;
    assert Acts(op, ToStr(q + []));
  }

  lemma {:induction false} BelowShorter(op: Json, q: Pointer, k: string)
    requires Below(op, q + [k])
    ensures Below(op, q)
  {
    hide Acts, ToStr;
    var r :| Acts(op, ToStr(q + [k] + r));
    assert q + [k] + r == q + ([k] + r);
  }

  lemma {:induction false} AllBelowShorter(ops: seq<Json>, q: Pointer, k: string)
    requires AllBelow(ops, q + [k])
    ensures AllBelow(ops, q)
  {
    hide Below;
    forall op <- ops
      ensures Below(op, q)
    {
      BelowShorter(op, q, k);
    }
  }

  lemma {:induction false} ActsBelow(op: Json, q: Pointer, k: string)
    requires Acts(op, ToStr(q + [k]))
    ensures AllBelow([op], q)
  {
    hide Acts, ToStr, Below;
    BelowHere(op, q + [k]);
    BelowShorter(op, q, k);
  }

  lemma {:induction false} DiffActsBelow(s: Json, t: Json, q: Pointer)
    ensures AllBelow(Diff(s, t, ToStr(q)), q)
    decreases s, 1, 0
  {
    hide Below, ToStr, ToString, Escape, Sorted;
    if !Eq(s, t) {
      if KindOf(s) != KindOf(t) {
        BelowHere(ReplaceOp(ToStr(q), t), q);
      } else {
        match s
        case Arr(a) =>
          ElementsBelow(s, t, q, 0);
          RemovalsBelow(|t.a|, |a|, q);
          AdditionsBelow(t.a, Min(|a|, |t.a|), q);
        case Obj(o) =>
          KeysBelow(s, t, q, Sorted(o.Keys));
          AddedBelow(o, t.o, q, Sorted(t.o.Keys));
        case _ => BelowHere(ReplaceOp(ToStr(q), t), q);
      }
    }
  }

  lemma {:induction false} ElementsBelow(s: Json, t: Json, q: Pointer, i: nat)
    requires s.Arr? && t.Arr?
    ensures AllBelow(DiffElements(s, t, ToStr(q), i), q)
    decreases s, 0, |s.a| - i
  {
    hide Below, ToStr, ToString, Diff;
    if i < |s.a| && i < |t.a| {
      var k := ToString(i);
      IndexPath(q, i);
      DiffActsBelow(s.a[i], t.a[i], q + [k]);
      AllBelowShorter(Diff(s.a[i], t.a[i], ToStr(q + [k])), q, k);
      ElementsBelow(s, t, q, i + 1);
    }
  }

  lemma {:induction false} RemovalsBelow(low: nat, high: nat, q: Pointer)
    ensures AllBelow(RemoveElements(low, high, ToStr(q)), q)
    decreases high
  {
    hide Below, ToStr, ToString;
    if low < high {
      IndexPath(q, high - 1);
      ActsBelow(RemoveOp(ToStr(q + [ToString(high - 1)])), q, ToString(high - 1));
      RemovalsBelow(low, high - 1, q);
    }
  }

  lemma {:induction false} AdditionsBelow(target: seq<Json>, i: nat, q: Pointer)
    ensures AllBelow(AddElements(target, i, ToStr(q)), q)
    decreases |target| - i
  {
    hide Below, ToStr, ToString;
    if i < |target| {
      IndexPath(q, i);
      ActsBelow(AddOp(ToStr(q + [ToString(i)]), target[i]), q, ToString(i));
      AdditionsBelow(target, i + 1, q);
    }
  }

  lemma {:induction false} KeysBelow(s: Json, t: Json, q: Pointer, keys: seq<string>)
    requires s.Obj? && t.Obj? && KeysOf(s.o, keys)
    ensures AllBelow(DiffKeys(s, t, ToStr(q), keys), q)
    decreases s, 0, |keys|
  {
    hide Below, ToStr, Escape, Diff;
    if keys != [] {
      var k := keys[0];
      PathOf(q, k);
      if k in t.o {
        DiffActsBelow(s.o[k], t.o[k], q + [k]);
        AllBelowShorter(Diff(s.o[k], t.o[k], ToStr(q + [k])), q, k);
      } else {
        ActsBelow(RemoveOp(ToStr(q + [k])), q, k);
      }
      KeysBelow(s, t, q, keys[1..]);
    }
  }

  lemma {:induction false} AddedBelow(source: map<string, Json>, target: map<string, Json>, q: Pointer,
                                      keys: seq<string>)
    requires KeysOf(target, keys)
    ensures AllBelow(AddKeys(source, target, ToStr(q), keys), q)
    decreases |keys|
  {
    hide Below, ToStr, Escape;
    if keys != [] {
      var k := keys[0];
      PathOf(q, k);
      ActsBelow(AddOp(ToStr(q + [k]), target[k]), q, k);
      AddedBelow(source, target, q, keys[1..]);
    }
  }

  // ---- A diff is empty exactly when the two values are equal ----

  lemma {:induction false} SameElements(a: seq<Json>, b: seq<Json>)
    requires |a| == |b| && forall k :: 0 <= k < Min(|a|, |b|) ==> Eq(a[k], b[k])
    ensures Eq(Arr(a), Arr(b))
  {
  }

  lemma {:induction false} SameMembers(a: map<string, Json>, b: map<string, Json>)
    requires (forall k <- a.Keys :: k in b && Eq(a[k], b[k])) && forall k <- b.Keys :: k in a
    ensures Eq(Obj(a), Obj(b))
  {
  }

  lemma {:induction false} DiffIsEmptyIff(s: Json, t: Json, path: string)
    ensures Diff(s, t, path) == [] <==> Eq(s, t)
    decreases s, 1, 0
  {
    hide ToString, Escape, Eq, DiffElements, DiffKeys, AddKeys;
    if Diff(s, t, path) == [] && !Eq(s, t) {
      if s.Arr? {
        NoElementDiffers(s, t, path, 0);
        assert |s.a| == |t.a|;
        SameElements(s.a, t.a);
      } else {
        NoKeyDiffers(s, t, path, Sorted(s.o.Keys));
        NoKeyMissing(s.o, t.o, path, Sorted(t.o.Keys));
        SameMembers(s.o, t.o);
      }
    }
  }

  lemma {:induction false} NoElementDiffers(s: Json, t: Json, path: string, i: nat)
    requires s.Arr? && t.Arr? && DiffElements(s, t, path, i) == []
    ensures forall k :: i <= k < Min(|s.a|, |t.a|) ==> Eq(s.a[k], t.a[k])
    decreases s, 0, |s.a| - i
  {
    hide ToString, Diff, Eq;
    if i < |s.a| && i < |t.a| {
      DiffIsEmptyIff(s.a[i], t.a[i], path + "/" + ToString(i));
      NoElementDiffers(s, t, path, i + 1);
    }
  }

  lemma {:induction false} NoKeyDiffers(s: Json, t: Json, path: string, keys: seq<string>)
    requires s.Obj? && t.Obj? && KeysOf(s.o, keys) && DiffKeys(s, t, path, keys) == []
    ensures forall k <- keys :: k in t.o && Eq(s.o[k], t.o[k])
    decreases s, 0, |keys|
  {
    hide Escape, Diff, Eq;
    if keys != [] {
      var k := keys[0];
      if k in t.o {
        DiffIsEmptyIff(s.o[k], t.o[k], path + "/" + Escape(k));
      }
      NoKeyDiffers(s, t, path, keys[1..]);
    }
  }

  lemma {:induction false} NoKeyMissing(source: map<string, Json>, target: map<string, Json>, path: string,
                                        keys: seq<string>)
    requires KeysOf(target, keys) && AddKeys(source, target, path, keys) == []
    ensures forall k <- keys :: k in source
    decreases |keys|
  {
    hide Escape;
    if keys != [] {
      NoKeyMissing(source, target, path, keys[1..]);
    }
  }

  // ---- An index that stoi cannot read ----

  lemma {:induction false} GetBlocked(d: Json, p: Pointer, m: seq<Json>, i: nat, r: Pointer)
    requires At(d, p, Arr(m)) && i > INT_MAX
    ensures Get(d, p + ([ToString(i)] + r)) == Err(Error.OutOfRange)
  {
    IndexToken(i, |m|);
    GetDeeper(d, p, Arr(m), [ToString(i)] + r);
    hide ToString, Stoi;
  }

  lemma {:induction false} AddBlocked(d: Json, p: Pointer, m: seq<Json>, i: nat, r: Pointer, v: Json)
    requires At(d, p, Arr(m)) && i > INT_MAX
    ensures OperationAdd(d, p + ([ToString(i)] + r), v) == Err(Error.OutOfRange)
  {
    var q := [ToString(i)] + r;
    IndexToken(i, |m|);
    assert AddAt(Arr(m), q, v) == Err(Error.OutOfRange);
    AddDeeper(d, p, Arr(m), q, v);
    if p == [] {
      GetBlocked(d, p, m, i, []);
      assert p + ([ToString(i)] + []) == [ToString(i)] == [(p + q)[0]];
    } else {
      FirstTokenExists(d, p);
      assert (p + q)[0] == p[0];
    }
    hide ToString, Stoi, AddAt, Get, Put;
  }

  lemma {:induction false} RemoveBlocked(d: Json, p: Pointer, m: seq<Json>, i: nat, r: Pointer)
    requires At(d, p, Arr(m)) && i > INT_MAX
    ensures OperationRemove(d, p + ([ToString(i)] + r)) == Err(Error.OutOfRange)
  {
    var q := p + ([ToString(i)] + r);
    IndexToken(i, |m|);
    if r == [] {
      assert q[..|q| - 1] == p && q[|q| - 1] == ToString(i);
      assert RemoveFrom(Arr(m), ToString(i)) == Err(Error.OutOfRange);
    } else {
      GetBlocked(d, p, m, i, r[..|r| - 1]);
      assert q[..|q| - 1] == p + ([ToString(i)] + r[..|r| - 1]);
    }
    hide ToString, Stoi, Get, Set, RemoveFrom;
  }

  lemma {:induction false} Blocked(d: Json, p: Pointer, m: seq<Json>, i: nat, op: Json)
    requires At(d, p, Arr(m)) && i > INT_MAX && Below(op, p + [ToString(i)])
    ensures ApplyOp(d, op) == Err(Error.OutOfRange)
  {
    hide ToStr, ToString, ApplyOp, OperationAdd, OperationRemove, Get, Set;
    var r :| Acts(op, ToStr(p + [ToString(i)] + r));
    var q := p + ([ToString(i)] + r);
    assert p + [ToString(i)] + r == q;
    if op == RemoveOp(ToStr(q)) {
      ApplyRemove(d, q);
      RemoveBlocked(d, p, m, i, r);
    } else {
      var v := op.o["value"];
      if op == AddOp(ToStr(q), v) {
        ApplyAdd(d, q, v);
        AddBlocked(d, p, m, i, r, v);
      } else {
        ApplyReplace(d, q, v);
        GetBlocked(d, p, m, i, r);
      }
    }
  }

  lemma {:induction false} DiffBlocked(d: Json, p: Pointer, m: seq<Json>, i: nat, s: Json, t: Json)
    requires At(d, p, Arr(m)) && i > INT_MAX && !Eq(s, t)
    ensures ApplyAll(d, Diff(s, t, ToStr(p + [ToString(i)]))) == Err(Error.OutOfRange)
  {
    hide ToStr, ToString, ApplyOp, Diff, Below, Eq, At;
    var q := p + [ToString(i)];
    var ops := Diff(s, t, ToStr(q));
    DiffIsEmptyIff(s, t, ToStr(q));
    DiffActsBelow(s, t, q);
    assert ops[0] in ops;
    Blocked(d, p, m, i, ops[0]);
  }

  // ---- A diff, applied ----

  // No operation of the diff needs an array index above INT_MAX.
  predicate IndexesFit(s: Json, t: Json)
    decreases s, 0
  {
    if Eq(s, t) || KindOf(s) != KindOf(t) then true
    else
      match s
      case Arr(a) =>
        && (|a| == |t.a| || (|a| - 1 <= INT_MAX && |t.a| - 1 <= INT_MAX))
        && forall i :: 0 <= i < Min(|a|, |t.a|) ==> ElementFits(i, a[i], t.a[i])
      case Obj(o) => forall k :: k in o && k in t.o ==> IndexesFit(o[k], t.o[k])
      case _ => true
  }

  predicate ElementFits(i: nat, s: Json, t: Json)
    decreases s, 1
  {
    Eq(s, t) || (i <= INT_MAX && IndexesFit(s, t))
  }

  lemma {:induction false} FitsWhenEqual(s: Json, t: Json)
    requires Eq(s, t)
    ensures IndexesFit(s, t) && Patched(s, t) == s
  {
    hide Eq;
  }

  // The elements from `i` on.
  predicate ElementsFit(s: seq<Json>, t: seq<Json>, i: nat) {
    forall k :: i <= k < Min(|s|, |t|) ==> ElementFits(k, s[k], t[k])
  }

  predicate KeysFit(s: map<string, Json>, t: map<string, Json>, keys: seq<string>)
    requires KeysOf(s, keys)
  {
    forall k <- keys :: k in t ==> IndexesFit(s[k], t[k])
  }

  // The common elements from `i` on are patched.
  function ElementsPatched(s: seq<Json>, t: seq<Json>, m: seq<Json>, i: nat): (r: seq<Json>)
    requires |m| == |s|
    ensures |r| == |s|
  {
    seq(|s|, k requires 0 <= k < |s| => if i <= k < |t| then Patched(s[k], t[k]) else m[k])
  }

  function KeysPatched(s: map<string, Json>, t: map<string, Json>, m: map<string, Json>, keys: seq<string>)
    : map<string, Json>
    requires KeysOf(s, keys)
  {
    map x | x in m.Keys && (x in keys ==> x in t) :: if x in keys then Patched(s[x], t[x]) else m[x]
  }

  lemma {:induction false} NextElement(s: seq<Json>, t: seq<Json>, m: seq<Json>, i: nat)
    requires |m| == |s| && i < |s| && i < |t|
    ensures ElementsPatched(s, t, m, i) == ElementsPatched(s, t, m[i := Patched(s[i], t[i])], i + 1)
    ensures ElementsFit(s, t, i) <==> ElementFits(i, s[i], t[i]) && ElementsFit(s, t, i + 1)
  {
    hide Patched, ElementFits;
  }

  lemma {:induction false} NoMoreElements(s: seq<Json>, t: seq<Json>, m: seq<Json>, i: nat)
    requires |m| == |s| && (i >= |s| || i >= |t|)
    ensures ElementsPatched(s, t, m, i) == m && ElementsFit(s, t, i)
  {
    hide Patched, ElementFits;
  }

  lemma {:induction false} NoMoreKeys(s: map<string, Json>, t: map<string, Json>, m: map<string, Json>)
    ensures KeysPatched(s, t, m, []) == m && KeysFit(s, t, [])
  {
    hide Patched, IndexesFit;
  }

  lemma {:induction false} NextKey(s: map<string, Json>, t: map<string, Json>, m: map<string, Json>,
                                   keys: seq<string>)
    requires keys != [] && KeysOf(s, keys) && Distinct(keys) && keys[0] in m
    ensures var k := keys[0];
            && (KeysFit(s, t, keys) <==> (k in t ==> IndexesFit(s[k], t[k])) && KeysFit(s, t, keys[1..]))
            && KeysPatched(s, t, m, keys)
               == KeysPatched(s, t, if k in t then m[k := Patched(s[k], t[k])] else m - {k}, keys[1..])
  {
    hide Patched, IndexesFit;
    assert keys[0] !in keys[1..];
  }

  lemma {:induction false} DiffApplies(d: Json, p: Pointer, s: Json, t: Json)
    requires At(d, p, s)
    ensures Yields(d, Diff(s, t, ToStr(p)), p, IndexesFit(s, t), Patched(s, t))
    decreases s, 1, 0
  {
    hide ApplyAll, ApplyOp, Put, Get, ToStr, DiffElements, DiffKeys, Eq;
    if Eq(s, t) {
      YieldsNothing(d, p, s);
    } else if KindOf(s) == KindOf(t) && s.Arr? {
      ArrayDiffApplies(d, p, s, t);
    } else if KindOf(s) == KindOf(t) && s.Obj? {
      ObjectDiffApplies(d, p, s, t);
    } else {
      ReplaceApplies(d, p, s, t);
      ApplyOne(d, ReplaceOp(ToStr(p), t));
    }
  }

  lemma {:induction false} ArrayPatched(s: Json, t: Json)
    requires s.Arr? && t.Arr? && !Eq(s, t)
    ensures var m := ElementsPatched(s.a, t.a, s.a, 0);
            && Patched(s, t) == Arr(m[..Min(|s.a|, |t.a|)] + t.a[Min(|s.a|, |t.a|)..])
            && (IndexesFit(s, t) <==> ElementsFit(s.a, t.a, 0) &&
                                      (|s.a| == |t.a| || (|s.a| - 1 <= INT_MAX && |t.a| - 1 <= INT_MAX)))
  {
    hide Eq, ElementFits;
    var m := ElementsPatched(s.a, t.a, s.a, 0);
    assert Patched(s, t).a == m[..Min(|s.a|, |t.a|)] + t.a[Min(|s.a|, |t.a|)..];
  }

  lemma {:induction false} DiffOfArrays(s: Json, t: Json, path: string)
    requires s.Arr? && t.Arr? && !Eq(s, t)
    ensures Diff(s, t, path) == DiffElements(s, t, path, 0) + Resize(|s.a|, t.a, path)
  {
    hide Eq, DiffElements, RemoveElements, AddElements;
    var c, l, m := DiffElements(s, t, path, 0), RemoveElements(|t.a|, |s.a|, path),
      AddElements(t.a, Min(|s.a|, |t.a|), path);
    assert c + (l + m) == c + l + m;
  }

  // The operations for what is left over of the longer array.
  function Resize(size: nat, t: seq<Json>, path: string): seq<Json> {
    RemoveElements(|t|, size, path) + AddElements(t, Min(size, |t|), path)
  }

  lemma {:induction false} ArrayDiffApplies(d: Json, p: Pointer, s: Json, t: Json)
    requires At(d, p, s) && s.Arr? && t.Arr? && !Eq(s, t)
    ensures Yields(d, Diff(s, t, ToStr(p)), p, IndexesFit(s, t), Patched(s, t))
    decreases s, 0, |s.a| + 1
  {
    hide *;
    var n := Min(|s.a|, |t.a|);
    var m := ElementsPatched(s.a, t.a, s.a, 0);
    DiffOfArrays(s, t, ToStr(p));
    Elements(d, p, s, t, s.a, 0);
    ArrayPatched(s, t);
    var f := ElementsFit(s.a, t.a, 0);
    if f {
      PutExists(d, p, s, Arr(m));
      ArrayResized(Put(d, p, Arr(m)), p, m, t.a);
    }
    YieldsTwice(d, p, s, DiffElements(s, t, ToStr(p), 0), f, Arr(m), Resize(|m|, t.a, ToStr(p)),
                |s.a| == |t.a| || (|s.a| - 1 <= INT_MAX && |t.a| - 1 <= INT_MAX),
                Arr(m[..Min(|m|, |t.a|)] + t.a[Min(|m|, |t.a|)..]));
  }

  lemma {:induction false} ArrayResized(d: Json, p: Pointer, m: seq<Json>, t: seq<Json>)
    requires At(d, p, Arr(m))
    ensures var n := Min(|m|, |t|);
            Yields(d, Resize(|m|, t, ToStr(p)), p,
                   |m| == |t| || (|m| - 1 <= INT_MAX && |t| - 1 <= INT_MAX), Arr(m[..n] + t[n..]))
  {
    var less, more := RemoveElements(|t|, |m|, ToStr(p)), AddElements(t, Min(|m|, |t|), ToStr(p));
    hide ApplyAll, Put, Get, ToStr, ToString;
    if |m| <= |t| {
      assert less == [] && less + more == more && m[..|m|] == m;
      Additions(d, p, m, t);
    } else {
      assert more == [] && less + more == less && m[..|t|] + t[|t|..] == m[..|t|];
      Removals(d, p, m, |t|);
    }
  }

  lemma {:induction false} Elements(d: Json, p: Pointer, s: Json, t: Json, m: seq<Json>, i: nat)
    requires At(d, p, Arr(m)) && s.Arr? && t.Arr? && |m| == |s.a|
    requires forall k :: i <= k < |m| ==> m[k] == s.a[k]
    ensures Yields(d, DiffElements(s, t, ToStr(p), i), p, ElementsFit(s.a, t.a, i),
                   Arr(ElementsPatched(s.a, t.a, m, i)))
    decreases s, 0, |s.a| - i
  {
    hide Diff, Patched, Eq, ElementFits, ElementsFit, ElementsPatched, ApplyAll, Put, Get, ToStr, ToString, At, Yields;
    if i >= |s.a| || i >= |t.a| {
      NoMoreElements(s.a, t.a, m, i);
      YieldsNothing(d, p, Arr(m));
    } else {
      var v := Patched(s.a[i], t.a[i]);
      var m' := m[i := v];
      var fits := ElementFits(i, s.a[i], t.a[i]);
      var ops := Diff(s.a[i], t.a[i], ToStr(p) + "/" + ToString(i));
      OneElement(d, p, s, t, m, i);
      NextElement(s.a, t.a, m, i);
      if fits {
        PutExists(d, p, Arr(m), Arr(m'));
        Elements(Put(d, p, Arr(m')), p, s, t, m', i + 1);
      }
      YieldsTwice(d, p, Arr(m), ops, fits, Arr(m'), DiffElements(s, t, ToStr(p), i + 1),
                  ElementsFit(s.a, t.a, i + 1), Arr(ElementsPatched(s.a, t.a, m', i + 1)));
    }
  }

  lemma {:induction false} OneElement(d: Json, p: Pointer, s: Json, t: Json, m: seq<Json>, i: nat)
    requires At(d, p, Arr(m)) && s.Arr? && t.Arr? && i < |m| == |s.a| && i < |t.a| && m[i] == s.a[i]
    ensures Yields(d, Diff(s.a[i], t.a[i], ToStr(p) + "/" + ToString(i)), p, ElementFits(i, s.a[i], t.a[i]),
                   Arr(m[i := Patched(s.a[i], t.a[i])]))
    decreases s, 0, 0
  {
    hide Diff, Patched, Eq, IndexesFit, ApplyAll, Put, Get, ToStr, ToString, At;
    IndexPath(p, i);
    if Eq(s.a[i], t.a[i]) {
      FitsWhenEqual(s.a[i], t.a[i]);
      DiffIsEmptyIff(s.a[i], t.a[i], ToStr(p) + "/" + ToString(i));
      assert m[i := m[i]] == m;
      YieldsNothing(d, p, Arr(m));
    } else if i > INT_MAX {
      DiffBlocked(d, p, m, i, s.a[i], t.a[i]);
    } else {
      ElementAt(d, p, m, i, Patched(s.a[i], t.a[i]));
      DiffApplies(d, p + [ToString(i)], s.a[i], t.a[i]);
    }
  }

  lemma {:induction false} PatchedMembers(s: Json, t: Json)
    requires s.Obj? && t.Obj? && !Eq(s, t)
    ensures var r := Patched(s, t);
            && r.Obj? && r.o.Keys == t.o.Keys
            && forall k <- t.o.Keys :: r.o[k] == if k in s.o then Patched(s.o[k], t.o[k]) else t.o[k]
  {
    hide Eq;
  }

  lemma {:induction false} ObjectPatched(s: Json, t: Json)
    requires s.Obj? && t.Obj? && !Eq(s, t)
    ensures var keys := Sorted(s.o.Keys);
            Patched(s, t) == Obj(WithAdded(KeysPatched(s.o, t.o, s.o, keys), s.o, t.o, Sorted(t.o.Keys)))
  {
    hide Eq, Sorted, Patched;
    PatchedMembers(s, t);
    var m := KeysPatched(s.o, t.o, s.o, Sorted(s.o.Keys));
    var r := Patched(s, t).o;
    var w := WithAdded(m, s.o, t.o, Sorted(t.o.Keys));
    assert m.Keys == s.o.Keys * t.o.Keys;
    assert w.Keys == t.o.Keys;
    assert r == w;
  }

  lemma {:induction false} ObjectFits(s: Json, t: Json)
    requires s.Obj? && t.Obj? && !Eq(s, t)
    ensures IndexesFit(s, t) <==> KeysFit(s.o, t.o, Sorted(s.o.Keys))
  {
    hide Eq, Sorted;
  }

  lemma {:induction false} DiffOfObjects(s: Json, t: Json, path: string)
    requires s.Obj? && t.Obj? && !Eq(s, t)
    ensures Diff(s, t, path) ==
              DiffKeys(s, t, path, Sorted(s.o.Keys)) + AddKeys(s.o, t.o, path, Sorted(t.o.Keys))
  {
    hide Eq, DiffKeys, AddKeys;
  }

  lemma {:induction false} ObjectDiffApplies(d: Json, p: Pointer, s: Json, t: Json)
    requires At(d, p, s) && s.Obj? && t.Obj? && !Eq(s, t)
    ensures Yields(d, Diff(s, t, ToStr(p)), p, IndexesFit(s, t), Patched(s, t))
    decreases s, 0, |s.o| + 1
  {
    hide *;
    SortedKeys(s.o);
    SortedKeys(t.o);
    var keys, news := Sorted(s.o.Keys), Sorted(t.o.Keys);
    var m := KeysPatched(s.o, t.o, s.o, keys);
    DiffOfObjects(s, t, ToStr(p));
    SortedDistinct(s.o.Keys);
    Keys(d, p, s, t, s.o, keys);
    ObjectPatched(s, t);
    ObjectFits(s, t);
    var f := KeysFit(s.o, t.o, keys);
    if f {
      PutExists(d, p, s, Obj(m));
      KeyAdditions(Put(d, p, Obj(m)), p, m, s.o, t.o, news);
    }
    YieldsTwice(d, p, s, DiffKeys(s, t, ToStr(p), keys), f, Obj(m), AddKeys(s.o, t.o, ToStr(p), news), true,
                Obj(WithAdded(m, s.o, t.o, news)));
  }

  lemma {:induction false} Keys(d: Json, p: Pointer, s: Json, t: Json, m: map<string, Json>, keys: seq<string>)
    requires At(d, p, Obj(m)) && s.Obj? && t.Obj? && Distinct(keys)
    requires KeysOf(s.o, keys) && forall k <- keys :: k in m && m[k] == s.o[k]
    ensures Yields(d, DiffKeys(s, t, ToStr(p), keys), p, KeysFit(s.o, t.o, keys),
                   Obj(KeysPatched(s.o, t.o, m, keys)))
    decreases s, 0, |keys|
  {
    hide Diff, Patched, Eq, IndexesFit, KeysFit, KeysPatched, ApplyAll, Put, Get, ToStr, Escape, At, Yields;
    if keys == [] {
      NoMoreKeys(s.o, t.o, m);
      YieldsNothing(d, p, Obj(m));
    } else {
      var k, rest := keys[0], keys[1..];
      var both := k in t.o;
      var m' := if both then m[k := Patched(s.o[k], t.o[k])] else m - {k};
      var fits := both ==> IndexesFit(s.o[k], t.o[k]);
      var ops := if both then Diff(s.o[k], t.o[k], ToStr(p) + "/" + Escape(k))
                 else [RemoveOp(ToStr(p) + "/" + Escape(k))];
      OneKey(d, p, s, t, m, k);
      NextKey(s.o, t.o, m, keys);
      assert k !in rest;
      if fits {
        PutExists(d, p, Obj(m), Obj(m'));
        Keys(Put(d, p, Obj(m')), p, s, t, m', rest);
      }
      YieldsTwice(d, p, Obj(m), ops, fits, Obj(m'), DiffKeys(s, t, ToStr(p), rest),
                  KeysFit(s.o, t.o, rest), Obj(KeysPatched(s.o, t.o, m', rest)));
    }
  }

  lemma {:induction false} OneKey(d: Json, p: Pointer, s: Json, t: Json, m: map<string, Json>, k: string)
    requires At(d, p, Obj(m)) && s.Obj? && t.Obj? && k in s.o && k in m && m[k] == s.o[k]
    ensures k in t.o ==> Yields(d, Diff(s.o[k], t.o[k], ToStr(p) + "/" + Escape(k)), p,
                                IndexesFit(s.o[k], t.o[k]), Obj(m[k := Patched(s.o[k], t.o[k])]))
    ensures k !in t.o ==> Yields(d, [RemoveOp(ToStr(p) + "/" + Escape(k))], p, true, Obj(m - {k}))
    decreases s, 0, 0
  {
    hide Diff, Patched, Eq, IndexesFit, ApplyAll, Put, Get, ToStr, Escape, At;
    if k in t.o {
      PathOf(p, k);
      MemberAt(d, p, m, k, Patched(s.o[k], t.o[k]));
      DiffApplies(d, p + [k], s.o[k], t.o[k]);
    } else {
      KeyRemoved(d, p, m, k);
    }
  }

  // Patching a value with a diff makes it equal to the target, unless an index is too large for stoi.
  lemma {:induction false} PatchOfDiff(s: Json, t: Json)
    ensures var r := Patch(s, Arr(Diff(s, t, "")));
            if IndexesFit(s, t) then r.Ok? && Eq(r.value, t) else r == Err(Error.OutOfRange)
  {
    hide Diff, Patched, Eq, IndexesFit, ApplyAll;
    DiffApplies(s, [], s, t);
    PatchedEqualsTarget(s, t);
  }

  // An array that is one element too long for stoi cannot be shortened this way.
  lemma {:induction false} LongArrayIsNotPatched()
    ensures var s, t := Arr(seq(INT_MAX + 2, _ => Null)), Arr([]);
            Patch(s, Arr(Diff(s, t, ""))) == Err(Error.OutOfRange)
  {
    var s, t := Arr(seq(INT_MAX + 2, _ => Null)), Arr([]);
    assert !Eq(s, t) && !IndexesFit(s, t);
    hide Patch, Diff, Eq, IndexesFit;
    PatchOfDiff(s, t);
  }

  // ---- The operations a diff does not use ----

  function TestOp(path: string, v: Json): Json {
    Obj(map["op" := Str("test"), "path" := Str(path), "value" := v])
  }

  function CopyOp(source: string, path: string): Json {
    Obj(map["op" := Str("copy"), "path" := Str(path), "from" := Str(source)])
  }

  function MoveOp(source: string, path: string): Json {
    Obj(map["op" := Str("move"), "path" := Str(path), "from" := Str(source)])
  }

  // A test leaves the document as it is, and succeeds exactly when the location holds an equal value; that there is no
  // such location is one way to fail it, a token that is no index another error.
  lemma {:induction false} TestIff(d: Json, p: Pointer, v: Json)
    ensures var r := ApplyOp(d, TestOp(ToStr(p), v));
            && (r.Ok? <==> Get(d, p).Ok? && Eq(Get(d, p).value, v))
            && (r.Ok? ==> r.value == d)
            && (!r.Ok? ==>
                  r == if Get(d, p).Ok? || Get(d, p).error == Error.OutOfRange then Err(DomainError) else Get(d, p))
  {
    SplitOfPrinted(p);
    hide Split, ToStr, ApplyTo, Get, Eq, ApplyOp, OperationAdd, OperationRemove, SetCreating, Set;
    var op := TestOp(ToStr(p), v);
    Selected(d, op, "test", p);
    TestAction(d, op.o, p);
  }

  lemma {:induction false} TestAction(d: Json, op: map<string, Json>, p: Pointer)
    requires "value" in op
    ensures ApplyTo(d, op, "test", p) == Tested(d, Get(d, p), op["value"])
  {
    hide OperationAdd, OperationRemove, Get, Set, SetCreating, Split, Eq, Tested;
  }

  lemma {:induction false} MoveAction(d: Json, op: map<string, Json>, q: Pointer, p: Pointer)
    requires Member(op, "from") == Ok(ToStr(q))
    ensures ApplyTo(d, op, "move", p) ==
              if Get(d, q).Err? then Get(d, q)
              else if OperationRemove(d, q).Err? then OperationRemove(d, q)
              else OperationAdd(OperationRemove(d, q).value, p, Get(d, q).value)
  {
    SplitOfPrinted(q);
    hide OperationAdd, OperationRemove, Get, Set, SetCreating, Split, Eq, Tested, ToStr;
  }

  lemma {:induction false} CopyAction(d: Json, op: map<string, Json>, q: Pointer, p: Pointer)
    requires Member(op, "from") == Ok(ToStr(q))
    ensures ApplyTo(d, op, "copy", p) == if Get(d, q).Err? then Get(d, q) else SetCreating(d, p, Get(d, q).value)
  {
    SplitOfPrinted(q);
    hide OperationAdd, OperationRemove, Get, Set, SetCreating, Split, Eq, Tested, ToStr;
  }

  // Section 4.4 of RFC 6902: a move is a remove and then an add of what was removed.
  lemma {:induction false} MoveIsRemoveAndAdd(d: Json, q: Pointer, p: Pointer, v: Json)
    requires At(d, q, v)
    ensures ApplyOp(d, MoveOp(ToStr(q), ToStr(p))) == ApplyAll(d, [RemoveOp(ToStr(q)), AddOp(ToStr(p), v)])
  {
    SplitOfPrinted(p);
    ApplyRemove(d, q);
    hide Split, ToStr, ApplyTo, Get, Eq, ApplyOp, OperationAdd, OperationRemove, Set, AddOp, RemoveOp;
    var op := MoveOp(ToStr(q), ToStr(p));
    Selected(d, op, "move", p);
    MoveAction(d, op.o, q, p);
    var r := OperationRemove(d, q);
    if r.Ok? {
      ApplyAdd(r.value, p, v);
    }
    TwoInTurn(d, RemoveOp(ToStr(q)), AddOp(ToStr(p), v));
  }

  lemma {:induction false} TwoInTurn(d: Json, a: Json, b: Json)
    ensures ApplyAll(d, [a, b]) == if ApplyOp(d, a).Ok? then ApplyOp(ApplyOp(d, a).value, b) else ApplyOp(d, a)
  {
    hide ApplyOp, ApplyAll;
    assert [a, b] == [a] + [b];
    ApplyInTurn(d, [a], [b]);
    ApplyOne(d, a);
    if ApplyOp(d, a).Ok? {
      ApplyOne(ApplyOp(d, a).value, b);
    }
  }

  lemma {:induction false} SetCreatingDeeper(j: Json, p: Pointer, s: Json, q: Pointer, v: Json)
    requires At(j, p, s)
    ensures SetCreating(j, p + q, v) == PutResult(j, p, SetCreating(s, q, v))
    decreases |p|
  {
    var r := SetCreating(s, q, v);
    if p == [] {
      assert p + q == q;
    } else {
      assert (p + q)[1..] == p[1..] + q;
      match j
      case Obj(o) =>
        SetCreatingDeeper(o[p[0]], p[1..], s, q, v);
        if r.Ok? { PutExists(o[p[0]], p[1..], s, r.value); }
      case Arr(a) =>
        var i := CheckedIndex(p[0], |a|).value;
        assert Grown(a, i + 1) == a && UncheckedIndex(p[0], |a|) == Ok(i);
        SetCreatingDeeper(a[i], p[1..], s, q, v);
        if r.Ok? { PutExists(a[i], p[1..], s, r.value); }
    }
  }

  // What a copy does to the parent of its location.
  lemma {:induction false} CopyApplies(d: Json, q: Pointer, v: Json, p: Pointer, s: Json, k: string)
    requires At(d, q, v) && At(d, p, s)
    ensures ApplyOp(d, CopyOp(ToStr(q), ToStr(p + [k]))) == PutResult(d, p, SetCreating(s, [k], v))
  {
    hide Split, ToStr, ApplyTo, Get, Eq, ApplyOp, SetCreating, Set, PutResult, Put;
    SplitOfPrinted(p + [k]);
    SetCreatingDeeper(d, p, s, [k], v);
    var op := CopyOp(ToStr(q), ToStr(p + [k]));
    Selected(d, op, "copy", p + [k]);
    CopyAction(d, op.o, q, p + [k]);
  }

  // Where a copy below the value `s`, to the token `k`, is an add: in an object; in an array at its end, or where both
  // refuse the token. A token that is a numeral with a leading zero is refused by the copy alone.
  predicate CopyAgrees(s: Json, k: string) {
    match s
    case Obj(_) => true
    case Arr(a) =>
      || k == "-"
      || Stoi(k).NotANumber?
      || (!(|k| > 1 && k[0] == '0') && (Stoi(k).OutOfRange? || Stoi(k) == Value(|a|)))
    case _ => false
  }

  lemma {:induction false} CopyBelowIff(s: Json, k: string, v: Json)
    ensures SetCreating(s, [k], v) == AddTo(s, k, v) <==> CopyAgrees(s, k)
  {
    assert [k][1..] == [];
    match s
    case Arr(a) => CopyIntoArray(a, k, v);
    case _ =>
  }

  lemma {:induction false} ZeroIsNumber(k: string)
    requires k != [] && k[0] == '0'
    ensures !Stoi(k).NotANumber?
  {
  }

  lemma {:induction false} CopyIntoArray(a: seq<Json>, k: string, v: Json)
    ensures SetCreating(Arr(a), [k], v) == AddTo(Arr(a), k, v) <==> CopyAgrees(Arr(a), k)
    ensures CheckedIndex(k, |a|).Ok? ==> SetCreating(Arr(a), [k], v) == Ok(Arr(a[CheckedIndex(k, |a|).value := v]))
  {
    assert [k][1..] == [];
    if |k| > 1 && k[0] == '0' {
      ZeroIsNumber(k);
    }
    hide Stoi;
    if UncheckedIndex(k, |a|).Ok? {
      var n := UncheckedIndex(k, |a|).value;
      var grown := Grown(a, n + 1)[n := v];
      if n == |a| {
        assert grown == a + [v] == a[..n] + [v] + a[n..];
      } else if n < |a| {
        assert |grown| == |a| && |a[..n] + [v] + a[n..]| == |a| + 1;
      } else {
        assert AddTo(Arr(a), k, v).Err?;
      }
    }
  }

  lemma {:induction false} SameOutcome(d: Json, p: Pointer, s: Json, x: Result<Json>, y: Result<Json>)
    requires At(d, p, s)
    ensures PutResult(d, p, x) == PutResult(d, p, y) <==> x == y
  {
    if x.Ok? {
      PutExists(d, p, s, x.value);
    }
    if y.Ok? {
      PutExists(d, p, s, y.value);
    }
    hide Put, Get, Set;
  }

  // Section 4.5 of RFC 6902 makes a copy an add of the value. Below any value that exists, and for any token, it has
  // the outcome of that add exactly where they agree.
  lemma {:induction false} CopyIsAddIff(d: Json, q: Pointer, v: Json, p: Pointer, s: Json, k: string)
    requires At(d, q, v) && At(d, p, s)
    ensures var path := ToStr(p + [k]);
            ApplyOp(d, CopyOp(ToStr(q), path)) == ApplyOp(d, AddOp(path, v)) <==> CopyAgrees(s, k)
  {
    hide ApplyOp, ToStr, AddTo, SetCreating, Put, CopyAgrees, Get, At;
    CopyApplies(d, q, v, p, s, k);
    AddApplies(d, p, s, k, v);
    SameOutcome(d, p, s, SetCreating(s, [k], v), AddTo(s, k, v));
    CopyBelowIff(s, k, v);
  }

  // Over an element of an array that exists a copy writes, where an add would insert.
  lemma {:induction false} CopyOverElement(d: Json, q: Pointer, v: Json, p: Pointer, a: seq<Json>, k: string, n: nat)
    requires At(d, q, v) && At(d, p, Arr(a)) && n < |a| && CheckedIndex(k, |a|) == Ok(n)
    ensures ApplyOp(d, CopyOp(ToStr(q), ToStr(p + [k]))) == Ok(Put(d, p, Arr(a[n := v])))
  {
    CopyIntoArray(a, k, v);
    hide ApplyOp, ToStr, SetCreating, Put, CheckedIndex, Get, At;
    CopyApplies(d, q, v, p, Arr(a), k);
  }

  // To the root, a copy is an add as well.
  lemma {:induction false} CopyToRoot(d: Json, q: Pointer, v: Json)
    requires At(d, q, v)
    ensures ApplyOp(d, CopyOp(ToStr(q), ToStr([]))) == ApplyOp(d, AddOp(ToStr([]), v)) == Ok(v)
  {
    SplitOfPrinted([]);
    ApplyAdd(d, [], v);
    hide Split, ToStr, ApplyTo, Get, ApplyOp;
    var op := CopyOp(ToStr(q), ToStr([]));
    Selected(d, op, "copy", []);
    CopyAction(d, op.o, q, []);
  }

  lemma {:induction false} SmallTokens()
    ensures CheckedIndex("0", 2) == Ok(0) && CheckedIndex("1", 2) == Ok(1) && Stoi("1") == Value(1)
  {
    assert ToString(0) == "0" && ToString(1) == "1";
    IndexToken(0, 2);
    IndexToken(1, 2);
  }

  lemma {:induction false} PairFacts(x: Json, y: Json)
    ensures At(Arr([x, y]), ["0"], x) && At(Arr([x, y]), [], Arr([x, y]))
    ensures AddTo(Arr([x, y]), "1", x) == Ok(Arr([x, x, y]))
  {
    SmallTokens();
    hide Stoi, CheckedIndex;
    assert ["0"][1..] == [];
    assert [x, y][..1] + [x] + [x, y][1..] == [x, x, y];
  }

  // A copy from /0 to /1 overwrites the second of two elements; an add would make a third.
  lemma {:induction false} CopyOverwrites(x: Json, y: Json)
    ensures ApplyOp(Arr([x, y]), CopyOp(ToStr(["0"]), ToStr(["1"]))) == Ok(Arr([x, x]))
    ensures ApplyOp(Arr([x, y]), AddOp(ToStr(["1"]), x)) == Ok(Arr([x, x, y]))
  {
    hide ApplyOp, ToStr, CheckedIndex, At, AddTo, AddOp, CopyOp;
    var d := Arr([x, y]);
    SmallTokens();
    PairFacts(x, y);
    assert [] + ["1"] == ["1"] && [x, y][1 := x] == [x, x];
    CopyOverElement(d, ["0"], x, [], [x, y], "1", 1);
    AddApplies(d, [], d, "1", x);
  }

  // ---- The loops ----

  method PatchDocument(document: Json, patch: Json) returns (r: Result<Json>)
    ensures r == Patch(document, patch)
  {
    if !patch.Arr? {
      return Err(InvalidArgument);
    }
    hide ApplyOp;
    var result := document;
    for i := 0 to |patch.a|
      invariant ApplyAll(document, patch.a) == ApplyAll(result, patch.a[i..])
    {
      var op := patch.a[i];
      assert patch.a[i..][0] == op && patch.a[i..][1..] == patch.a[i + 1..];
      var next := ApplyOp(result, op);
      if next.Err? {
        return next;
      }
      result := next.value;
    }
    return Ok(result);
  }

  lemma {:induction false} ElementStep(done: seq<Json>, s: Json, t: Json, path: string, i: nat)
    requires s.Arr? && t.Arr? && i < |s.a| && i < |t.a|
    ensures done + DiffElements(s, t, path, i)
         == done + Diff(s.a[i], t.a[i], path + "/" + ToString(i)) + DiffElements(s, t, path, i + 1)
  {
    hide Diff, ToString;
    var sub, rest := Diff(s.a[i], t.a[i], path + "/" + ToString(i)), DiffElements(s, t, path, i + 1);
    assert done + (sub + rest) == done + sub + rest;
  }

  method CompareElements(source: Json, target: Json, path: string) returns (result: seq<Json>)
    requires source.Arr? && target.Arr?
    ensures result == DiffElements(source, target, path, 0)
    decreases source, 0, 0
  {
    hide Diff, DiffElements, ToString;
    result := [];
    var i := 0;
    while i < |source.a| && i < |target.a|
      invariant 0 <= i <= |source.a| && i <= |target.a|
      invariant result + DiffElements(source, target, path, i) == DiffElements(source, target, path, 0)
    {
      ElementStep(result, source, target, path, i);
      var sub := DiffValues(source.a[i], target.a[i], path + "/" + ToString(i));
      result := result + sub;
      i := i + 1;
    }
    NoElementsLeft(source, target, path, i);
  }

  lemma {:induction false} NoElementsLeft(s: Json, t: Json, path: string, i: nat)
    requires s.Arr? && t.Arr? && (i >= |s.a| || i >= |t.a|)
    ensures DiffElements(s, t, path, i) == []
  {
  }

  // What is left over of the longer array; a removal is inserted in front of those already there.
  method ResizeArray(common: seq<Json>, a: seq<Json>, b: seq<Json>, path: string) returns (result: seq<Json>)
    ensures result == common + Resize(|a|, b, path)
  {
    hide ToString;
    result := common;
    var i := Min(|a|, |b|);
    var end := |result|;
    while i < |a|
      invariant Min(|a|, |b|) <= i <= |a|
      invariant result == common + RemoveElements(|b|, i, path)
    {
      assert result[..end] == common && result[end..] == RemoveElements(|b|, i, path);
      result := result[..end] + [RemoveOp(path + "/" + ToString(i))] + result[end..];
      i := i + 1;
    }
    ghost var less := result;
    while i < |b|
      invariant i >= |a|
      invariant result + AddElements(b, i, path) == less + AddElements(b, Min(|a|, |b|), path)
    {
      result := result + [AddOp(path + "/" + ToString(i), b[i])];
      i := i + 1;
    }
    ghost var removals, additions := RemoveElements(|b|, |a|, path), AddElements(b, Min(|a|, |b|), path);
    assert common + removals + additions == common + (removals + additions);
  }

  lemma {:induction false} KeyStep(done: seq<Json>, s: Json, t: Json, path: string, keys: seq<string>, i: nat)
    requires s.Obj? && t.Obj? && i < |keys| && KeysOf(s.o, keys[i..])
    ensures KeysOf(s.o, keys[i + 1..]) && keys[i] in s.o
    ensures var k, p := keys[i], path + "/" + Escape(keys[i]);
            done + DiffKeys(s, t, path, keys[i..])
            == done + (if k in t.o then Diff(s.o[k], t.o[k], p) else [RemoveOp(p)])
               + DiffKeys(s, t, path, keys[i + 1..])
  {
    hide Diff, Escape;
    assert keys[i..][0] == keys[i] && keys[i..][1..] == keys[i + 1..];
    var k, p, rest := keys[i], path + "/" + Escape(keys[i]), DiffKeys(s, t, path, keys[i + 1..]);
    var sub := if k in t.o then Diff(s.o[k], t.o[k], p) else [RemoveOp(p)];
    assert done + (sub + rest) == done + sub + rest;
  }

  method CompareKeys(source: Json, target: Json, path: string) returns (result: seq<Json>)
    requires source.Obj? && target.Obj?
    ensures result == DiffKeys(source, target, path, Sorted(source.o.Keys))
    decreases source, 0, 0
  {
    var keys := Sorted(source.o.Keys);
    SortedKeys(source.o);
    hide Diff, DiffKeys, Escape, Sorted, KeysOf;
    result := [];
    assert keys[0..] == keys;
    for i := 0 to |keys|
      invariant KeysOf(source.o, keys[i..])
      invariant result + DiffKeys(source, target, path, keys[i..]) == DiffKeys(source, target, path, keys)
    {
      var k := keys[i];
      KeyStep(result, source, target, path, keys, i);
      var key := Escape(k);
      if k in target.o {
        var sub := DiffValues(source.o[k], target.o[k], path + "/" + key);
        result := result + sub;
      } else {
        result := result + [RemoveOp(path + "/" + key)];
      }
    }
    assert keys[|keys|..] == [];
    NoKeysLeft(source, target, path);
  }

  lemma {:induction false} NoKeysLeft(s: Json, t: Json, path: string)
    requires s.Obj? && t.Obj?
    ensures DiffKeys(s, t, path, []) == [] && AddKeys(s.o, t.o, path, []) == []
  {
  }

  lemma {:induction false} NewKeyStep(done: seq<Json>, s: map<string, Json>, t: map<string, Json>, path: string,
                                      keys: seq<string>, i: nat)
    requires i < |keys| && KeysOf(t, keys[i..])
    ensures KeysOf(t, keys[i + 1..]) && keys[i] in t
    ensures var k := keys[i];
            done + AddKeys(s, t, path, keys[i..]) ==
              (if k in s then done else done + [AddOp(path + "/" + Escape(k), t[k])])
              + AddKeys(s, t, path, keys[i + 1..])
  {
    hide Escape, AddOp;
    assert keys[i..][0] == keys[i] && keys[i..][1..] == keys[i + 1..];
    var k, rest := keys[i], AddKeys(s, t, path, keys[i + 1..]);
    if k in s {
      assert [] + rest == rest;
    } else {
      var sub := [AddOp(path + "/" + Escape(k), t[k])];
      assert done + (sub + rest) == done + sub + rest;
    }
  }

  method AddNewKeys(common: seq<Json>, source: Json, target: Json, path: string) returns (result: seq<Json>)
    requires source.Obj? && target.Obj?
    ensures result == common + AddKeys(source.o, target.o, path, Sorted(target.o.Keys))
  {
    var keys := Sorted(target.o.Keys);
    SortedKeys(target.o);
    hide AddKeys, AddOp, Escape, Sorted, KeysOf;
    result := common;
    assert keys[0..] == keys;
    for i := 0 to |keys|
      invariant KeysOf(target.o, keys[i..])
      invariant result + AddKeys(source.o, target.o, path, keys[i..]) ==
                common + AddKeys(source.o, target.o, path, keys)
    {
      var k := keys[i];
      NewKeyStep(result, source.o, target.o, path, keys, i);
      if k !in source.o {
        result := result + [AddOp(path + "/" + Escape(k), target.o[k])];
      }
    }
    assert keys[|keys|..] == [];
    NoKeysLeft(source, target, path);
  }

  method DiffValues(source: Json, target: Json, path: string) returns (result: seq<Json>)
    ensures result == Diff(source, target, path)
    decreases source, 1
  {
    hide Eq;
    if Eq(source, target) {
      return [];
    }
    if KindOf(source) != KindOf(target) {
      return [ReplaceOp(path, target)];
    }
    match source {
      case Arr(a) =>
        var common := CompareElements(source, target, path);
        result := ResizeArray(common, a, target.a, path);
        DiffOfArrays(source, target, path);
      case Obj(_) =>
        var common := CompareKeys(source, target, path);
        result := AddNewKeys(common, source, target, path);
        DiffOfObjects(source, target, path);
      case _ => result := [ReplaceOp(path, target)];
    }
  }
}
