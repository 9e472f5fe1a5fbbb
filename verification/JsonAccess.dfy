/** Access to a place inside a JSON value, through a pointer. */
module JsonAccess {
  import opened Decimal
  import opened JsonPointer
  import opened JsonResult
  import opened JsonValue
  import opened StringOrder

  // The index a token stands for in an array of `size` elements, as at() checks it.
  function CheckedIndex(token: string, size: nat): Result<nat> {
    if token == "-" then Err(Error.OutOfRange)
    else if |token| > 1 && token[0] == '0' then Err(DomainError)
    else
      match Stoi(token)
      case Value(n) => if 0 <= n < size then Ok(n) else Err(Error.OutOfRange)
      case NotANumber => Err(InvalidArgument)
      case OutOfRange => Err(Error.OutOfRange)
  }

  // The index operator[] goes to; a negative one would make the array grow without bound.
  function UncheckedIndex(token: string, size: nat): Result<nat> {
    if |token| > 1 && token[0] == '0' then Err(DomainError)
    else if token == "-" then Ok(size)
    else
      match Stoi(token)
      case Value(n) => if n >= 0 then Ok(n) else Err(BadAllocation)
      case NotANumber => Err(InvalidArgument)
      case OutOfRange => Err(Error.OutOfRange)
  }

  // get_checked
  function Get(j: Json, p: Pointer): Result<Json>
    decreases |p|
  {
    if p == [] then Ok(j)
    else
      match j
      case Obj(o) => if p[0] in o then Get(o[p[0]], p[1..]) else Err(Error.OutOfRange)
      case Arr(a) =>
        (match CheckedIndex(p[0], |a|)
         case Ok(i) => if i < |a| then Get(a[i], p[1..]) else Err(Error.OutOfRange)
         case Err(e) => Err(e))
      case _ => Err(Error.OutOfRange)
  }

  function WrapObj(o: map<string, Json>, k: string, r: Result<Json>): Result<Json> {
    if r.Ok? then Ok(Obj(o[k := r.value])) else r
  }

  function WrapArr(a: seq<Json>, i: nat, r: Result<Json>): Result<Json>
    requires i < |a|
  {
    if r.Ok? then Ok(Arr(a[i := r.value])) else r
  }

  // Assignment to at(p): the location must exist.
  function Set(j: Json, p: Pointer, v: Json): Result<Json>
    decreases |p|
  {
    if p == [] then Ok(v)
    else
      match j
      case Obj(o) => if p[0] in o then WrapObj(o, p[0], Set(o[p[0]], p[1..], v)) else Err(Error.OutOfRange)
      case Arr(a) =>
        (match CheckedIndex(p[0], |a|)
         case Ok(i) => if i < |a| then WrapArr(a, i, Set(a[i], p[1..], v)) else Err(Error.OutOfRange)
         case Err(e) => Err(e))
      case _ => Err(Error.OutOfRange)
  }

  function Grown(a: seq<Json>, size: nat): (r: seq<Json>)
    ensures |r| >= |a| && |r| >= size && r[..|a|] == a
  {
    if |a| < size then a + seq(size - |a|, _ => Null) else a
  }

  // Assignment to operator[](p), which creates what is missing.
  function SetCreating(j: Json, p: Pointer, v: Json): Result<Json>
    decreases |p|
  {
    if p == [] then Ok(v)
    else
      match j
      case Obj(o) => WrapObj(o, p[0], SetCreating(if p[0] in o then o[p[0]] else Null, p[1..], v))
      case Arr(a) =>
        (match UncheckedIndex(p[0], |a|)
         case Ok(i) => WrapArr(Grown(a, i + 1), i, SetCreating(Grown(a, i + 1)[i], p[1..], v))
         case Err(e) => Err(e))
      case _ => Err(Error.OutOfRange)
  }

  // The loop of operator[] that fills the array up with nulls.
  method Grow(a: seq<Json>, idx: nat) returns (r: seq<Json>)
    ensures r == Grown(a, idx + 1)
  {
    r := a;
    for i := |a| to Max(|a|, idx + 1)
      invariant r == Grown(a, i)
    {
      r := r + [Null];
    }
  }

  function Max(m: nat, n: nat): nat {
    if m < n then n else m
  }

  // ---- Paths ----

  lemma {:induction false} PathOf(p: Pointer, k: string)
    ensures ToStr(p) + "/" + Escape(k) == ToStr(p + [k])
  {
    ToStrAppend(p, [k]);
    hide Escape;
    assert [k][1..] == [];
    assert Escape(k) + "" == Escape(k);
    assert ToStr(p) + ("/" + Escape(k)) == ToStr(p) + "/" + Escape(k);
  }

  lemma {:induction false} DigitsNeedNoEscape(s: string)
    requires AllDigits(s)
    ensures Escape(s) == s
    decreases |s|
  {
    EscapeIsEncode(s);
    if s != [] {
      DigitsNeedNoEscape(s[1..]);
      EscapeIsEncode(s[1..]);
      assert IsDigit(s[0]);
      assert s == [s[0]] + s[1..];
    }
  }

  lemma {:induction false} IndexPath(p: Pointer, i: nat)
    ensures ToStr(p) + "/" + ToString(i) == ToStr(p + [ToString(i)])
  {
    PathOf(p, ToString(i));
    DigitsNeedNoEscape(ToString(i));
  }

  predicate KeysOf(m: map<string, Json>, keys: seq<string>) {
    forall k <- keys :: k in m
  }

  lemma {:induction false} SortedKeys(m: map<string, Json>)
    ensures KeysOf(m, Sorted(m.Keys))
  {
  }
}
