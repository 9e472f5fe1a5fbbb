/** What each operation of a patch comes to, for every kind of value at the parent of its location, and which operation
    objects are refused. */
module JsonPatchOutcomes {
  import opened Decimal
  import opened JsonAccess
  import opened JsonPatch
  import opened JsonPointer
  import opened JsonResult
  import opened JsonValue

  predicate IsPrimitive(j: Json) {
    !j.Arr? && !j.Obj?
  }

  // ---- What at() finds ----

  // One token below a location: the member of that name, the element of that index, or an error.
  lemma {:induction false} AtMember(d: Json, p: Pointer, o: map<string, Json>, k: string)
    requires At(d, p, Obj(o))
    ensures Get(d, p + [k]) == if k in o then Ok(o[k]) else Err(Error.OutOfRange)
  {
    GetDeeper(d, p, Obj(o), [k]);
    assert [k][1..] == [];
  }

  lemma {:induction false} AtElement(d: Json, p: Pointer, a: seq<Json>, n: nat)
    requires At(d, p, Arr(a))
    ensures Get(d, p + [ToString(n)]) == if n < |a| && n <= 2147483647 then Ok(a[n]) else Err(Error.OutOfRange)
  {
    GetDeeper(d, p, Arr(a), [ToString(n)]);
    IndexToken(n, |a|);
    hide ToString, CheckedIndex;
    assert [ToString(n)][1..] == [];
  }

  lemma {:induction false} AtPrimitive(d: Json, p: Pointer, s: Json, k: string)
    requires At(d, p, s) && IsPrimitive(s)
    ensures Get(d, p + [k]) == Err(Error.OutOfRange)
  {
    GetDeeper(d, p, s, [k]);
  }

  // An index of section 4 of RFC 6901: digits without a leading zero.
  predicate IsRfcIndex(k: string) {
    k != [] && AllDigits(k) && (k[0] == '0' ==> |k| == 1)
  }

  ghost predicate Names(k: string, spaces: string, sign: string, digits: string, rest: string, n: int) {
    IsNumeral(k, spaces, sign, digits, rest) && n == (if sign == "-" then -1 else 1) * Numeral(digits)
  }

  // A token selects an element exactly if it begins like the number of one, is not the one of what follows the last
  // element, and has no zero in front: not only the indexes of the RFC do.
  lemma {:induction false} IndexIff(k: string, size: nat, n: nat)
    ensures CheckedIndex(k, size) == Ok(n) <==>
              && k != "-" && (|k| > 1 ==> k[0] != '0') && n < size && n <= 2147483647
              && exists spaces, sign, digits, rest :: Names(k, spaces, sign, digits, rest, n)
  {
    hide Numeral;
    if spaces, sign, digits, rest :| Names(k, spaces, sign, digits, rest, n) {
      StoiReads(k, spaces, sign, digits, rest);
    }
    if Stoi(k) == Value(n) {
      StoiIff(k);
      var spaces, sign, digits, rest :| IsNumeral(k, spaces, sign, digits, rest);
      StoiReads(k, spaces, sign, digits, rest);
      hide Stoi, IsNumeral;
      assert Names(k, spaces, sign, digits, rest, n);
    }
    hide Stoi, Names;
  }

  // What a token that selects no element is refused with.
  lemma {:induction false} RefusedIndex(d: Json, p: Pointer, a: seq<Json>, k: string)
    requires At(d, p, Arr(a))
    ensures k == "-" ==> Get(d, p + [k]) == Err(Error.OutOfRange)
    ensures |k| > 1 && k[0] == '0' ==> Get(d, p + [k]) == Err(DomainError)
    ensures k != "-" && !(|k| > 1 && k[0] == '0') && Stoi(k).NotANumber? ==> Get(d, p + [k]) == Err(InvalidArgument)
  {
    GetDeeper(d, p, Arr(a), [k]);
    hide Stoi, At;
  }

  // A sign in front, and anything behind, are passed over.
  lemma {:induction false} SloppyIndex(d: Json, p: Pointer, a: seq<Json>)
    requires At(d, p, Arr(a)) && |a| > 1
    ensures !IsRfcIndex("+1x") && At(d, p + ["+1x"], a[1])
  {
    var k := "+1x";
    assert k == "" + "+" + "1" + "x" && "1"[..0] == [];
    assert IsNumeral(k, "", "+", "1", "x") && Numeral("1") == 1;
    assert Names(k, "", "+", "1", "x", 1);
    assert k[2] in k && k[2] == 'x' && !IsDigit('x');
    hide Names, IsNumeral, Numeral;
    IndexIff(k, |a|, 1);
    hide CheckedIndex;
    GetDeeper(d, p, Arr(a), [k]);
    assert [k][1..] == [];
  }

  // ---- Remove ----

  lemma {:induction false} MemberGone(o: map<string, Json>, k: string)
    ensures if k in o then RemoveFrom(Obj(o), k) == Ok(Obj(o - {k})) && Lacks(o - {k}, o, k)
            else RemoveFrom(Obj(o), k) == Err(Error.OutOfRange)
  {
  }

  // A remove takes the member away, and fails if there is none.
  lemma {:induction false} RemoveMember(d: Json, p: Pointer, o: map<string, Json>, k: string)
    returns (m: map<string, Json>)
    requires At(d, p, Obj(o))
    ensures ApplyOp(d, RemoveOp(ToStr(p + [k]))) == if k in o then Ok(Put(d, p, Obj(m))) else Err(Error.OutOfRange)
    ensures k in o ==> Lacks(m, o, k)
  {
    m := o - {k};
    MemberGone(o, k);
    RemoveApplies(d, p, Obj(o), k);
    hide RemoveOp, ApplyOp, ToStr, Put, Get, At, RemoveFrom, Lacks;
  }

  // `m` has the members of `o` but that of the name `k`.
  predicate Lacks(m: map<string, Json>, o: map<string, Json>, k: string) {
    k !in m && k in o && m.Keys + {k} == o.Keys && forall x <- m :: m[x] == o[x]
  }

  // Below a primitive value nothing is removed, and no error raised.
  lemma {:induction false} RemoveBelowPrimitive(d: Json, p: Pointer, s: Json, k: string)
    requires At(d, p, s) && IsPrimitive(s)
    ensures ApplyOp(d, RemoveOp(ToStr(p + [k]))) == Ok(d)
  {
    RemoveApplies(d, p, s, k);
    PutTwice(d, p, s, s, s);
    hide RemoveOp, ApplyOp, ToStr, Put, Get, At;
  }

  lemma {:induction false} RemoveRoot(d: Json)
    ensures ApplyOp(d, RemoveOp("")) == Err(DomainError)
  {
    ApplyRemove(d, []);
    hide ApplyOp, RemoveOp;
  }

  // ---- Add ----

  // `m` has the value `v` under the name `k`, and otherwise the members of `o`.
  predicate Has(m: map<string, Json>, o: map<string, Json>, k: string, v: Json) {
    m.Keys == o.Keys + {k} && m[k] == v && forall x <- o :: x != k ==> m[x] == o[x]
  }

  lemma {:induction false} MemberThere(o: map<string, Json>, k: string, v: Json)
    ensures AddTo(Obj(o), k, v) == Ok(Obj(o[k := v])) && Has(o[k := v], o, k, v)
  {
  }

  // An add to an object writes the member, whether there is one of the name or not.
  lemma {:induction false} AddMember(d: Json, p: Pointer, o: map<string, Json>, k: string, v: Json)
    returns (m: map<string, Json>)
    requires At(d, p, Obj(o))
    ensures ApplyOp(d, AddOp(ToStr(p + [k]), v)) == Ok(Put(d, p, Obj(m))) && Has(m, o, k, v)
  {
    m := o[k := v];
    MemberThere(o, k, v);
    AddApplies(d, p, Obj(o), k, v);
    hide AddOp, ApplyOp, ToStr, Put, Get, At, AddTo, Has;
  }

  // Null becomes an object with the one member; another primitive value has no place for one.
  lemma {:induction false} AddBelowPrimitive(d: Json, p: Pointer, s: Json, k: string, v: Json)
    requires At(d, p, s) && IsPrimitive(s)
    ensures ApplyOp(d, AddOp(ToStr(p + [k]), v)) ==
              if s == Null then Ok(Put(d, p, Obj(map[k := v]))) else Err(AssertionFailed)
  {
    AddApplies(d, p, s, k, v);
    hide AddOp, ApplyOp, ToStr, Put, Get, At;
  }

  // The token "-" stands for the end of an array.
  lemma {:induction false} AddAtEnd(d: Json, p: Pointer, a: seq<Json>, v: Json)
    requires At(d, p, Arr(a))
    ensures ApplyOp(d, AddOp(ToStr(p + ["-"]), v)) == Ok(Put(d, p, Arr(a + [v])))
  {
    AddApplies(d, p, Arr(a), "-", v);
    hide AddOp, ApplyOp, ToStr, Put, Get, At;
  }

  lemma {:induction false} AddRoot(d: Json, v: Json)
    ensures ApplyOp(d, AddOp("", v)) == Ok(v)
  {
    ApplyAdd(d, [], v);
    hide ApplyOp, AddOp;
  }

  // ---- Replace ----

  // An assignment through at() fails as reading there does.
  lemma {:induction false} AssignedIff(d: Json, p: Pointer, v: Json)
    ensures Set(d, p, v) == if Get(d, p).Ok? then Ok(Put(d, p, v)) else Get(d, p)
    decreases |p|
  {
    hide CheckedIndex;
    if Get(d, p).Ok? {
      PutExists(d, p, Get(d, p).value, v);
    } else if p != [] {
      match d
      case Obj(o) =>
        if p[0] in o {
          AssignedIff(o[p[0]], p[1..], v);
        }
      case Arr(a) =>
        if CheckedIndex(p[0], |a|).Ok? && CheckedIndex(p[0], |a|).value < |a| {
          AssignedIff(a[CheckedIndex(p[0], |a|).value], p[1..], v);
        }
      case _ =>
    }
  }

  lemma {:induction false} ReplaceIff(d: Json, p: Pointer, v: Json)
    ensures ApplyOp(d, ReplaceOp(ToStr(p), v)) == if Get(d, p).Ok? then Ok(Put(d, p, v)) else Get(d, p)
  {
    if Get(d, p).Ok? {
      ReplaceApplies(d, p, Get(d, p).value, v);
    }
    ApplyReplace(d, p, v);
    hide ApplyOp, ReplaceOp, ToStr, Put, Get, Set;
  }

  // ---- Tokens of any kind ----

  lemma {:induction false} StoiBound(k: string)
    ensures Stoi(k).Value? ==> Stoi(k).n <= 2147483647
  {
    hide Numeral, SkipSpaces, LeadingDigits;
  }

  lemma {:induction false} AddToToken(a: seq<Json>, k: string, v: Json)
    requires k != "-"
    ensures AddTo(Arr(a), k, v) ==
              match Stoi(k)
              case Value(n) => if n >= 0 then AddTo(Arr(a), ToString(n), v) else Err(Error.OutOfRange)
              case NotANumber => Err(InvalidArgument)
              case OutOfRange => Err(Error.OutOfRange)
  {
    if Stoi(k).Value? && Stoi(k).n >= 0 {
      StoiBound(k);
      IndexToken(Stoi(k).n, |a|);
    }
    hide Stoi, ToString;
  }

  lemma {:induction false} RemoveFromToken(a: seq<Json>, k: string)
    ensures RemoveFrom(Arr(a), k) ==
              match Stoi(k)
              case Value(n) => if n >= 0 then RemoveFrom(Arr(a), ToString(n)) else Err(Error.OutOfRange)
              case NotANumber => Err(InvalidArgument)
              case OutOfRange => Err(Error.OutOfRange)
  {
    if Stoi(k).Value? && Stoi(k).n >= 0 {
      StoiBound(k);
      IndexToken(Stoi(k).n, |a|);
    }
    hide Stoi, ToString;
  }

  // Add and remove take any token stoi reads, with a leading zero as well.
  lemma {:induction false} AddAnyToken(d: Json, p: Pointer, a: seq<Json>, k: string, v: Json)
    requires At(d, p, Arr(a)) && k != "-"
    ensures ApplyOp(d, AddOp(ToStr(p + [k]), v)) ==
              match Stoi(k)
              case Value(n) =>
                if n >= 0 then ApplyOp(d, AddOp(ToStr(p) + "/" + ToString(n), v)) else Err(Error.OutOfRange)
              case NotANumber => Err(InvalidArgument)
              case OutOfRange => Err(Error.OutOfRange)
  {
    AddToToken(a, k, v);
    AddApplies(d, p, Arr(a), k, v);
    hide AddTo, AddOp, ApplyOp, ToStr, Put, Get, At, Stoi, ToString;
    if Stoi(k).Value? && Stoi(k).n >= 0 {
      IndexPath(p, Stoi(k).n);
      AddApplies(d, p, Arr(a), ToString(Stoi(k).n), v);
    }
  }

  lemma {:induction false} RemoveAnyToken(d: Json, p: Pointer, a: seq<Json>, k: string)
    requires At(d, p, Arr(a))
    ensures ApplyOp(d, RemoveOp(ToStr(p + [k]))) ==
              match Stoi(k)
              case Value(n) =>
                if n >= 0 then ApplyOp(d, RemoveOp(ToStr(p) + "/" + ToString(n))) else Err(Error.OutOfRange)
              case NotANumber => Err(InvalidArgument)
              case OutOfRange => Err(Error.OutOfRange)
  {
    RemoveFromToken(a, k);
    RemoveApplies(d, p, Arr(a), k);
    hide RemoveFrom, RemoveOp, ApplyOp, ToStr, Put, Get, At, Stoi, ToString;
    if Stoi(k).Value? && Stoi(k).n >= 0 {
      IndexPath(p, Stoi(k).n);
      RemoveApplies(d, p, Arr(a), ToString(Stoi(k).n));
    }
  }

  // ---- Copy ----

  // `r` is `a` with `v` at the index, filled up to it with nulls.
  predicate Padded(r: seq<Json>, a: seq<Json>, n: nat, v: Json) {
    && |r| == (if n < |a| then |a| else n + 1) && r[n] == v
    && forall i :: 0 <= i < |r| && i != n ==> r[i] == if i < |a| then a[i] else Null
  }

  lemma {:induction false} IndexWritten(a: seq<Json>, n: nat, v: Json) returns (m: seq<Json>)
    requires n <= 2147483647
    ensures SetCreating(Arr(a), [ToString(n)], v) == Ok(Arr(m)) && Padded(m, a, n, v)
  {
    var k := ToString(n);
    IndexToken(n, |a|);
    assert n > 0 ==> k[0] != '0';
    assert n == 0 ==> |k| == 1;
    hide ToString, Stoi;
    var none: Pointer := [];
    assert [k][1..] == none;
    m := Grown(a, n + 1)[n := v];
  }

  // A copy writes to the index, and fills the array up with nulls if it lies beyond the end.
  lemma {:induction false} CopyToIndex(d: Json, q: Pointer, v: Json, p: Pointer, a: seq<Json>, n: nat)
    returns (m: seq<Json>)
    requires At(d, q, v) && At(d, p, Arr(a)) && n <= 2147483647
    ensures ApplyOp(d, CopyOp(ToStr(q), ToStr(p + [ToString(n)]))) == Ok(Put(d, p, Arr(m))) && Padded(m, a, n, v)
  {
    m := IndexWritten(a, n, v);
    CopyApplies(d, q, v, p, Arr(a), ToString(n));
    hide CopyOp, ApplyOp, ToStr, Put, Get, At, SetCreating, Padded, ToString;
  }

  lemma {:induction false} TokenWritten(a: seq<Json>, k: string, v: Json)
    ensures var r := SetCreating(Arr(a), [k], v);
            && (k == "-" ==> r == Ok(Arr(a + [v])))
            && (|k| > 1 && k[0] == '0' ==> r == Err(DomainError))
            && (k != "-" && !(|k| > 1 && k[0] == '0') ==>
                  && (Stoi(k).NotANumber? ==> r == Err(InvalidArgument))
                  && (Stoi(k).OutOfRange? ==> r == Err(Error.OutOfRange))
                  && (Stoi(k).Value? && Stoi(k).n < 0 ==> r == Err(BadAllocation)))
  {
    hide Stoi;
    if k == "-" {
      var grown := Grown(a, |a| + 1);
      assert grown[|a| := v] == a + [v];
    }
    var none: Pointer := [];
    assert [k][1..] == none;
  }

  // "-" is the place behind the last element, and a token that stands for none is refused.
  lemma {:induction false} CopyToToken(d: Json, q: Pointer, v: Json, p: Pointer, a: seq<Json>, k: string)
    requires At(d, q, v) && At(d, p, Arr(a))
    ensures var r := ApplyOp(d, CopyOp(ToStr(q), ToStr(p + [k])));
            && (k == "-" ==> r == Ok(Put(d, p, Arr(a + [v]))))
            && (|k| > 1 && k[0] == '0' ==> r == Err(DomainError))
            && (k != "-" && !(|k| > 1 && k[0] == '0') ==>
                  && (Stoi(k).NotANumber? ==> r == Err(InvalidArgument))
                  && (Stoi(k).OutOfRange? ==> r == Err(Error.OutOfRange))
                  && (Stoi(k).Value? && Stoi(k).n < 0 ==> r == Err(BadAllocation)))
  {
    CopyApplies(d, q, v, p, Arr(a), k);
    TokenWritten(a, k, v);
    hide CopyOp, ApplyOp, ToStr, Put, Get, At, Stoi, SetCreating;
  }

  // Below a primitive value, null included, a copy fails.
  lemma {:induction false} CopyBelowPrimitive(d: Json, q: Pointer, v: Json, p: Pointer, s: Json, k: string)
    requires At(d, q, v) && At(d, p, s) && IsPrimitive(s)
    ensures ApplyOp(d, CopyOp(ToStr(q), ToStr(p + [k]))) == Err(Error.OutOfRange)
  {
    CopyApplies(d, q, v, p, s, k);
    hide CopyOp, ApplyOp, ToStr, Put, Get, At;
  }

  // ---- What is created on the way ----

  lemma {:induction false} TwoBelow(s: Json, k: string, l: string, v: Json)
    ensures AddAt(s, [k, l], v) ==
              match s
              case Obj(o) => WrapObj(o, k, AddTo(if k in o then o[k] else Null, l, v))
              case Arr(a) =>
                (match UncheckedIndex(k, |a|)
                 case Ok(i) => WrapArr(Grown(a, i + 1), i, AddTo(Grown(a, i + 1)[i], l, v))
                 case Err(e) => Err(e))
              case _ => Err(Error.OutOfRange)
  {
    assert [k, l][1..] == [l];
    hide AddTo, UncheckedIndex, Grown, WrapObj, WrapArr;
  }

  // Section 4.1 of RFC 6902 wants the parent of the location of an add to exist. Below a member of the document a
  // missing one is created, as an object; in the document itself it is missed.
  lemma {:induction false} AddCreatesParent(d: Json, p: Pointer, o: map<string, Json>, k: string, l: string, v: Json)
    requires At(d, p, Obj(o)) && k !in o
    ensures ApplyOp(d, AddOp(ToStr(p + [k, l]), v)) ==
              if p == [] then Err(Error.OutOfRange) else Ok(Put(d, p, Obj(o[k := Obj(map[l := v])])))
  {
    ApplyAdd(d, p + [k, l], v);
    AddDeeper(d, p, Obj(o), [k, l], v);
    TwoBelow(Obj(o), k, l, v);
    if p == [] {
      assert p + [k, l] == [k, l];
    } else {
      FirstTokenExists(d, p);
      assert (p + [k, l])[0] == p[0];
    }
    hide ApplyOp, AddOp, ToStr, Put, AddAt;
  }

  // ---- Objects that are no operations ----

  lemma {:induction false} NoPatch(d: Json, patch: Json)
    requires !patch.Arr?
    ensures Patch(d, patch) == Err(InvalidArgument)
  {
  }

  predicate HasText(op: map<string, Json>, name: string) {
    name in op && op[name].Str?
  }

  predicate IsName(name: string) {
    name in {"add", "remove", "replace", "move", "copy", "test"}
  }

  // Without a name and a path, or of no known name, an operation is refused.
  lemma {:induction false} NoOperation(d: Json, op: Json)
    ensures !op.Obj? || !HasText(op.o, "op") || !HasText(op.o, "path") ==> ApplyOp(d, op) == Err(InvalidArgument)
    ensures op.Obj? && HasText(op.o, "op") && HasText(op.o, "path") ==>
              if Split(op.o["path"].s).Err? then ApplyOp(d, op) == Err(Split(op.o["path"].s).error)
              else !IsName(op.o["op"].s) ==> ApplyOp(d, op) == Err(InvalidArgument)
  {
    hide OperationAdd, OperationRemove, Get, Set, SetCreating, Split, Eq, Tested;
  }

  // So is one that needs a value and has none, or a location to take it from; a replace looks for its location first.
  lemma {:induction false} NothingToPut(d: Json, op: map<string, Json>, p: Pointer)
    requires "value" !in op
    ensures ApplyTo(d, op, "add", p) == Err(InvalidArgument)
    ensures ApplyTo(d, op, "test", p) == Err(InvalidArgument)
    ensures ApplyTo(d, op, "replace", p) == if Get(d, p).Ok? then Err(InvalidArgument) else Get(d, p)
  {
    hide OperationAdd, OperationRemove, Get, Set, SetCreating, Split, Eq, Tested;
  }

  lemma {:induction false} NothingToTake(d: Json, op: map<string, Json>, p: Pointer)
    requires !HasText(op, "from")
    ensures ApplyTo(d, op, "move", p) == Err(InvalidArgument)
    ensures ApplyTo(d, op, "copy", p) == Err(InvalidArgument)
  {
    hide OperationAdd, OperationRemove, Get, Set, SetCreating, Split, Eq, Tested;
  }
}
