/** What unflatten makes of any object, flattened before or not: which are refused, and what one member comes to. */
module JsonFlattenOutcomes {
  import opened Decimal
  import opened JsonAccess
  import opened JsonFlatten
  import opened JsonPatchOutcomes
  import opened JsonPointer
  import opened JsonResult
  import opened JsonValue
  import opened StringOrder

  lemma {:induction false} NoObject(j: Json)
    requires !j.Obj?
    ensures Unflatten(j) == Err(DomainError)
  {
  }

  // What is accepted has primitive values only, under names that are pointers.
  lemma {:induction false} AcceptedMembers(r: Json, m: map<string, Json>, keys: seq<string>)
    requires KeysOf(m, keys) && UnflattenFrom(r, m, keys).Ok?
    ensures forall k <- keys :: IsPrimitive(m[k]) && Split(k).Ok?
    decreases |keys|
  {
    hide Split, CreateAt;
    if keys != [] {
      AcceptedMembers(CreateMember(r, keys[0], m[keys[0]]).value, m, keys[1..]);
      assert keys == [keys[0]] + keys[1..];
    }
  }

  lemma {:induction false} AcceptedObject(m: map<string, Json>)
    requires Unflatten(Obj(m)).Ok?
    ensures forall k <- m :: IsPrimitive(m[k]) && Split(k).Ok?
  {
    SortedKeys(m);
    hide Split, UnflattenFrom, Sorted;
    AcceptedMembers(Null, m, Sorted(m.Keys));
  }

  // The value alone at its place: a token "0" makes an array, any other an object.
  function Chain(p: Pointer, v: Json): Json
    decreases |p|
  {
    if p == [] then v
    else if p[0] == "0" then Arr([Chain(p[1..], v)])
    else Obj(map[p[0] := Chain(p[1..], v)])
  }

  lemma {:induction false} ChainCreated(p: Pointer, v: Json)
    ensures CreateAt(Null, p, v) == Ok(Chain(p, v))
    decreases |p|
  {
    if p != [] {
      ChainCreated(p[1..], v);
      hide Stoi;
      if p[0] == "0" {
        assert Stoi("0") == Value(0) by {
          ZeroToken();
          StoiOfToString(0);
        }
        assert Grown([], 1) == [Null];
        assert Grown([], 1)[0 := Chain(p[1..], v)] == [Chain(p[1..], v)];
      }
    }
  }

  // An object of one member: refused if the value is not primitive, or the name no pointer.
  lemma {:induction false} OneMember(k: string, v: Json)
    ensures Unflatten(Obj(map[k := v])) ==
              if !IsPrimitive(v) then Err(DomainError)
              else if Split(k).Err? then Err(Split(k).error)
              else Ok(Chain(Split(k).value, v))
  {
    var m: map<string, Json> := map[k := v];
    assert m.Keys == {k} && m[k] == v;
    SortedOne(k);
    OneStep(m, k);
    if Split(k).Ok? {
      ChainCreated(Split(k).value, v);
    }
    hide Split, Chain, CreateAt, Sorted, UnflattenFrom;
  }

  lemma {:induction false} OneStep(m: map<string, Json>, k: string)
    requires k in m
    ensures UnflattenFrom(Null, m, [k]) == CreateMember(Null, k, m[k])
  {
    hide CreateMember;
    assert [k][1..] == [];
  }

  // Below a value that is primitive and not null there is no place.
  lemma {:induction false} NoPlaceBelowPrimitive(j: Json, p: Pointer, v: Json)
    requires IsPrimitive(j) && j != Null && p != []
    ensures CreateAt(j, p, v) == Err(DomainError)
  {
  }

  // An array is filled up with nulls to the index, and what stands there is gone on with; the token may be as sloppy as
  // for at(), and have a leading zero.
  lemma {:induction false} PlaceInArray(a: seq<Json>, n: nat, p: Pointer, v: Json) returns (m: seq<Json>)
    requires p != [] && Stoi(p[0]) == Value(n) && CreateAt(if n < |a| then a[n] else Null, p[1..], v).Ok?
    ensures CreateAt(Arr(a), p, v) == Ok(Arr(m))
    ensures Padded(m, a, n, CreateAt(if n < |a| then a[n] else Null, p[1..], v).value)
  {
    hide Stoi;
    m := Grown(a, n + 1)[n := CreateAt(if n < |a| then a[n] else Null, p[1..], v).value];
  }

  lemma {:induction false} NoPlaceInArray(a: seq<Json>, p: Pointer, v: Json)
    requires p != []
    ensures Stoi(p[0]).NotANumber? ==> CreateAt(Arr(a), p, v) == Err(InvalidArgument)
    ensures Stoi(p[0]).OutOfRange? ==> CreateAt(Arr(a), p, v) == Err(Error.OutOfRange)
    ensures Stoi(p[0]).Value? && Stoi(p[0]).n < 0 ==> CreateAt(Arr(a), p, v) == Err(BadAllocation)
  {
    hide Stoi;
  }
}
