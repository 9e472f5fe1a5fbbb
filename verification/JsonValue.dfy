/** JSON values, and the equality the library defines on them. */
module JsonValue {
  type Int64 = i: int | -0x8000_0000_0000_0000 <= i < 0x8000_0000_0000_0000
  type UInt64 = n: int | 0 <= n < 0x1_0000_0000_0000_0000

  datatype Json =
    | Null
    | Bool(b: bool)
    | Int(i: Int64)
    | UInt(n: UInt64)
    | Float(f: real)
    | Str(s: string)
    | Arr(a: seq<Json>)
    | Obj(o: map<string, Json>)

  // The library's value_t.
  datatype Kind = NullKind | BoolKind | IntKind | UIntKind | FloatKind | StrKind | ArrKind | ObjKind

  function KindOf(j: Json): Kind {
    match j
    case Null => NullKind
    case Bool(_) => BoolKind
    case Int(_) => IntKind
    case UInt(_) => UIntKind
    case Float(_) => FloatKind
    case Str(_) => StrKind
    case Arr(_) => ArrKind
    case Obj(_) => ObjKind
  }

  // The cast of an unsigned number wraps around.
  function ToSigned(n: UInt64): Int64 {
    if n < 0x8000_0000_0000_0000 then n else n - 0x1_0000_0000_0000_0000
  }

  // operator==; numbers of different types are compared after a cast.
  predicate Eq(a: Json, b: Json) {
    match (a, b)
    case (Null, Null) => true
    case (Bool(x), Bool(y)) => x == y
    case (Str(x), Str(y)) => x == y
    case (Int(x), Int(y)) => x == y
    case (UInt(x), UInt(y)) => x == y
    case (Float(x), Float(y)) => x == y
    case (Int(x), Float(y)) => x as real == y
    case (Float(x), Int(y)) => x == y as real
    case (UInt(x), Float(y)) => x as real == y
    case (Float(x), UInt(y)) => x == y as real
    case (UInt(x), Int(y)) => ToSigned(x) == y
    case (Int(x), UInt(y)) => x == ToSigned(y)
    case (Arr(x), Arr(y)) => |x| == |y| && forall i :: 0 <= i < |x| ==> Eq(x[i], y[i])
    case (Obj(x), Obj(y)) => x.Keys == y.Keys && forall k :: k in x ==> Eq(x[k], y[k])
    case _ => false
  }

  lemma {:induction false} EqReflexive(j: Json)
    ensures Eq(j, j)
  {
    match j
    case Arr(a) =>
      forall i | 0 <= i < |a|
        ensures Eq(a[i], a[i])
      {
        EqReflexive(a[i]);
      }
    case Obj(o) =>
      forall k | k in o
        ensures Eq(o[k], o[k])
      {
        EqReflexive(o[k]);
      }
    case _ =>
  }

  // ---- What operator== means ----

  predicate FloatFree(j: Json) {
    match j
    case Float(_) => false
    case Arr(a) => forall i :: 0 <= i < |a| ==> FloatFree(a[i])
    case Obj(o) => forall k :: k in o ==> FloatFree(o[k])
    case _ => true
  }

  // The signed 64-bit number that has the bits of `n`.
  lemma {:induction false} ToSignedIsCast(n: UInt64)
    ensures (ToSigned(n) - n) % 0x1_0000_0000_0000_0000 == 0
  {
  }

  // The value with every unsigned number cast to a signed one.
  function Canonical(j: Json): Json {
    match j
    case UInt(n) => Int(ToSigned(n))
    case Arr(a) => Arr(seq(|a|, i requires 0 <= i < |a| => Canonical(a[i])))
    case Obj(o) => Obj(map k | k in o :: Canonical(o[k]))
    case _ => j
  }

  lemma {:induction false} CanonicalElements(a: seq<Json>)
    ensures var c := Canonical(Arr(a));
            c.Arr? && |c.a| == |a| && forall i :: 0 <= i < |a| ==> c.a[i] == Canonical(a[i])
  {
  }

  lemma {:induction false} CanonicalMembers(o: map<string, Json>)
    ensures var c := Canonical(Obj(o));
            c.Obj? && c.o.Keys == o.Keys && forall k <- o :: c.o[k] == Canonical(o[k])
  {
  }

  lemma {:induction false} ArraysEqualIff(a: Json, b: Json)
    requires a.Arr? && b.Arr? && FloatFree(a) && FloatFree(b)
    ensures Eq(a, b) <==> Canonical(a) == Canonical(b)
    decreases a, 0
  {
    CanonicalElements(a.a);
    CanonicalElements(b.a);
    var c, d := Canonical(a).a, Canonical(b).a;
    hide Canonical;
    if |a.a| == |b.a| {
      forall i | 0 <= i < |a.a|
        ensures Eq(a.a[i], b.a[i]) <==> c[i] == d[i]
      {
        EqIff(a.a[i], b.a[i]);
      }
      assert c == d <==> forall i :: 0 <= i < |a.a| ==> c[i] == d[i];
    }
  }

  lemma {:induction false} SameMaps(c: map<string, Json>, d: map<string, Json>)
    ensures c == d <==> c.Keys == d.Keys && forall k :: k in c ==> c[k] == d[k]
  {
  }

  lemma {:induction false} ObjectsEqualIff(a: Json, b: Json)
    requires a.Obj? && b.Obj? && FloatFree(a) && FloatFree(b)
    ensures Eq(a, b) <==> Canonical(a) == Canonical(b)
    decreases a, 0
  {
    CanonicalMembers(a.o);
    CanonicalMembers(b.o);
    var c, d := Canonical(a).o, Canonical(b).o;
    SameMaps(c, d);
    hide Canonical;
    if a.o.Keys == b.o.Keys {
      forall k | k in a.o
        ensures Eq(a.o[k], b.o[k]) <==> c[k] == d[k]
      {
        EqIff(a.o[k], b.o[k]);
      }
    }
  }

  // Without floating-point numbers, values are equal under operator== exactly if they are the same but for the
  // signedness of numbers.
  lemma {:induction false} EqIff(a: Json, b: Json)
    requires FloatFree(a) && FloatFree(b)
    ensures Eq(a, b) <==> Canonical(a) == Canonical(b)
    decreases a, 1
  {
    match (a, b)
    case (Arr(_), Arr(_)) => ArraysEqualIff(a, b);
    case (Obj(_), Obj(_)) => ObjectsEqualIff(a, b);
    case _ =>
  }

  // The real number a number stands for.
  function RealOf(j: Json): real
    requires j.Int? || j.UInt? || j.Float?
  {
    match j
    case Int(i) => i as real
    case UInt(n) => n as real
    case Float(f) => f
  }

  // A floating-point number equals exactly the numbers of any kind that stand for the same real number.
  lemma {:induction false} FloatEqIff(f: real, j: Json)
    ensures Eq(Float(f), j) <==> (j.Int? || j.UInt? || j.Float?) && RealOf(j) == f
    ensures Eq(j, Float(f)) <==> Eq(Float(f), j)
  {
  }

  lemma {:induction false} EqSymmetric(a: Json, b: Json)
    ensures Eq(a, b) <==> Eq(b, a)
  {
    match (a, b)
    case (Arr(x), Arr(y)) =>
      if |x| == |y| {
        forall i | 0 <= i < |x|
          ensures Eq(x[i], y[i]) <==> Eq(y[i], x[i])
        {
          EqSymmetric(x[i], y[i]);
        }
      }
    case (Obj(x), Obj(y)) =>
      if x.Keys == y.Keys {
        forall k | k in x
          ensures Eq(x[k], y[k]) <==> Eq(y[k], x[k])
        {
          EqSymmetric(x[k], y[k]);
        }
      }
    case _ =>
  }

  // Large unsigned numbers make operator== fail to be transitive.
  lemma {:induction false} EqIsNotTransitive()
    ensures var a, b, c := Float(-1.0), Int(-1), UInt(0xffff_ffff_ffff_ffff); Eq(a, b) && Eq(b, c) && !Eq(a, c)
  {
  }
}
