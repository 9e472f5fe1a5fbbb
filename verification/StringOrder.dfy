/** The order of std::string, and of the std::set and std::map that are keyed by it. */
module StringOrder {
  predicate Less(a: string, b: string) {
    if a == [] || b == [] then b != [] && a == []
    else a[0] < b[0] || (a[0] == b[0] && Less(a[1..], b[1..]))
  }

  lemma {:induction false} Irreflexive(a: string)
    ensures !Less(a, a)
  {
    if a != [] {
      Irreflexive(a[1..]);
    }
  }

  lemma {:induction false} Transitive(a: string, b: string, c: string)
    requires Less(a, b) && Less(b, c)
    ensures Less(a, c)
  {
    if a != [] && a[0] == b[0] == c[0] {
      Transitive(a[1..], b[1..], c[1..]);
    }
  }

  lemma {:induction false} Total(a: string, b: string)
    ensures a == b || Less(a, b) || Less(b, a)
  {
    if a != [] && b != [] && a[0] == b[0] {
      Total(a[1..], b[1..]);
      if a[1..] == b[1..] {
        assert a == [a[0]] + a[1..] == b;
      }
    }
  }

  lemma {:induction false} CommonPrefix(p: string, a: string, b: string)
    ensures Less(p + a, p + b) <==> Less(a, b)
  {
    if p == [] {
      assert p + a == a && p + b == b;
    } else {
      assert (p + a)[1..] == p[1..] + a && (p + b)[1..] == p[1..] + b;
      CommonPrefix(p[1..], a, b);
    }
  }

  predicate IsLeast(k: string, keys: set<string>) {
    k in keys && forall k' <- keys :: k' != k ==> Less(k, k')
  }

  lemma {:induction false} HasLeast(keys: set<string>)
    requires keys != {}
    ensures exists k :: IsLeast(k, keys)
    decreases keys
  {
    var k :| k in keys;
    var rest := keys - {k};
    if rest == {} {
      assert keys == {k};
      assert IsLeast(k, keys);
    } else {
      HasLeast(rest);
      var l :| IsLeast(l, rest);
      Total(k, l);
      if Less(k, l) {
        forall k' <- keys | k' != k
          ensures Less(k, k')
        {
          if k' != l {
            Transitive(k, l, k');
          }
        }
        assert IsLeast(k, keys);
      } else {
        assert IsLeast(l, keys);
      }
    }
  }

  lemma {:induction false} LeastIsUnique(keys: set<string>)
    ensures forall k, l :: IsLeast(k, keys) && IsLeast(l, keys) ==> k == l
  {
    forall k, l | IsLeast(k, keys) && IsLeast(l, keys) && k != l
      ensures false
    {
      Transitive(k, l, k);
      Irreflexive(k);
    }
  }

  // The first element of the set.
  function Least(keys: set<string>): (k: string)
    requires keys != {}
    ensures IsLeast(k, keys)
  {
    HasLeast(keys);
    LeastIsUnique(keys);
    var k :| k in keys && IsLeast(k, keys);
    k
  }

  // The elements of the set in the order of an iteration over it.
  function Sorted(keys: set<string>): (s: seq<string>)
    ensures |s| == |keys| && forall k :: k in keys <==> k in s
    decreases |keys|
  {
    if keys == {} then []
    else
      var k := Least(keys);
      [k] + Sorted(keys - {k})
  }

  predicate Distinct(s: seq<string>) {
    forall i, j :: 0 <= i < j < |s| ==> s[i] != s[j]
  }

  lemma {:induction false} SortedDistinct(keys: set<string>)
    ensures Distinct(Sorted(keys))
    decreases |keys|
  {
    if keys != {} {
      var k := Least(keys);
      SortedDistinct(keys - {k});
      assert k !in Sorted(keys - {k});
    }
  }

  // The strings agree up to `n`, where the first ends or has the smaller character.
  predicate DiffersAt(a: string, b: string, n: nat) {
    && n <= |a| && n < |b| && a[..n] == b[..n]
    && (n < |a| ==> (a[n] as int) < (b[n] as int))
  }

  // The order is that of the first character that differs, a prefix coming before what it begins.
  lemma {:induction false} LessIff(a: string, b: string)
    ensures Less(a, b) <==> exists n: nat :: DiffersAt(a, b, n)
  {
    if n: nat :| DiffersAt(a, b, n) {
      DiffersIsLess(a, b, n);
    }
    if Less(a, b) {
      var n := LessDiffers(a, b);
    }
  }

  lemma {:induction false} DiffersIsLess(a: string, b: string, n: nat)
    requires DiffersAt(a, b, n)
    ensures Less(a, b)
  {
    if n > 0 {
      assert a[0] == a[..n][0] == b[..n][0] == b[0];
      assert a[1..][..n - 1] == a[..n][1..] && b[1..][..n - 1] == b[..n][1..];
      DiffersIsLess(a[1..], b[1..], n - 1);
    }
  }

  lemma {:induction false} LessDiffers(a: string, b: string) returns (n: nat)
    requires Less(a, b)
    ensures DiffersAt(a, b, n)
  {
    n := 0;
    if a != [] && a[0] == b[0] {
      var m := LessDiffers(a[1..], b[1..]);
      n := m + 1;
      assert a[..n] == [a[0]] + a[1..][..m] && b[..n] == [b[0]] + b[1..][..m];
    }
  }

  predicate Ascending(s: seq<string>) {
    forall i, j :: 0 <= i < j < |s| ==> Less(s[i], s[j])
  }

  lemma {:induction false} AscendingMore(k: string, t: seq<string>)
    requires Ascending(t) && forall l <- t :: Less(k, l)
    ensures Ascending([k] + t)
  {
    hide Less;
    var s := [k] + t;
    forall i, j | 0 <= i < j < |s|
      ensures Less(s[i], s[j])
    {
      assert s[j] == t[j - 1] && t[j - 1] in t;
      if i > 0 {
        assert s[i] == t[i - 1];
      }
    }
  }

  // Sorting puts every element in front of the greater ones.
  lemma {:induction false} SortedAscends(keys: set<string>)
    ensures Ascending(Sorted(keys))
    decreases |keys|
  {
    if keys != {} {
      var k := Least(keys);
      SortedAscends(keys - {k});
      AscendingMore(k, Sorted(keys - {k}));
    }
    hide Less;
  }
}
