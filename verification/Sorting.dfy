/**
 Array.prototype.toSorted: the stable sort by a comparator, here by the `le` it induces
 (compare(a, b) <= 0). For a total preorder the stable result is unique, whatever the algorithm.
 */
module Sorting {
  ghost predicate TotalPreorderOn<T(!new)>(le: (T, T) -> bool, s: seq<T>) {
    (forall x, y :: x in s && y in s ==> le(x, y) || le(y, x)) &&
    forall x, y, z :: x in s && y in s && z in s && le(x, y) && le(y, z) ==> le(x, z)
  }

  ghost predicate AntisymmetricOn<T(!new)>(le: (T, T) -> bool, s: seq<T>) {
    forall x, y :: x in s && y in s && le(x, y) && le(y, x) ==> x == y
  }

  ghost predicate Sorted<T>(s: seq<T>, le: (T, T) -> bool) {
    forall i, j :: 0 <= i < j < |s| ==> le(s[i], s[j])
  }

  function Insert<T>(x: T, s: seq<T>, le: (T, T) -> bool): (r: seq<T>)
    ensures |r| == |s| + 1
  {
    if s == [] || le(x, s[0]) then [x] + s else [s[0]] + Insert(x, s[1..], le)
  }

  function ToSorted<T>(s: seq<T>, le: (T, T) -> bool): (r: seq<T>)
    ensures |r| == |s|
  {
    if s == [] then [] else Insert(s[0], ToSorted(s[1..], le), le)
  }

  lemma {:induction false} InsertKeeps<T>(x: T, s: seq<T>, le: (T, T) -> bool)
    ensures multiset(Insert(x, s, le)) == multiset(s) + multiset{x}
  {
    if s != [] && !le(x, s[0]) {
      InsertKeeps(x, s[1..], le);
      TailBag(s);
    }
  }

  lemma {:induction false} SortKeeps<T>(s: seq<T>, le: (T, T) -> bool)
    ensures multiset(ToSorted(s, le)) == multiset(s)
  {
    if s == [] {
    } else {
      SortKeeps(s[1..], le);
      InsertKeeps(s[0], ToSorted(s[1..], le), le);
      assert s == [s[0]] + s[1..];
    }
  }

  /** Sequences with the same elements have the same members. */
  lemma SameMembers<T>(a: seq<T>, b: seq<T>)
    requires multiset(a) == multiset(b)
    ensures |a| == |b| && forall x :: x in a <==> x in b
  {
    assert |multiset(a)| == |a| && |multiset(b)| == |b|;
    assert forall x :: x in a <==> x in multiset(a);
    assert forall x :: x in b <==> x in multiset(b);
  }

  lemma {:induction false} InsertSorts<T(!new)>(x: T, s: seq<T>, le: (T, T) -> bool)
    requires Sorted(s, le) && TotalPreorderOn(le, [x] + s)
    ensures Sorted(Insert(x, s, le), le)
  {
    var all := [x] + s;
    assert forall y :: y in s ==> y in all;
    assert x in all;
    if s == [] {
    } else {
      assert s[0] in s;
      if le(x, s[0]) {
        forall j | 0 <= j < |s|
          ensures le(x, s[j])
        {
          assert s[j] in s;
          assert j == 0 || le(s[0], s[j]);
        }
      } else {
        var rest := Insert(x, s[1..], le);
        assert forall y :: y in [x] + s[1..] ==> y in all;
        InsertSorts(x, s[1..], le);
        InsertKeeps(x, s[1..], le);
        forall j | 0 <= j < |rest|
          ensures le(s[0], rest[j])
        {
          assert rest[j] in multiset(rest);
          if rest[j] != x {
            assert rest[j] in multiset(s[1..]);
            var k :| 0 <= k < |s[1..]| && s[1..][k] == rest[j];
            assert s[k + 1] == rest[j];
          }
        }
      }
    }
  }

  lemma {:induction false} SortSorts<T(!new)>(s: seq<T>, le: (T, T) -> bool)
    requires TotalPreorderOn(le, s)
    ensures Sorted(ToSorted(s, le), le)
  {
    if s == [] {
    } else {
      var rest := ToSorted(s[1..], le);
      assert forall y :: y in s[1..] ==> y in s;
      SortSorts(s[1..], le);
      SortKeeps(s[1..], le);
      SameMembers(rest, s[1..]);
      assert forall y :: y in [s[0]] + rest ==> y in s;
      InsertSorts(s[0], rest, le);
    }
  }

  lemma {:induction false} SortedIsFixed<T>(s: seq<T>, le: (T, T) -> bool)
    requires Sorted(s, le)
    ensures ToSorted(s, le) == s
  {
    if s == [] {
    } else {
      SortedIsFixed(s[1..], le);
    }
  }

  /** Where no two different elements tie, the sorted order is the only one. */
  lemma {:induction false} SortedIsUnique<T(!new)>(a: seq<T>, b: seq<T>, le: (T, T) -> bool)
    requires multiset(a) == multiset(b) && Sorted(a, le) && Sorted(b, le)
    requires AntisymmetricOn(le, a)
    ensures a == b
    decreases |a|
  {
    if a == [] {
      assert |multiset(b)| == 0;
    } else {
      hide *;
      SameMembers(a, b);
      FirstsAgree(a, b, le);
      TailsAgree(a, b);
      TailLaws(a, le);
      TailLaws(b, le);
      SortedIsUnique(a[1..], b[1..], le);
      assert a == [a[0]] + a[1..] && b == [b[0]] + b[1..];
    }
  }

  lemma TailsAgree<T>(a: seq<T>, b: seq<T>)
    requires multiset(a) == multiset(b) && a != [] && b != [] && a[0] == b[0]
    ensures multiset(a[1..]) == multiset(b[1..])
  {
    TailBag(a);
    TailBag(b);
  }

  lemma TailBag<T>(a: seq<T>)
    requires a != []
    ensures multiset(a[1..]) == multiset(a) - multiset{a[0]}
  {
    assert a == [a[0]] + a[1..];
  }

  lemma TailLaws<T(!new)>(a: seq<T>, le: (T, T) -> bool)
    requires a != [] && Sorted(a, le)
    ensures Sorted(a[1..], le) && (AntisymmetricOn(le, a) ==> AntisymmetricOn(le, a[1..]))
  {
    assert forall x :: x in a[1..] ==> x in a;
  }

  lemma FirstsAgree<T(!new)>(a: seq<T>, b: seq<T>, le: (T, T) -> bool)
    requires a != [] && b != [] && Sorted(a, le) && Sorted(b, le) && AntisymmetricOn(le, a)
    requires forall x :: x in a <==> x in b
    ensures a[0] == b[0]
  {
    assert a[0] in b && b[0] in a;
    var i :| 0 <= i < |b| && b[i] == a[0];
    var j :| 0 <= j < |a| && a[j] == b[0];
  }

  /** Sorting forgets the order of its input, when no two different elements tie. */
  lemma SortForgetsOrder<T(!new)>(a: seq<T>, b: seq<T>, le: (T, T) -> bool)
    requires multiset(a) == multiset(b) && TotalPreorderOn(le, a) && AntisymmetricOn(le, a)
    ensures ToSorted(a, le) == ToSorted(b, le)
  {
    SameMembers(a, b);
    SortSorts(a, le);
    SortSorts(b, le);
    SortKeeps(a, le);
    SortKeeps(b, le);
    SameMembers(a, ToSorted(a, le));
    SortedIsUnique(ToSorted(a, le), ToSorted(b, le), le);
  }

  // ---------- Sorting through a projection ----------

  function Map<T, U>(f: T -> U, s: seq<T>): (r: seq<U>)
    ensures |r| == |s| && forall i :: 0 <= i < |s| ==> r[i] == f(s[i])
  {
    if s == [] then [] else [f(s[0])] + Map(f, s[1..])
  }

  lemma {:induction false} MapComposes<T(!new), U(!new), V>(s: seq<T>, f: T -> U, g: U -> V, h: T -> V)
    requires forall x :: x in s ==> h(x) == g(f(x))
    ensures Map(h, s) == Map(g, Map(f, s))
  {
    if s == [] {
    } else {
      MapComposes(s[1..], f, g, h);
    }
  }

  lemma {:induction false} InsertProjects<T(!new), U(!new)>(x: T, s: seq<T>, f: T -> U, leT: (T, T) -> bool,
      leU: (U, U) -> bool)
    requires forall a, b :: leT(a, b) == leU(f(a), f(b))
    ensures Map(f, Insert(x, s, leT)) == Insert(f(x), Map(f, s), leU)
  {
    if s != [] && !leT(x, s[0]) {
      InsertProjects(x, s[1..], f, leT, leU);
    }
  }

  lemma {:induction false} SortProjects<T(!new), U(!new)>(s: seq<T>, f: T -> U, leT: (T, T) -> bool,
      leU: (U, U) -> bool)
    requires forall a, b :: leT(a, b) == leU(f(a), f(b))
    ensures Map(f, ToSorted(s, leT)) == ToSorted(Map(f, s), leU)
  {
    if s == [] {
    } else {
      SortProjects(s[1..], f, leT, leU);
      InsertProjects(s[0], ToSorted(s[1..], leT), f, leT, leU);
    }
  }

  lemma TwoPlaces<T>(s: seq<T>, i: nat, j: nat)
    requires i < j < |s|
    ensures s[i] == s[j] ==> multiset(s)[s[i]] >= 2
  {
    assert s == s[..i] + [s[i]] + s[i + 1..j] + [s[j]] + s[j + 1..];
  }

  lemma Extract<T>(x: T, b: seq<T>) returns (left: seq<T>, right: seq<T>)
    requires x in multiset(b)
    ensures b == left + [x] + right && multiset(left + right) == multiset(b) - multiset{x}
  {
    var i :| 0 <= i < |b| && b[i] == x;
    left, right := b[..i], b[i + 1..];
    assert b == left + [x] + right;
  }

  /** Two listings of one bag: the first element of one stands somewhere in the other. */
  lemma ExtractFirst<T>(a: seq<T>, b: seq<T>) returns (left: seq<T>, right: seq<T>)
    requires multiset(a) == multiset(b) && a != []
    ensures b == left + [a[0]] + right && multiset(a[1..]) == multiset(left + right)
  {
    SameMembers(a, b);
    TailBag(a);
    left, right := Extract(a[0], b);
  }

  lemma MapJoins<T, U>(f: T -> U, left: seq<T>, right: seq<T>)
    ensures Map(f, left + right) == Map(f, left) + Map(f, right)
  {
  }

  lemma {:induction false} MapBag<T, U>(f: T -> U, a: seq<T>, b: seq<T>)
    requires multiset(a) == multiset(b)
    ensures multiset(Map(f, a)) == multiset(Map(f, b))
    decreases |a|
  {
    if a == [] {
      assert |multiset(b)| == 0;
    } else {
      var left, right := ExtractFirst(a, b);
      MapBag(f, a[1..], left + right);
      MapMoves(f, left, a[0], right);
    }
  }

  lemma MapMoves<T, U>(f: T -> U, left: seq<T>, x: T, right: seq<T>)
    ensures multiset(Map(f, left + [x] + right)) == multiset{f(x)} + multiset(Map(f, left + right))
  {
    hide Map;
    MapJoins(f, left, right);
    MapJoins(f, left + [x], right);
    MapJoins(f, left, [x]);
    assert Map(f, [x]) == [f(x)];
  }

  // ---------- Filtering ----------

  function Filter<T(!new)>(f: T -> bool, s: seq<T>): (r: seq<T>)
    ensures |r| <= |s|
    ensures forall x :: x in r <==> x in s && f(x)
  {
    if s == [] then [] else (if f(s[0]) then [s[0]] else []) + Filter(f, s[1..])
  }

  lemma {:induction false} FilterJoins<T(!new)>(f: T -> bool, a: seq<T>, b: seq<T>)
    ensures Filter(f, a + b) == Filter(f, a) + Filter(f, b)
  {
    if a == [] {
      assert a + b == b;
    } else {
      assert (a + b)[1..] == a[1..] + b;
      FilterJoins(f, a[1..], b);
    }
  }

  lemma {:induction false} FilterAgrees<T(!new)>(f: T -> bool, g: T -> bool, s: seq<T>)
    requires forall x <- s :: f(x) == g(x)
    ensures Filter(f, s) == Filter(g, s)
  {
    if s == [] {
    } else {
      FilterAgrees(f, g, s[1..]);
    }
  }

  lemma {:induction false} FilterTwice<T(!new)>(f: T -> bool, g: T -> bool, both: T -> bool, s: seq<T>)
    requires forall x <- s :: both(x) <==> f(x) && g(x)
    ensures Filter(g, Filter(f, s)) == Filter(both, s)
  {
    if s == [] {
    } else {
      var head := if f(s[0]) then [s[0]] else [];
      FilterTwice(f, g, both, s[1..]);
      FilterJoins(g, head, Filter(f, s[1..]));
      assert [s[0]][1..] == [];
    }
  }

  lemma FilterAppends<T(!new)>(f: T -> bool, s: seq<T>, x: T)
    ensures Filter(f, s + [x]) == Filter(f, s) + if f(x) then [x] else []
  {
    FilterJoins(f, s, [x]);
    assert [x][1..] == [];
  }

  lemma {:induction false} FilterCount<T(!new)>(f: T -> bool, s: seq<T>, x: T)
    ensures multiset(Filter(f, s))[x] == if f(x) then multiset(s)[x] else 0
  {
    if s == [] {
    } else {
      FilterCount(f, s[1..], x);
      assert s == [s[0]] + s[1..];
    }
  }

  lemma FilterBag<T(!new)>(f: T -> bool, a: seq<T>, b: seq<T>)
    requires multiset(a) == multiset(b)
    ensures multiset(Filter(f, a)) == multiset(Filter(f, b))
  {
    forall x
      ensures multiset(Filter(f, a))[x] == multiset(Filter(f, b))[x]
    {
      FilterCount(f, a, x);
      FilterCount(f, b, x);
    }
  }
}
