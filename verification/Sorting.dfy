/** Sorting as Go's sort package sees it: a strict `less` and swaps of neighbours.
    A sorted listing of given elements is unique when `less` separates them, so results
    about `Sort` hold for any sorting algorithm. */
module Sorting {

  /** `less` is a strict weak order that tells the members of `s` apart. */
  ghost predicate Orders<T>(less: (T, T) -> bool, s: seq<T>) {
    && (forall x, y {:trigger less(x, y), less(y, x)} :: x in s && y in s && less(x, y) ==> !less(y, x))
    && (forall x, y {:trigger less(x, y), less(y, x)} :: x in s && y in s && !less(x, y) && !less(y, x) ==> x == y)
    && (forall x, y, z {:trigger less(y, x), less(z, y)} ::
          x in s && y in s && z in s && !less(y, x) && !less(z, y) ==> !less(z, x))
  }

  lemma OrdersSubset<T>(less: (T, T) -> bool, s: seq<T>, t: seq<T>)
    requires Orders(less, s) && forall y :: y in t ==> y in s
    ensures Orders(less, t)
  {
  }

  ghost predicate Sorted<T>(less: (T, T) -> bool, s: seq<T>) {
    forall i, j :: 0 <= i < j < |s| ==> !less(s[j], s[i])
  }

  /** Moves `x` left past every larger element at the end of `s`. */
  function Insert<T>(less: (T, T) -> bool, x: T, s: seq<T>): seq<T> {
    if s == [] || !less(x, s[|s| - 1]) then s + [x]
    else Insert(less, x, s[..|s| - 1]) + [s[|s| - 1]]
  }

  function Sort<T>(less: (T, T) -> bool, s: seq<T>): seq<T> {
    if s == [] then [] else Insert(less, s[|s| - 1], Sort(less, s[..|s| - 1]))
  }

  lemma {:induction false} InsertKeepsElements<T>(less: (T, T) -> bool, x: T, s: seq<T>)
    ensures multiset(Insert(less, x, s)) == multiset(s) + multiset{x}
  {
    if s != [] && less(x, s[|s| - 1]) {
      assert s == s[..|s| - 1] + [s[|s| - 1]];
      InsertKeepsElements(less, x, s[..|s| - 1]);
    }
  }

  lemma {:induction false} SortKeepsElements<T>(less: (T, T) -> bool, s: seq<T>)
    ensures multiset(Sort(less, s)) == multiset(s)
  {
    if s != [] {
      assert s == s[..|s| - 1] + [s[|s| - 1]];
      SortKeepsElements(less, s[..|s| - 1]);
      InsertKeepsElements(less, s[|s| - 1], Sort(less, s[..|s| - 1]));
    }
  }

  lemma SameMembers<T>(s: seq<T>, t: seq<T>)
    requires multiset(s) == multiset(t)
    ensures |s| == |t|
    ensures forall x :: x in s ==> x in t
  {
    assert |multiset(s)| == |multiset(t)|;
    forall x | x in s ensures x in t {
      assert x in multiset(s);
    }
  }

  function Without<T>(s: seq<T>, j: nat): seq<T>
    requires j < |s|
  {
    s[..j] + s[j + 1..]
  }

  lemma WithoutElements<T>(s: seq<T>, j: nat)
    requires j < |s|
    ensures multiset(Without(s, j)) == multiset(s) - multiset{s[j]}
  {
    assert s == s[..j] + [s[j]] + s[j + 1..];
  }

  ghost predicate Distinct<T>(s: seq<T>) {
    forall i, j :: 0 <= i < j < |s| ==> s[i] != s[j]
  }

  /** Duplicate-free lists of equal length, one inside the other, have the same elements. */
  lemma {:induction false} SameElements<T>(s: seq<T>, t: seq<T>)
    requires Distinct(s) && |s| == |t| && forall x :: x in s ==> x in t
    ensures multiset(s) == multiset(t)
  {
    if s != [] {
      assert s[0] in t;
      var j :| 0 <= j < |t| && t[j] == s[0];
      var rest := t[..j] + t[j + 1..];
      forall x | x in s[1..] ensures x in rest {
        assert x in s && x in t;
        var k :| 0 <= k < |t| && t[k] == x;
        assert k != j;
        assert rest[if k < j then k else k - 1] == x;
      }
      SameElements(s[1..], rest);
      assert s == [s[0]] + s[1..] && t == t[..j] + [t[j]] + t[j + 1..];
    }
  }

  lemma SortedLast<T>(less: (T, T) -> bool, s: seq<T>, l: T)
    requires Sorted(less, s) && forall i :: 0 <= i < |s| ==> !less(l, s[i])
    ensures Sorted(less, s + [l])
  {
  }

  /** The last of a sorted list is below nothing in it, and what is above the last is above all. */
  lemma LastIsMaximal<T>(less: (T, T) -> bool, s: seq<T>, x: T)
    requires s != [] && Sorted(less, s) && Orders(less, s + [x]) && !less(x, s[|s| - 1])
    ensures forall i :: 0 <= i < |s| ==> !less(x, s[i])
  {
    var l := s[|s| - 1];
    forall i | 0 <= i < |s| - 1 ensures !less(x, s[i]) {
      assert s[i] in s + [x] && l in s + [x] && x in s + [x];
      assert !less(l, s[i]);
    }
  }

  /** Sorting by insertion: everything already placed stays on its side of `x`. */
  lemma {:induction false} InsertSorts<T>(less: (T, T) -> bool, x: T, s: seq<T>)
    requires Orders(less, s + [x]) && Sorted(less, s)
    ensures Sorted(less, Insert(less, x, s))
  {
    if s == [] {
    } else if !less(x, s[|s| - 1]) {
      LastIsMaximal(less, s, x);
      SortedLast(less, s, x);
    } else {
      var p, l := s[..|s| - 1], s[|s| - 1];
      OrdersSubset(less, s + [x], p + [x]);
      InsertSorts(less, x, p);
      var r := Insert(less, x, p);
      InsertKeepsElements(less, x, p);
      assert multiset(p + [x]) == multiset(r);
      SameMembers(r, p + [x]);
      forall i | 0 <= i < |r| ensures !less(l, r[i]) {
        LastNotBelow(less, s, x, r[i]);
      }
      SortedLast(less, r, l);
    }
  }

  lemma LastNotBelow<T>(less: (T, T) -> bool, s: seq<T>, x: T, y: T)
    requires s != [] && Sorted(less, s) && Orders(less, s + [x]) && less(x, s[|s| - 1]) && y in s[..|s| - 1] + [x]
    ensures !less(s[|s| - 1], y)
  {
    if y == x {
      assert x in s + [x] && s[|s| - 1] in s + [x];
    } else {
      var k :| 0 <= k < |s| - 1 && s[k] == y;
    }
  }

  lemma {:induction false} SortSorts<T>(less: (T, T) -> bool, s: seq<T>)
    requires Orders(less, s)
    ensures Sorted(less, Sort(less, s))
  {
    if s != [] {
      var p, l := s[..|s| - 1], s[|s| - 1];
      OrdersSubset(less, s, p);
      SortSorts(less, p);
      SortKeepsElements(less, p);
      SameMembers(Sort(less, p), p);
      OrdersSubset(less, s, Sort(less, p) + [l]);
      InsertSorts(less, l, Sort(less, p));
    }
  }

  lemma SortedHead<T>(less: (T, T) -> bool, s: seq<T>, y: T)
    requires Sorted(less, s) && y in s
    ensures y == s[0] || !less(y, s[0])
  {
    var j :| 0 <= j < |s| && s[j] == y;
  }

  lemma SameHead<T>(less: (T, T) -> bool, s: seq<T>, t: seq<T>)
    requires s != [] && multiset(s) == multiset(t) && Orders(less, s) && Sorted(less, s) && Sorted(less, t)
    ensures t != [] && s[0] == t[0]
  {
    SameMembers(s, t);
    SameMembers(t, s);
    assert s[0] in t && t[0] in s;
    SortedHead(less, s, t[0]);
    SortedHead(less, t, s[0]);
  }

  lemma SameTail<T>(s: seq<T>, t: seq<T>)
    requires s != [] && t != [] && multiset(s) == multiset(t) && s[0] == t[0]
    ensures multiset(s[1..]) == multiset(t[1..])
  {
    assert s == [s[0]] + s[1..] && t == [t[0]] + t[1..];
    assert multiset(s[1..]) == multiset(s) - multiset{s[0]};
  }

  /** Two sorted listings of the same elements are the same listing. */
  lemma {:induction false} SortedUnique<T>(less: (T, T) -> bool, s: seq<T>, t: seq<T>)
    requires multiset(s) == multiset(t) && Orders(less, s)
    requires Sorted(less, s) && Sorted(less, t)
    ensures s == t
  {
    if s == [] {
      SameMembers(s, t);
    } else {
      SameHead(less, s, t);
      SameTail(s, t);
      OrdersSubset(less, s, s[1..]);
      SortedUnique(less, s[1..], t[1..]);
      assert s == [s[0]] + s[1..] && t == [t[0]] + t[1..];
    }
  }

  /** Any sorting of any relisting of the same elements gives the same result. */
  lemma SortCanonical<T>(less: (T, T) -> bool, s: seq<T>, t: seq<T>)
    requires multiset(s) == multiset(t) && Orders(less, s)
    ensures Sort(less, s) == Sort(less, t)
  {
    SameMembers(t, s);
    OrdersSubset(less, s, t);
    SortKeepsElements(less, s);
    SortKeepsElements(less, t);
    SortSorts(less, s);
    SortSorts(less, t);
    SameMembers(Sort(less, s), s);
    OrdersSubset(less, s, Sort(less, s));
    SortedUnique(less, Sort(less, s), Sort(less, t));
  }

  /** `Insert` puts `x` right after the last element that is not larger. */
  lemma {:induction false} InsertPosition<T>(less: (T, T) -> bool, x: T, t: seq<T>, j: nat)
    requires j <= |t| && (forall k :: j <= k < |t| ==> less(x, t[k])) && (j > 0 ==> !less(x, t[j - 1]))
    ensures Insert(less, x, t) == t[..j] + [x] + t[j..]
  {
    if j < |t| {
      InsertPosition(less, x, t[..|t| - 1], j);
      assert t[..|t| - 1][..j] == t[..j];
      assert t[j..] == t[..|t| - 1][j..] + [t[|t| - 1]];
    }
  }

  /** `now` is `was` with the element at `i` moved left to `j`. */
  lemma Shifted<T>(less: (T, T) -> bool, was: seq<T>, now: seq<T>, i: nat, j: nat)
    requires |now| == |was| && j <= i < |was| && now[j] == was[i]
    requires forall k :: 0 <= k < j || i < k < |was| ==> now[k] == was[k]
    requires forall k :: j < k <= i ==> now[k] == was[k - 1]
    requires (forall k :: j <= k < i ==> less(was[i], was[k])) && (j > 0 ==> !less(was[i], was[j - 1]))
    ensures now[..i + 1] == Insert(less, was[i], was[..i]) && now[i + 1..] == was[i + 1..]
  {
    var t := was[..i];
    InsertPosition(less, was[i], t, j);
    var r := t[..j] + [was[i]] + t[j..];
    forall k | 0 <= k < i + 1 ensures now[k] == r[k] {
      if k > j { assert r[k] == t[j..][k - j - 1] == was[k - 1]; }
    }
    assert now[..i + 1] == r;
  }

  /** The inner loop: swaps `a[i]` left while it is less than its neighbour. */
  method InsertInPlace<T>(less: (T, T) -> bool, a: array<T>, i: nat)
    requires i < a.Length
    modifies a
    ensures a[..i + 1] == Insert(less, old(a[i]), old(a[..i]))
    ensures a[i + 1..] == old(a[i + 1..])
  {
    ghost var was := a[..];
    var j := i;
    while j > 0 && less(a[j], a[j - 1])
      invariant 0 <= j <= i
      invariant a[j] == was[i] && forall k :: 0 <= k < j || i < k < a.Length ==> a[k] == was[k]
      invariant forall k :: j < k <= i ==> a[k] == was[k - 1]
      invariant forall k :: j <= k < i ==> less(was[i], was[k])
    {
      a[j], a[j - 1] := a[j - 1], a[j];
      j := j - 1;
    }
    Shifted(less, was, a[..], i, j);
    assert a[..i + 1] == a[..][..i + 1] && a[i + 1..] == a[..][i + 1..];
  }

  /** The in-place sort by `Less` and `Swap` of neighbours computes `Sort`. */
  method SortInPlace<T>(less: (T, T) -> bool, a: array<T>)
    modifies a
    ensures a[..] == Sort(less, old(a[..]))
  {
    ghost var was := a[..];
    for i := 0 to a.Length
      invariant a[..i] == Sort(less, was[..i])
      invariant a[i..] == was[i..]
    {
      assert a[i] == a[i..][0] == was[i..][0];
      assert a[i + 1..] == a[i..][1..];
      InsertInPlace(less, a, i);
      assert was[..i + 1][..i] == was[..i];
    }
    assert a[..] == a[..a.Length] && was == was[..a.Length];
  }
}
