/** How one entry's values become one value (timeline/flattener.go, flatten). Values are reals. */
module Flattening {
  import opened Options
  import Sorting

  datatype FlatOperation = Avg | Sum | Count | Max | Min | Unmapped(id: nat)

  function Total(s: seq<real>): real {
    if s == [] then 0.0 else Total(s[..|s| - 1]) + s[|s| - 1]
  }

  function Least(s: seq<real>): real
    requires s != []
  {
    if |s| == 1 then s[0]
    else if s[|s| - 1] < Least(s[..|s| - 1]) then s[|s| - 1] else Least(s[..|s| - 1])
  }

  function Greatest(s: seq<real>): real
    requires s != []
  {
    if |s| == 1 then s[0]
    else if s[|s| - 1] > Greatest(s[..|s| - 1]) then s[|s| - 1] else Greatest(s[..|s| - 1])
  }

  /** The flattened value; `None` is the error of an operation that is not mapped. */
  function FlatValue(op: FlatOperation, values: seq<real>): Option<real>
    requires values != []
  {
    match op
    case Avg => Some(Total(values) / |values| as real)
    case Sum => Some(Total(values))
    case Count => Some(|values| as real)
    case Min => Some(Least(values))
    case Max => Some(Greatest(values))
    case Unmapped(_) => None
  }

  lemma Prefix(s: seq<real>, i: nat)
    requires i < |s|
    ensures s[..i + 1][..i] == s[..i]
  {
  }

  /** `flatten`: one loop per operation. Every entry holds at least one value. */
  method Flatten(op: FlatOperation, values: seq<real>) returns (r: Option<real>)
    requires values != []
    ensures r == FlatValue(op, values)
  {
    var flat := 0.0;
    assert values[..|values|] == values;
    match op {
      case Avg =>
        for i := 0 to |values|
          invariant flat == Total(values[..i])
        {
          Prefix(values, i);
          flat := flat + values[i];
        }
        flat := flat / |values| as real;
      case Sum =>
        for i := 0 to |values|
          invariant flat == Total(values[..i])
        {
          Prefix(values, i);
          flat := flat + values[i];
        }
      case Count =>
        flat := |values| as real;
      case Min =>
        flat := values[0];
        for i := 1 to |values|
          invariant flat == Least(values[..i])
        {
          Prefix(values, i);
          if values[i] < flat {
            flat := values[i];
          }
        }
      case Max =>
        flat := values[0];
        for i := 1 to |values|
          invariant flat == Greatest(values[..i])
        {
          Prefix(values, i);
          if values[i] > flat {
            flat := values[i];
          }
        }
      case Unmapped(_) =>
        return None;
    }
    r := Some(flat);
  }

  // ---------- laws ----------

  lemma {:induction false} LeastIsLeast(s: seq<real>)
    requires s != []
    ensures Least(s) in s && forall x :: x in s ==> Least(s) <= x
  {
    if |s| > 1 {
      var p, l := s[..|s| - 1], s[|s| - 1];
      assert s == p + [l];
      LeastIsLeast(p);
    }
  }

  lemma {:induction false} GreatestIsGreatest(s: seq<real>)
    requires s != []
    ensures Greatest(s) in s && forall x :: x in s ==> x <= Greatest(s)
  {
    if |s| > 1 {
      var p, l := s[..|s| - 1], s[|s| - 1];
      assert s == p + [l];
      GreatestIsGreatest(p);
    }
  }

  lemma {:induction false} TotalBetween(s: seq<real>, lo: real, hi: real)
    requires forall x :: x in s ==> lo <= x <= hi
    ensures lo * |s| as real <= Total(s) <= hi * |s| as real
  {
    if s != [] {
      var p, l := s[..|s| - 1], s[|s| - 1];
      assert l in s;
      assert forall x :: x in p ==> x in s;
      TotalBetween(p, lo, hi);
      assert |s| as real == |p| as real + 1.0;
      assert lo * |s| as real == lo * |p| as real + lo && hi * |s| as real == hi * |p| as real + hi;
    }
  }

  lemma Scale(a: real, b: real, n: real)
    requires n > 0.0 && a * n <= b * n
    ensures a <= b
  {
  }

  lemma DivideBetween(lo: real, t: real, hi: real, n: real)
    requires n > 0.0 && lo * n <= t <= hi * n
    ensures lo <= t / n <= hi && t / n * n == t
  {
    var q := t / n;
    assert q * n == t;
    Scale(lo, q, n);
    Scale(q, hi, n);
  }

  /** Minimum, average and maximum are ordered, and average times count is the sum. */
  lemma AverageLaws(s: seq<real>)
    requires s != []
    ensures FlatValue(Min, s).value <= FlatValue(Avg, s).value <= FlatValue(Max, s).value
    ensures FlatValue(Avg, s).value * FlatValue(Count, s).value == FlatValue(Sum, s).value
  {
    LeastIsLeast(s);
    GreatestIsGreatest(s);
    TotalBetween(s, Least(s), Greatest(s));
    DivideBetween(Least(s), Total(s), Greatest(s), |s| as real);
  }

  lemma {:induction false} TotalConcat(a: seq<real>, b: seq<real>)
    ensures Total(a + b) == Total(a) + Total(b)
  {
    if b == [] {
      assert a + b == a;
    } else {
      assert (a + b)[..|a + b| - 1] == a + b[..|b| - 1];
      TotalConcat(a, b[..|b| - 1]);
    }
  }

  lemma TotalWithout(s: seq<real>, j: nat)
    requires j < |s|
    ensures Total(s) == Total(Sorting.Without(s, j)) + s[j]
  {
    var a, b := s[..j + 1], s[j + 1..];
    assert s == a + b && a[..j] == s[..j];
    TotalConcat(a, b);
    TotalConcat(s[..j], b);
  }

  lemma {:induction false} TotalPermutes(s: seq<real>, t: seq<real>)
    requires multiset(s) == multiset(t)
    ensures Total(s) == Total(t)
    decreases |s|
  {
    Sorting.SameMembers(s, t);
    if s != [] {
      assert s[0] in t;
      var j :| 0 <= j < |t| && t[j] == s[0];
      Sorting.WithoutElements(s, 0);
      Sorting.WithoutElements(t, j);
      TotalPermutes(Sorting.Without(s, 0), Sorting.Without(t, j));
      TotalWithout(s, 0);
      TotalWithout(t, j);
    }
  }

  /** The order in which values were added does not matter. */
  lemma OrderIrrelevant(op: FlatOperation, s: seq<real>, t: seq<real>)
    requires s != [] && t != [] && multiset(s) == multiset(t)
    ensures FlatValue(op, s) == FlatValue(op, t)
  {
    Sorting.SameMembers(s, t);
    Sorting.SameMembers(t, s);
    TotalPermutes(s, t);
    LeastIsLeast(s);
    LeastIsLeast(t);
    GreatestIsGreatest(s);
    GreatestIsGreatest(t);
  }

  /** Flattening a list in two parts: sums and counts add. */
  lemma SplitsAdd(a: seq<real>, b: seq<real>)
    requires a != [] && b != []
    ensures FlatValue(Sum, a + b).value == FlatValue(Sum, a).value + FlatValue(Sum, b).value
    ensures FlatValue(Count, a + b).value == FlatValue(Count, a).value + FlatValue(Count, b).value
  {
    TotalConcat(a, b);
  }

  function Weighted(s: seq<real>): real
    requires s != []
  {
    FlatValue(Avg, s).value * FlatValue(Count, s).value
  }

  /** Flattening a list in two parts: averages weighed by their counts add. */
  lemma SplitsWeigh(a: seq<real>, b: seq<real>)
    requires a != [] && b != []
    ensures Weighted(a + b) == Weighted(a) + Weighted(b)
  {
    WeightedIsTotal(a);
    WeightedIsTotal(b);
    WeightedIsTotal(a + b);
    TotalConcat(a, b);
  }

  lemma WeightedIsTotal(s: seq<real>)
    requires s != []
    ensures Weighted(s) == Total(s)
  {
    AverageLaws(s);
  }

  /** Flattening a list in two parts: the extreme of the extremes. */
  lemma SplitsCombine(a: seq<real>, b: seq<real>)
    requires a != [] && b != []
    ensures FlatValue(Min, a + b) == FlatValue(Min, [FlatValue(Min, a).value, FlatValue(Min, b).value])
    ensures FlatValue(Max, a + b) == FlatValue(Max, [FlatValue(Max, a).value, FlatValue(Max, b).value])
  {
    LeastCombines(a, b);
    GreatestCombines(a, b);
  }

  lemma LeastCombines(a: seq<real>, b: seq<real>)
    requires a != [] && b != []
    ensures Least(a + b) == Least([Least(a), Least(b)])
  {
    LeastIsLeast(a);
    LeastIsLeast(b);
    LeastIsLeast(a + b);
    var two := [Least(a), Least(b)];
    LeastIsLeast(two);
    assert two[0] in two && two[1] in two && two[0] in a + b && two[1] in a + b;
  }

  lemma GreatestCombines(a: seq<real>, b: seq<real>)
    requires a != [] && b != []
    ensures Greatest(a + b) == Greatest([Greatest(a), Greatest(b)])
  {
    GreatestIsGreatest(a);
    GreatestIsGreatest(b);
    GreatestIsGreatest(a + b);
    var two := [Greatest(a), Greatest(b)];
    GreatestIsGreatest(two);
    assert two[0] in two && two[1] in two && two[0] in a + b && two[1] in a + b;
  }
}
