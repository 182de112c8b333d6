/** The canonical key of a statistics point (snitch/snitch_dynamic.go, keyFromMetricID). */
module MetricKey {
  import opened Bytes
  import Sorting

  const EQUALS: byte := '=' as int
  const COMMA: byte := ',' as int
  const SPACE: byte := ' ' as int

  /** One entry of the tag map; a Go map is its tags in any order. */
  datatype Tag = Tag(key: seq<byte>, value: seq<byte>)

  function Component(t: Tag): seq<byte> {
    t.key + [EQUALS] + t.value
  }

  function Merged(tags: seq<Tag>): seq<seq<byte>> {
    seq(|tags|, i requires 0 <= i < |tags| => Component(tags[i]))
  }

  /** strings.Join(parts, ", ") */
  function Join(parts: seq<seq<byte>>): seq<byte> {
    if parts == [] then [] else if |parts| == 1 then parts[0] else parts[0] + [COMMA] + ([SPACE] + Join(parts[1..]))
  }

  function Key(metric: seq<byte>, tags: seq<Tag>): seq<byte> {
    Join(Sorting.Sort(Bytes.Less, Merged(tags)) + [metric])
  }

  /** `keyFromMetricID`: builds the `k=v` strings, sorts them in place and joins them before the metric. */
  method KeyFromMetricID(metric: seq<byte>, tags: seq<Tag>) returns (key: seq<byte>)
    ensures key == Key(metric, tags)
  {
    var merged := new seq<byte>[|tags|];
    for i := 0 to |tags|
      invariant forall k :: 0 <= k < i ==> merged[k] == Component(tags[k])
    {
      merged[i] := tags[i].key + [EQUALS] + tags[i].value;
    }
    assert merged[..] == Merged(tags);
    Sorting.SortInPlace(Bytes.Less, merged);
    key := Join(merged[..] + [metric]);
  }

  // ---------- independence of the iteration order ----------

  lemma BytesOrdered(s: seq<seq<byte>>)
    ensures Sorting.Orders(Bytes.Less, s)
  {
    forall x, y | !Bytes.Less(x, y) && !Bytes.Less(y, x) ensures x == y { LessConnected(x, y); }
    forall x, y | Bytes.Less(x, y) ensures !Bytes.Less(y, x) { LessAsymmetric(x, y); }
    forall x, y, z | !Bytes.Less(y, x) && !Bytes.Less(z, y) ensures !Bytes.Less(z, x) { LessTransitive(x, y, z); }
  }

  lemma MergedWithout(tags: seq<Tag>, j: nat)
    requires j < |tags|
    ensures multiset(Merged(tags)) == multiset(Merged(Sorting.Without(tags, j))) + multiset{Component(tags[j])}
  {
    var m := Merged(tags);
    assert Merged(Sorting.Without(tags, j)) == Sorting.Without(m, j);
    Sorting.WithoutElements(m, j);
    assert m[j] in m;
  }

  lemma {:induction false} MergedPermutes(tags: seq<Tag>, tags': seq<Tag>)
    requires multiset(tags) == multiset(tags')
    ensures multiset(Merged(tags)) == multiset(Merged(tags'))
    decreases |tags|
  {
    Sorting.SameMembers(tags, tags');
    if tags != [] {
      assert tags[0] in tags';
      var j :| 0 <= j < |tags'| && tags'[j] == tags[0];
      Sorting.WithoutElements(tags, 0);
      Sorting.WithoutElements(tags', j);
      MergedPermutes(Sorting.Without(tags, 0), Sorting.Without(tags', j));
      MergedWithout(tags, 0);
      MergedWithout(tags', j);
    }
  }

  /** The key does not depend on the order in which the tag map is ranged over. */
  lemma KeyOrderIndependent(metric: seq<byte>, tags: seq<Tag>, tags': seq<Tag>)
    requires multiset(tags) == multiset(tags')
    ensures Key(metric, tags) == Key(metric, tags')
  {
    MergedPermutes(tags, tags');
    BytesOrdered(Merged(tags));
    Sorting.SortCanonical(Bytes.Less, Merged(tags), Merged(tags'));
  }

  // ---------- injectivity ----------

  /** Where the first separator stands. */
  function First(sep: byte, s: seq<byte>): nat {
    if s == [] || s[0] == sep then 0 else 1 + First(sep, s[1..])
  }

  lemma {:induction false} FirstOf(sep: byte, a: seq<byte>, x: seq<byte>)
    requires sep !in a && (x == [] || x[0] == sep)
    ensures First(sep, a + x) == |a|
  {
    if a == [] {
      assert a + x == x;
    } else {
      assert (a + x)[1..] == a[1..] + x;
      FirstOf(sep, a[1..], x);
    }
  }

  /** Text before the first separator is determined by the whole. */
  lemma SplitAtFirst(sep: byte, a: seq<byte>, x: seq<byte>, b: seq<byte>, y: seq<byte>)
    requires sep !in a && sep !in b && a + [sep] + x == b + [sep] + y
    ensures a == b && x == y
  {
    var s, t := a + [sep] + x, b + [sep] + y;
    assert s == a + ([sep] + x) && t == b + ([sep] + y);
    FirstOf(sep, a, [sep] + x);
    FirstOf(sep, b, [sep] + y);
    assert a == s[..|a|] && b == t[..|b|];
    assert x == s[|a| + 1..] && y == t[|b| + 1..];
  }

  /** The two bytes of the separator stand next to each other; a comma or a space alone does no harm. */
  ghost predicate HasSeparator(s: seq<byte>) {
    exists i :: 0 <= i < |s| - 1 && s[i] == COMMA && s[i + 1] == SPACE
  }

  /** Where the first ", " stands. */
  function FirstSeparator(s: seq<byte>): nat {
    if |s| < 2 then |s| else if s[0] == COMMA && s[1] == SPACE then 0 else 1 + FirstSeparator(s[1..])
  }

  lemma {:induction false} FirstSeparatorOf(a: seq<byte>, x: seq<byte>)
    requires !HasSeparator(a) && (x == [] || (|x| >= 2 && x[0] == COMMA && x[1] == SPACE))
    ensures FirstSeparator(a + x) == |a|
  {
    if a == [] {
      assert a + x == x;
    } else {
      assert (a + x)[1..] == a[1..] + x;
      assert !HasSeparator(a[1..]) by { assert forall i :: 0 <= i < |a| - 1 ==> a[1..][i] == a[i + 1]; }
      FirstSeparatorOf(a[1..], x);
    }
  }

  lemma ComponentSeparates(t: Tag)
    requires !HasSeparator(t.key) && !HasSeparator(t.value)
    ensures !HasSeparator(Component(t))
  {
    var c, n := Component(t), |t.key|;
    forall i | 0 <= i < |c| - 1 ensures !(c[i] == COMMA && c[i + 1] == SPACE) {
      if i + 1 < n { assert c[i] == t.key[i] && c[i + 1] == t.key[i + 1]; }
      else if i > n { assert c[i] == t.value[i - n - 1] && c[i + 1] == t.value[i - n]; }
    }
  }

  ghost predicate NoSeparators(parts: seq<seq<byte>>) {
    forall i :: 0 <= i < |parts| ==> !HasSeparator(parts[i])
  }

  lemma JoinFirst(p: seq<seq<byte>>)
    requires p != [] && NoSeparators(p)
    ensures FirstSeparator(Join(p)) == |p[0]|
  {
    if |p| == 1 {
      FirstSeparatorOf(p[0], []);
      assert p[0] + [] == p[0];
    } else {
      var rest := [COMMA] + ([SPACE] + Join(p[1..]));
      FirstSeparatorOf(p[0], rest);
      assert Join(p) == p[0] + rest;
    }
  }

  lemma {:induction false} JoinInjective(p: seq<seq<byte>>, q: seq<seq<byte>>)
    requires p != [] && q != [] && NoSeparators(p) && NoSeparators(q) && Join(p) == Join(q)
    ensures p == q
  {
    JoinFirst(p);
    JoinFirst(q);
    assert p[0] == Join(p)[..|p[0]|] && q[0] == Join(q)[..|q[0]|];
    assert |p| == 1 <==> |q| == 1;
    if |p| > 1 {
      assert Join(p[1..]) == Join(p)[|p[0]| + 2..] && Join(q[1..]) == Join(q)[|q[0]| + 2..];
      JoinInjective(p[1..], q[1..]);
      assert p == [p[0]] + p[1..] && q == [q[0]] + q[1..];
    }
  }

  /** A point whose key can be read back: no '=' in a tag key, no ", " anywhere. */
  ghost predicate Plain(metric: seq<byte>, tags: seq<Tag>) {
    !HasSeparator(metric) && forall i :: 0 <= i < |tags| ==>
      !HasSeparator(tags[i].key) && !HasSeparator(tags[i].value) && EQUALS !in tags[i].key
  }

  ghost predicate DistinctKeys(tags: seq<Tag>) {
    forall i, j :: 0 <= i < j < |tags| ==> tags[i].key != tags[j].key
  }

  lemma SortedPlain(metric: seq<byte>, tags: seq<Tag>)
    requires Plain(metric, tags)
    ensures NoSeparators(Sorting.Sort(Bytes.Less, Merged(tags)) + [metric])
  {
    var m := Merged(tags);
    Sorting.SortKeepsElements(Bytes.Less, m);
    Sorting.SameMembers(Sorting.Sort(Bytes.Less, m), m);
    forall c | c in Sorting.Sort(Bytes.Less, m) ensures !HasSeparator(c) {
      assert c in m;
      var i :| 0 <= i < |tags| && Component(tags[i]) == c;
      ComponentSeparates(tags[i]);
    }
  }

  lemma TagFound(tags: seq<Tag>, tags': seq<Tag>, t: Tag)
    requires multiset(Merged(tags)) == multiset(Merged(tags')) && t in tags && EQUALS !in t.key
    requires forall u :: u in tags' ==> EQUALS !in u.key
    ensures t in tags'
  {
    var i :| 0 <= i < |tags| && tags[i] == t;
    assert Merged(tags)[i] == Component(t);
    Sorting.SameMembers(Merged(tags), Merged(tags'));
    assert Component(t) in Merged(tags');
    var j :| 0 <= j < |tags'| && Merged(tags')[j] == Component(t);
    SplitAtFirst(EQUALS, t.key, t.value, tags'[j].key, tags'[j].value);
    assert tags'[j] == t;
  }

  /** For plain points the key identifies the metric and the tag map, and nothing else. */
  lemma KeyIdentifiesPoint(metric: seq<byte>, tags: seq<Tag>, metric': seq<byte>, tags': seq<Tag>)
    requires Plain(metric, tags) && Plain(metric', tags') && DistinctKeys(tags) && DistinctKeys(tags')
    ensures Key(metric, tags) == Key(metric', tags') <==> metric == metric' && multiset(tags) == multiset(tags')
  {
    if Key(metric, tags) == Key(metric', tags') {
      var s, s' := Sorting.Sort(Bytes.Less, Merged(tags)), Sorting.Sort(Bytes.Less, Merged(tags'));
      SortedPlain(metric, tags);
      SortedPlain(metric', tags');
      JoinInjective(s + [metric], s' + [metric']);
      assert s == (s + [metric])[..|s|] && s' == (s' + [metric'])[..|s'|];
      Sorting.SortKeepsElements(Bytes.Less, Merged(tags));
      Sorting.SortKeepsElements(Bytes.Less, Merged(tags'));
      Sorting.SameMembers(Merged(tags), Merged(tags'));
      forall t | t in tags ensures t in tags' { TagFound(tags, tags', t); }
      Sorting.SameElements(tags, tags');
    } else if metric == metric' && multiset(tags) == multiset(tags') {
      KeyOrderIndependent(metric, tags, tags');
    }
  }

  // ---------- reading a key ----------

  /** The text between the separators. */
  function Split(s: seq<byte>): seq<seq<byte>>
    decreases |s|
  {
    var n := FirstSeparator(s);
    if n + 2 <= |s| then [s[..n]] + Split(s[n + 2..]) else [s]
  }

  lemma {:induction false} SplitJoin(p: seq<seq<byte>>)
    requires p != [] && NoSeparators(p)
    ensures Split(Join(p)) == p
  {
    JoinFirst(p);
    if |p| > 1 {
      SplitJoin(p[1..]);
      assert Join(p)[..|p[0]|] == p[0] && Join(p)[|p[0]| + 2..] == Join(p[1..]);
      assert p == [p[0]] + p[1..];
    }
  }

  /** A plain key reads as the `k=v` strings in ascending order, and the metric after them. */
  lemma KeyReads(metric: seq<byte>, tags: seq<Tag>)
    requires Plain(metric, tags)
    ensures var parts, n := Split(Key(metric, tags)), |tags|;
      && |parts| == n + 1 && parts[n] == metric && multiset(parts[..n]) == multiset(Merged(tags))
      && (forall i, j :: 0 <= i < j < n ==> parts[i] == parts[j] || exists d: nat :: SmallerAt(parts[i], parts[j], d))
  {
    var m := Merged(tags);
    var s, n := Sorting.Sort(Bytes.Less, m), |tags|;
    SortedPlain(metric, tags);
    SplitJoin(s + [metric]);
    Sorting.SortKeepsElements(Bytes.Less, m);
    Sorting.SameMembers(s, m);
    BytesOrdered(m);
    Sorting.SortSorts(Bytes.Less, m);
    assert (s + [metric])[..n] == s;
    forall i, j | 0 <= i < j < n ensures s[i] == s[j] || exists d: nat :: SmallerAt(s[i], s[j], d) {
      assert !Bytes.Less(s[j], s[i]);
      if !Bytes.Less(s[i], s[j]) { LessConnected(s[i], s[j]); }
      LessIff(s[i], s[j]);
    }
  }

  /** With '=' in a tag key, two different points share a key. */
  lemma EqualsInKeyCollides(metric: seq<byte>, a: seq<byte>, x: seq<byte>, b: seq<byte>)
    ensures var s, t := Tag(a + [EQUALS] + x, b), Tag(a, x + [EQUALS] + b);
      s != t && Key(metric, [s]) == Key(metric, [t])
  {
    var s, t := Tag(a + [EQUALS] + x, b), Tag(a, x + [EQUALS] + b);
    assert |s.key| != |t.key|;
    assert Component(s) == Component(t);
    assert Merged([s]) == Merged([t]);
  }

  /** With ", " in a tag value, one tag reads like two. */
  lemma SeparatorInValueCollides(metric: seq<byte>, s: Tag, t: Tag)
    requires !Bytes.Less(Component(t), Component(s))
    ensures Key(metric, [s, t]) == Key(metric, [Tag(s.key, s.value + [COMMA] + ([SPACE] + Component(t)))])
  {
    var u := Tag(s.key, s.value + [COMMA] + ([SPACE] + Component(t)));
    var sep := [COMMA, SPACE];
    assert Component(u) == Component(s) + sep + Component(t);
    KeyOfOne(metric, u);
    KeyOfTwo(metric, s, t);
  }

  lemma JoinStep(a: seq<byte>, parts: seq<seq<byte>>)
    requires parts != []
    ensures Join([a] + parts) == a + [COMMA, SPACE] + Join(parts) && Join([a]) == a
  {
    assert ([a] + parts)[1..] == parts;
    assert [COMMA] + ([SPACE] + Join(parts)) == [COMMA, SPACE] + Join(parts);
  }

  lemma KeyOfOne(metric: seq<byte>, t: Tag)
    ensures Key(metric, [t]) == Component(t) + [COMMA, SPACE] + metric
  {
    var c := Component(t);
    assert Merged([t]) == [c];
    LessAsymmetric(c, c);
    SortTwo(c, c);
    JoinStep(c, [metric]);
    JoinStep(metric, [c]);
  }

  lemma KeyOfTwo(metric: seq<byte>, s: Tag, t: Tag)
    requires !Bytes.Less(Component(t), Component(s))
    ensures Key(metric, [s, t]) == Component(s) + [COMMA, SPACE] + (Component(t) + [COMMA, SPACE] + metric)
  {
    var a, b := Component(s), Component(t);
    assert Merged([s, t]) == [a, b];
    SortTwo(a, b);
    assert [a, b] + [metric] == [a] + ([b] + [metric]);
    JoinStep(a, [b] + [metric]);
    JoinStep(b, [metric]);
    JoinStep(metric, [b]);
  }

  lemma SortTwo(a: seq<byte>, b: seq<byte>)
    requires !Bytes.Less(b, a)
    ensures Sorting.Sort(Bytes.Less, [a]) == [a] && Sorting.Sort(Bytes.Less, [a, b]) == [a, b]
  {
    assert [a][..0] == [] && [a, b][..1] == [a];
  }
}
