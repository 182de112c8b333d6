/** The canonical byte encoding that is fed to the hash functions (hashing/byteconv.go,
    hashing/sortconv.go, hashing/hashing.go). `None` stands for a returned error or a panic. */
module Hashing {
  import opened Options
  import opened Bytes
  import Sorting

  const TWO63 := 0x8000_0000_0000_0000
  const TWO64 := 0x1_0000_0000_0000_0000
  type int64 = i: int | -TWO63 <= i < TWO63
  type uint64 = n: int | 0 <= n < TWO64

  /** A reflected Go value. A map is listed as pairs in the order `MapKeys` happens to give;
      `Other` is any kind without an encoder (struct, interface, pointer, channel, ...). */
  datatype Value =
    | Str(s: seq<byte>)
    | Int(i: int64)
    | Uint(u: uint64)
    | Float(bits: uint64)
    | Bool(b: bool)
    | Array(elems: seq<Value>)
    | Map(pairs: seq<Pair>)
    | Other

  datatype Pair = Pair(key: Value, value: Value)

  // ---------- scalars ----------

  function BigEndian(n: nat, width: nat): (r: seq<byte>)
    ensures |r| == width
  {
    if width == 0 then [] else BigEndian(n / 256, width - 1) + [n % 256]
  }

  function FromBigEndian(b: seq<byte>): nat {
    if b == [] then 0 else FromBigEndian(b[..|b| - 1]) * 256 + b[|b| - 1]
  }

  function Pow256(width: nat): nat {
    if width == 0 then 1 else 256 * Pow256(width - 1)
  }

  lemma {:induction false} BigEndianRoundTrip(n: nat, width: nat)
    requires n < Pow256(width)
    ensures FromBigEndian(BigEndian(n, width)) == n
  {
    if width > 0 {
      BigEndianRoundTrip(n / 256, width - 1);
      assert BigEndian(n, width)[..width - 1] == BigEndian(n / 256, width - 1);
    }
  }

  /** The conversion uint64(i) of an int64. */
  function TwosComplement(i: int64): uint64 {
    if i < 0 then i + TWO64 else i
  }

  function FromTwosComplement(n: uint64): int64 {
    if n < TWO63 then n else n - TWO64
  }

  function Fixed64(n: uint64): seq<byte> {
    BigEndian(n, 8)
  }

  lemma Fixed64RoundTrip(n: uint64)
    ensures FromBigEndian(Fixed64(n)) == n
  {
    assert Pow256(8) == TWO64 by {
      assert Pow256(4) == 0x1_0000_0000;
      assert Pow256(6) == 0x1_0000_0000_0000;
    }
    BigEndianRoundTrip(n, 8);
  }

  /** IEEE 754: exponent all ones and a non-zero fraction. */
  predicate IsNaN(bits: uint64) {
    bits % TWO63 > 0x7FF0_0000_0000_0000
  }

  /** Orders non-NaN floats by value: sign and magnitude; both zeros rank 0. */
  function Rank(bits: uint64): int {
    if bits < TWO63 then bits else TWO63 - bits
  }

  /** No NaN anywhere in a key: a key with one is unequal to itself. */
  predicate NaNFree(k: Value) {
    match k
    case Float(bits) => !IsNaN(bits)
    case Array(elems) => forall i :: 0 <= i < |elems| ==> NaNFree(elems[i])
    case _ => true
  }

  // ---------- key order ----------

  /** `Less` of byString, byInt, byFloat and byBool. */
  predicate Less(a: Value, b: Value) {
    match (a, b)
    case (Str(s), Str(t)) => Bytes.Less(s, t)
    case (Int(i), Int(j)) => i < j
    case (Float(x), Float(y)) => !IsNaN(x) && !IsNaN(y) && Rank(x) < Rank(y)
    case (Bool(p), Bool(q)) => !p && q
    case _ => false
  }

  predicate SameKind(a: Value, b: Value) {
    (a.Str? && b.Str?) || (a.Int? && b.Int?) || (a.Uint? && b.Uint?) || (a.Float? && b.Float?)
    || (a.Bool? && b.Bool?) || (a.Array? && b.Array?) || (a.Map? && b.Map?) || (a.Other? && b.Other?)
  }

  /** The kinds `sortKeys` sorts without panicking. */
  predicate Sortable(k: Value) {
    k.Str? || k.Int? || k.Float? || k.Bool?
  }

  function Keys(pairs: seq<Pair>): seq<Value> {
    seq(|pairs|, i requires 0 <= i < |pairs| => pairs[i].key)
  }

  /** `sortKeys`: kinds without an order keep the listed order, because its error is ignored. */
  function SortKeys(keys: seq<Value>): (r: seq<Value>)
    ensures multiset(r) == multiset(keys)
  {
    if keys != [] && Sortable(keys[0]) then
      Sorting.SortKeepsElements(Less, keys);
      Sorting.Sort(Less, keys)
    else keys
  }

  /** `MapIndex`: a key with a NaN in it is never found. */
  function Lookup(pairs: seq<Pair>, k: Value): (r: Option<Value>)
    ensures r.Some? ==> exists i :: 0 <= i < |pairs| && pairs[i] == Pair(k, r.value)
  {
    if pairs == [] || !NaNFree(k) then None
    else if pairs[0].key == k then Some(pairs[0].value)
    else
      var r := Lookup(pairs[1..], k);
      assert r.Some? ==> exists i :: 0 <= i < |pairs[1..]| && pairs[1..][i] == pairs[i + 1] == Pair(k, r.value);
      r
  }

  // ---------- the encoding ----------

  function Append(a: Option<seq<byte>>, b: Option<seq<byte>>): Option<seq<byte>> {
    if a.Some? && b.Some? then Some(a.value + b.value) else None
  }

  function Concat(chunks: seq<Option<seq<byte>>>): Option<seq<byte>> {
    if chunks == [] then Some([]) else Append(Concat(chunks[..|chunks| - 1]), chunks[|chunks| - 1])
  }

  /** What `getByteArray` returns. */
  function Encode(v: Value): Option<seq<byte>>
    decreases v, 2
  {
    match v
    case Str(s) => Some(s)
    case Int(i) => Some(Fixed64(TwosComplement(i)))
    case Uint(u) => Some(Fixed64(u))
    case Float(bits) => Some(Fixed64(bits))
    case Bool(b) => Some([if b then 1 else 0])
    case Array(elems) => Concat(seq(|elems|, i requires 0 <= i < |elems| => Encode(elems[i])))
    case Map(pairs) => if UintPanic(pairs) then None else Concat(MapChunks(v))
    case Other => None
  }

  /** `byInt.Less` calls `Int()` on the keys, which panics on unsigned ones; one key is never compared. */
  predicate UintPanic(pairs: seq<Pair>) {
    |pairs| >= 2 && pairs[0].key.Uint?
  }

  function MapChunks(v: Value): (r: seq<Option<seq<byte>>>)
    requires v.Map?
    ensures |r| == |v.pairs|
    decreases v, 1
  {
    var sorted := SortKeys(Keys(v.pairs));
    Sorting.SameMembers(sorted, Keys(v.pairs));
    seq(|sorted|, i requires 0 <= i < |sorted| => MapChunk(v, sorted[i]))
  }

  function MapChunk(v: Value, k: Value): Option<seq<byte>>
    requires v.Map? && k in Keys(v.pairs)
    decreases v, 0
  {
    assert exists j :: 0 <= j < |v.pairs| && v.pairs[j].key == Keys(v.pairs)[j] == k;
    var found := Lookup(v.pairs, k);
    Append(Encode(k), if found.Some? then Encode(found.value) else None)
  }

  // ---------- listing order does not matter ----------

  predicate SameKey(a: Value, b: Value) {
    if a.Float? && b.Float? then !IsNaN(a.bits) && !IsNaN(b.bits) && Rank(a.bits) == Rank(b.bits) else a == b
  }

  predicate Scalar(k: Value) {
    k.Str? || k.Int? || k.Uint? || k.Float? || k.Bool?
  }

  /** The keys of one Go map: one scalar kind, no key twice. */
  ghost predicate GoKeys(keys: seq<Value>) {
    && (forall i :: 0 <= i < |keys| ==> SameKind(keys[0], keys[i]) && Scalar(keys[i]))
    && (forall i, j :: 0 <= i < j < |keys| ==> !SameKey(keys[i], keys[j]))
  }

  /** Every map at every level of `v` has scalar keys. */
  ghost predicate ScalarKeyed(v: Value) {
    match v
    case Array(elems) => forall i :: 0 <= i < |elems| ==> ScalarKeyed(elems[i])
    case Map(pairs) => GoKeys(Keys(pairs)) && forall i :: 0 <= i < |pairs| ==> ScalarKeyed(pairs[i].value)
    case _ => true
  }

  /** Equal as Go values, except that floats are compared by their bits, which tells the two zeros apart: maps may be
      listed in different orders, at every level. */
  ghost predicate Equal(v: Value, w: Value)
    decreases v
  {
    match (v, w)
    case (Array(a), Array(b)) => |a| == |b| && forall i :: 0 <= i < |a| ==> Equal(a[i], b[i])
    case (Map(a), Map(b)) => |a| == |b| && forall i :: 0 <= i < |a| ==> Matched(a[i], b)
    case _ => v == w
  }

  ghost predicate Matched(p: Pair, b: seq<Pair>)
    decreases p
  {
    exists j :: 0 <= j < |b| && p.key == b[j].key && Equal(p.value, b[j].value)
  }

  lemma Match(v: Value, w: Value, i: nat) returns (j: nat)
    requires v.Map? && w.Map? && Equal(v, w) && i < |v.pairs|
    ensures j < |w.pairs| && v.pairs[i].key == w.pairs[j].key && Equal(v.pairs[i].value, w.pairs[j].value)
  {
    var p := v.pairs[i];
    assert Matched(p, w.pairs);
    j :| 0 <= j < |w.pairs| && p.key == w.pairs[j].key && Equal(p.value, w.pairs[j].value);
  }

  lemma KeyOrder(keys: seq<Value>)
    requires GoKeys(keys) && keys != [] && Sortable(keys[0])
    requires forall k :: k in keys ==> NaNFree(k)
    ensures Sorting.Orders(Less, keys)
  {
    forall x, y | x in keys && y in keys && !Less(x, y) && !Less(y, x) ensures x == y {
      if x.Str? { LessConnected(x.s, y.s); }
    }
    forall x, y | x in keys && y in keys && Less(x, y) ensures !Less(y, x) {
      if x.Str? { LessAsymmetric(x.s, y.s); }
    }
    forall x, y, z | x in keys && y in keys && z in keys && !Less(y, x) && !Less(z, y) ensures !Less(z, x) {
      if x.Str? { LessTransitive(x.s, y.s, z.s); }
    }
  }

  lemma EqualMapsKeyFound(v: Value, w: Value, k: Value)
    requires v.Map? && w.Map? && Equal(v, w) && k in Keys(v.pairs)
    ensures k in Keys(w.pairs)
  {
    var i :| 0 <= i < |v.pairs| && Keys(v.pairs)[i] == k;
    var j := Match(v, w, i);
    assert Keys(w.pairs)[j] == k;
  }

  lemma GoKeysDistinct(keys: seq<Value>)
    requires GoKeys(keys) && forall k :: k in keys ==> NaNFree(k)
    ensures Sorting.Distinct(keys)
  {
    forall i, j | 0 <= i < j < |keys| ensures keys[i] != keys[j] {
      assert !SameKey(keys[i], keys[j]) && keys[i] in keys;
    }
  }

  lemma EqualMapsSameKeys(v: Value, w: Value)
    requires v.Map? && w.Map? && Equal(v, w) && GoKeys(Keys(v.pairs))
    requires forall k :: k in Keys(v.pairs) ==> NaNFree(k)
    ensures multiset(Keys(v.pairs)) == multiset(Keys(w.pairs))
  {
    var a, b := Keys(v.pairs), Keys(w.pairs);
    GoKeysDistinct(a);
    assert |a| == |b|;
    forall k | k in a ensures k in b { EqualMapsKeyFound(v, w, k); }
    Sorting.SameElements(a, b);
  }

  lemma EqualMapsSortAlike(v: Value, w: Value)
    requires v.Map? && w.Map? && Equal(v, w) && GoKeys(Keys(v.pairs)) && GoKeys(Keys(w.pairs))
    requires forall k :: k in Keys(v.pairs) ==> NaNFree(k)
    ensures UintPanic(v.pairs) == UintPanic(w.pairs)
    ensures !UintPanic(v.pairs) ==> SortKeys(Keys(v.pairs)) == SortKeys(Keys(w.pairs))
  {
    var a, b := Keys(v.pairs), Keys(w.pairs);
    EqualMapsSameKeys(v, w);
    Sorting.SameMembers(a, b);
    if a != [] {
      assert a[0] in b;
      if Sortable(a[0]) {
        KeyOrder(a);
        Sorting.SortCanonical(Less, a, b);
      }
    }
  }

  lemma {:induction false} LookupFinds(pairs: seq<Pair>, j: nat)
    requires j < |pairs| && GoKeys(Keys(pairs)) && NaNFree(pairs[j].key)
    ensures Lookup(pairs, pairs[j].key) == Some(pairs[j].value)
  {
    if j == 0 {
    } else {
      var rest := pairs[1..];
      assert Keys(rest) == Keys(pairs)[1..];
      assert Keys(pairs)[0] == pairs[0].key && Keys(pairs)[j] == pairs[j].key;
      forall i | 0 <= i < |rest| ensures SameKind(Keys(rest)[0], Keys(rest)[i]) {
        assert Keys(rest)[0] == Keys(pairs)[1] && Keys(rest)[i] == Keys(pairs)[i + 1];
      }
      LookupFinds(rest, j - 1);
    }
  }

  lemma {:induction false} ConcatFails(chunks: seq<Option<seq<byte>>>, i: nat)
    requires i < |chunks| && chunks[i].None?
    ensures Concat(chunks).None?
  {
    if i < |chunks| - 1 { ConcatFails(chunks[..|chunks| - 1], i); }
  }

  /** A key with a NaN in it cannot be looked up, so its map has no encoding. */
  lemma NaNKeyFails(v: Value, k: Value)
    requires v.Map? && k in Keys(v.pairs) && !NaNFree(k)
    ensures Encode(v) == None
  {
    var sorted := SortKeys(Keys(v.pairs));
    Sorting.SameMembers(sorted, Keys(v.pairs));
    Sorting.SameMembers(Keys(v.pairs), sorted);
    var i :| 0 <= i < |sorted| && sorted[i] == k;
    assert MapChunks(v)[i] == MapChunk(v, k) == None;
    ConcatFails(MapChunks(v), i);
  }

  lemma NaNKeysAlike(v: Value, w: Value, k: Value)
    requires v.Map? && w.Map? && Equal(v, w) && k in Keys(v.pairs) && !NaNFree(k)
    ensures Encode(v) == Encode(w)
  {
    var i :| 0 <= i < |v.pairs| && Keys(v.pairs)[i] == k;
    var j := Match(v, w, i);
    assert Keys(w.pairs)[j] == k;
    NaNKeyFails(v, k);
    NaNKeyFails(w, k);
  }

  lemma EqualMapsEqualValue(v: Value, w: Value, k: Value) returns (x: Value, y: Value)
    requires v.Map? && w.Map? && Equal(v, w) && GoKeys(Keys(v.pairs)) && GoKeys(Keys(w.pairs))
    requires k in Keys(v.pairs) && NaNFree(k)
    ensures k in Keys(w.pairs) && Lookup(v.pairs, k) == Some(x) && Lookup(w.pairs, k) == Some(y) && Equal(x, y)
    ensures Pair(k, x) in v.pairs && Pair(k, y) in w.pairs
  {
    var i :| 0 <= i < |v.pairs| && Keys(v.pairs)[i] == k;
    var j := Match(v, w, i);
    assert Keys(w.pairs)[j] == k;
    LookupFinds(v.pairs, i);
    LookupFinds(w.pairs, j);
    x, y := v.pairs[i].value, w.pairs[j].value;
    assert v.pairs[i] == Pair(k, x) && w.pairs[j] == Pair(k, y);
  }

  lemma {:induction false} MapsOrderIndependent(v: Value, w: Value)
    requires v.Map? && w.Map? && ScalarKeyed(v) && ScalarKeyed(w) && Equal(v, w)
    requires forall k :: k in Keys(v.pairs) ==> NaNFree(k)
    ensures Encode(v) == Encode(w)
    decreases v, 0
  {
    EqualMapsSortAlike(v, w);
    if !UintPanic(v.pairs) {
      var sorted := SortKeys(Keys(v.pairs));
      Sorting.SameMembers(sorted, Keys(v.pairs));
      Sorting.SameMembers(sorted, Keys(w.pairs));
      forall i | 0 <= i < |sorted| ensures MapChunks(v)[i] == MapChunks(w)[i] {
        var k := sorted[i];
        assert k in Keys(v.pairs);
        var x, y := EqualMapsEqualValue(v, w, k);
        OrderIndependent(x, y);
        assert MapChunks(v)[i] == MapChunk(v, k) && MapChunks(w)[i] == MapChunk(w, k);
      }
      assert MapChunks(v) == MapChunks(w);
    }
  }

  lemma {:induction false} ArraysOrderIndependent(v: Value, w: Value)
    requires v.Array? && w.Array? && ScalarKeyed(v) && ScalarKeyed(w) && Equal(v, w)
    ensures Encode(v) == Encode(w)
    decreases v, 0
  {
    var a, b := v.elems, w.elems;
    forall i | 0 <= i < |a| ensures Encode(a[i]) == Encode(b[i]) {
      OrderIndependent(a[i], b[i]);
    }
    assert seq(|a|, i requires 0 <= i < |a| => Encode(a[i])) == seq(|b|, i requires 0 <= i < |b| => Encode(b[i]));
  }

  /** Go values that are equal encode alike, whatever order their maps are listed in. */
  lemma {:induction false} OrderIndependent(v: Value, w: Value)
    requires ScalarKeyed(v) && ScalarKeyed(w) && Equal(v, w)
    ensures Encode(v) == Encode(w)
    decreases v, 1
  {
    if v.Array? {
      ArraysOrderIndependent(v, w);
    } else if v.Map? {
      if k :| k in Keys(v.pairs) && !NaNFree(k) {
        NaNKeysAlike(v, w, k);
      } else {
        MapsOrderIndependent(v, w);
      }
    }
  }

  /** One or two chunks in a row. */
  lemma ConcatShort(a: seq<byte>, b: seq<byte>)
    ensures Concat([Some(a)]) == Some(a) && Concat([Some(a), Some(b)]) == Some(a + b)
  {
    var one: seq<Option<seq<byte>>> := [Some(a)];
    var two: seq<Option<seq<byte>>> := [Some(a), Some(b)];
    assert one[..0] == [] && two[..1] == one;
    assert [] + a == a;
  }

  // ---------- fixed-width shapes are encoded injectively ----------

  datatype Shape =
    | IntShape
    | UintShape
    | FloatShape
    | BoolShape
    | ArrayShape(len: nat, elem: Shape)
    | MapShape(size: nat, key: Shape, value: Shape)

  ghost predicate HasShape(v: Value, sh: Shape) {
    match sh
    case IntShape => v.Int?
    case UintShape => v.Uint?
    case FloatShape => v.Float?
    case BoolShape => v.Bool?
    case ArrayShape(len, e) => v.Array? && |v.elems| == len && forall i :: 0 <= i < len ==> HasShape(v.elems[i], e)
    case MapShape(size, k, e) =>
      && v.Map? && |v.pairs| == size && GoKeys(Keys(v.pairs)) && (k.IntShape? || k.FloatShape? || k.BoolShape?)
      && forall i :: 0 <= i < size ==> KeyHasShape(v.pairs[i].key, k) && HasShape(v.pairs[i].value, e)
  }

  ghost predicate KeyHasShape(k: Value, sh: Shape) {
    match sh
    case IntShape => k.Int?
    case FloatShape => k.Float? && !IsNaN(k.bits)
    case BoolShape => k.Bool?
    case _ => false
  }

  function Width(sh: Shape): nat {
    match sh
    case BoolShape => 1
    case ArrayShape(len, e) => len * Width(e)
    case MapShape(size, k, e) => size * (Width(k) + Width(e))
    case _ => 8
  }

  ghost predicate AllWide(chunks: seq<Option<seq<byte>>>, w: nat) {
    forall i :: 0 <= i < |chunks| ==> chunks[i].Some? && |chunks[i].value| == w
  }

  lemma {:induction false} ConcatWidth(chunks: seq<Option<seq<byte>>>, w: nat)
    requires AllWide(chunks, w)
    ensures Concat(chunks).Some? && |Concat(chunks).value| == |chunks| * w
  {
    if chunks != [] {
      ConcatWidth(chunks[..|chunks| - 1], w);
      assert |chunks| * w == (|chunks| - 1) * w + w;
    }
  }

  lemma ConcatSplit(c: seq<Option<seq<byte>>>, d: seq<Option<seq<byte>>>, w: nat, n: nat)
    requires AllWide(c, w) && AllWide(d, w) && |c| == |d| == n + 1 && Concat(c) == Concat(d)
    ensures Concat(c[..n]) == Concat(d[..n]) && c[n] == d[n]
  {
    ConcatWidth(c[..n], w);
    ConcatWidth(d[..n], w);
    SplitEqual(Concat(c[..n]).value, c[n].value, Concat(d[..n]).value, d[n].value);
  }

  /** Prefix splitting: equal concatenations of equally wide chunks have equal chunks. */
  lemma {:induction false} ConcatInjective(c: seq<Option<seq<byte>>>, d: seq<Option<seq<byte>>>, w: nat)
    requires AllWide(c, w) && AllWide(d, w) && |c| == |d| && Concat(c) == Concat(d)
    ensures c == d
  {
    if c != [] {
      var n := |c| - 1;
      ConcatSplit(c, d, w, n);
      ConcatInjective(c[..n], d[..n], w);
      assert c == c[..n] + [c[n]] && d == d[..n] + [d[n]];
    }
  }

  lemma SplitEqual(a: seq<byte>, b: seq<byte>, c: seq<byte>, d: seq<byte>)
    requires a + b == c + d && |a| == |c|
    ensures a == c && b == d
  {
    assert a == (a + b)[..|a|] && c == (c + d)[..|c|];
    assert b == (a + b)[|a|..] && d == (c + d)[|c|..];
  }

  /** The sorted key at position `i` of a shaped map, with its value and its chunk. */
  lemma ShapedEntry(v: Value, sh: Shape, i: nat) returns (k: Value, x: Value)
    requires sh.MapShape? && HasShape(v, sh) && i < sh.size
    ensures Pair(k, x) in v.pairs && KeyHasShape(k, sh.key) && HasShape(x, sh.value)
    ensures |SortKeys(Keys(v.pairs))| == sh.size && SortKeys(Keys(v.pairs))[i] == k
    ensures MapChunks(v)[i] == Append(Encode(k), Encode(x))
  {
    var sorted := SortKeys(Keys(v.pairs));
    Sorting.SameMembers(sorted, Keys(v.pairs));
    k := sorted[i];
    assert k in Keys(v.pairs);
    var j :| 0 <= j < |v.pairs| && Keys(v.pairs)[j] == k;
    LookupFinds(v.pairs, j);
    x := v.pairs[j].value;
    assert v.pairs[j] == Pair(k, x);
  }

  lemma KeyWidth(k: Value, sh: Shape)
    requires KeyHasShape(k, sh)
    ensures Encode(k).Some? && |Encode(k).value| == Width(sh)
  {
  }

  lemma {:induction false} MapWidth(v: Value, sh: Shape)
    requires sh.MapShape? && HasShape(v, sh)
    ensures AllWide(MapChunks(v), Width(sh.key) + Width(sh.value)) && !UintPanic(v.pairs)
    decreases sh, 0
  {
    forall i | 0 <= i < sh.size
      ensures var c := MapChunks(v)[i]; c.Some? && |c.value| == Width(sh.key) + Width(sh.value)
    {
      var k, x := ShapedEntry(v, sh, i);
      KeyWidth(k, sh.key);
      EncodedWidth(x, sh.value);
    }
  }

  ghost function ArrayChunks(v: Value): seq<Option<seq<byte>>>
    requires v.Array?
  {
    seq(|v.elems|, i requires 0 <= i < |v.elems| => Encode(v.elems[i]))
  }

  lemma {:induction false} EncodedWidth(v: Value, sh: Shape)
    requires HasShape(v, sh)
    ensures Encode(v).Some? && |Encode(v).value| == Width(sh)
    decreases sh, 1
  {
    if sh.ArrayShape? {
      forall i | 0 <= i < sh.len ensures var c := ArrayChunks(v)[i]; c.Some? && |c.value| == Width(sh.elem) {
        EncodedWidth(v.elems[i], sh.elem);
      }
      ConcatWidth(ArrayChunks(v), Width(sh.elem));
      assert Encode(v) == Concat(ArrayChunks(v));
    } else if sh.MapShape? {
      MapWidth(v, sh);
      ConcatWidth(MapChunks(v), Width(sh.key) + Width(sh.value));
    }
  }

  lemma ScalarInjective(v: Value, w: Value, sh: Shape)
    requires HasShape(v, sh) && HasShape(w, sh) && !sh.ArrayShape? && !sh.MapShape? && Encode(v) == Encode(w)
    ensures v == w
  {
    match v {
      case Int(i) =>
        Fixed64RoundTrip(TwosComplement(i));
        Fixed64RoundTrip(TwosComplement(w.i));
        assert FromTwosComplement(TwosComplement(i)) == i && FromTwosComplement(TwosComplement(w.i)) == w.i;
      case Uint(u) =>
        Fixed64RoundTrip(u);
        Fixed64RoundTrip(w.u);
      case Float(bits) =>
        Fixed64RoundTrip(bits);
        Fixed64RoundTrip(w.bits);
      case Bool(b) =>
        assert Encode(v).value[0] == Encode(w).value[0];
    }
  }

  /** Equal chunks at one position: the same key and equal values there. */
  lemma EntriesInjective(v: Value, w: Value, sh: Shape, i: nat) returns (k: Value, x: Value, y: Value)
    requires sh.MapShape? && HasShape(v, sh) && HasShape(w, sh) && i < sh.size && MapChunks(v)[i] == MapChunks(w)[i]
    ensures SortKeys(Keys(v.pairs)) != [] && |SortKeys(Keys(v.pairs))| == sh.size && SortKeys(Keys(v.pairs))[i] == k
    ensures Pair(k, x) in v.pairs && Pair(k, y) in w.pairs && HasShape(x, sh.value) && HasShape(y, sh.value)
    ensures Encode(x) == Encode(y)
  {
    var l;
    k, x := ShapedEntry(v, sh, i);
    l, y := ShapedEntry(w, sh, i);
    KeyWidth(k, sh.key);
    KeyWidth(l, sh.key);
    EncodedWidth(x, sh.value);
    EncodedWidth(y, sh.value);
    SplitEqual(Encode(k).value, Encode(x).value, Encode(l).value, Encode(y).value);
    ScalarInjective(k, l, sh.key);
  }

  lemma {:induction false} MatchingEntry(v: Value, w: Value, sh: Shape, n: nat)
    requires sh.MapShape? && HasShape(v, sh) && HasShape(w, sh) && n < |v.pairs| && MapChunks(v) == MapChunks(w)
    ensures Matched(v.pairs[n], w.pairs)
    decreases sh, 0
  {
    var keys, sorted := Keys(v.pairs), SortKeys(Keys(v.pairs));
    Sorting.SameMembers(keys, sorted);
    assert keys[n] in sorted;
    var i :| 0 <= i < |sorted| && sorted[i] == keys[n];
    var k, x, y := EntriesInjective(v, w, sh, i);
    Injective(x, y, sh.value);
    var m :| 0 <= m < |v.pairs| && v.pairs[m] == Pair(k, x);
    assert m == n by {
      assert keys[m] == keys[n] && KeyHasShape(v.pairs[n].key, sh.key);
    }
    var j :| 0 <= j < |w.pairs| && w.pairs[j] == Pair(k, y);
  }

  lemma {:induction false} MapsInjective(v: Value, w: Value, sh: Shape)
    requires sh.MapShape? && HasShape(v, sh) && HasShape(w, sh) && Encode(v) == Encode(w)
    ensures Equal(v, w)
    decreases sh, 1
  {
    MapWidth(v, sh);
    MapWidth(w, sh);
    ConcatInjective(MapChunks(v), MapChunks(w), Width(sh.key) + Width(sh.value));
    forall n | 0 <= n < |v.pairs| ensures Matched(v.pairs[n], w.pairs) { MatchingEntry(v, w, sh, n); }
  }

  /** Within a fixed-width shape, equal encodings come from equal Go values only. */
  lemma {:induction false} Injective(v: Value, w: Value, sh: Shape)
    requires HasShape(v, sh) && HasShape(w, sh) && Encode(v) == Encode(w)
    ensures Equal(v, w)
    decreases sh, 2
  {
    if sh.ArrayShape? {
      forall i | 0 <= i < sh.len ensures var c, d := ArrayChunks(v)[i], ArrayChunks(w)[i];
        c.Some? && d.Some? && |c.value| == |d.value| == Width(sh.elem)
      {
        EncodedWidth(v.elems[i], sh.elem);
        EncodedWidth(w.elems[i], sh.elem);
      }
      assert Encode(v) == Concat(ArrayChunks(v)) && Encode(w) == Concat(ArrayChunks(w));
      ConcatInjective(ArrayChunks(v), ArrayChunks(w), Width(sh.elem));
      forall i | 0 <= i < sh.len ensures Equal(v.elems[i], w.elems[i]) {
        assert ArrayChunks(v)[i] == ArrayChunks(w)[i];
        Injective(v.elems[i], w.elems[i], sh.elem);
      }
    } else if sh.MapShape? {
      MapsInjective(v, w, sh);
    } else {
      ScalarInjective(v, w, sh);
    }
  }

  lemma {:induction false} ShapedIsScalarKeyed(v: Value, sh: Shape)
    requires HasShape(v, sh)
    ensures ScalarKeyed(v)
    decreases sh
  {
    if sh.ArrayShape? {
      forall i | 0 <= i < sh.len ensures ScalarKeyed(v.elems[i]) { ShapedIsScalarKeyed(v.elems[i], sh.elem); }
    } else if sh.MapShape? {
      forall i | 0 <= i < sh.size ensures ScalarKeyed(v.pairs[i].value) {
        ShapedIsScalarKeyed(v.pairs[i].value, sh.value);
      }
    }
  }

  /** For fixed-width shapes the encoding decides equality. */
  lemma EncodingDecidesEquality(v: Value, w: Value, sh: Shape)
    requires HasShape(v, sh) && HasShape(w, sh)
    ensures Encode(v).Some? && |Encode(v).value| == Width(sh)
    ensures Encode(v) == Encode(w) <==> Equal(v, w)
  {
    EncodedWidth(v, sh);
    ShapedIsScalarKeyed(v, sh);
    ShapedIsScalarKeyed(w, sh);
    if Encode(v) == Encode(w) { Injective(v, w, sh); }
    if Equal(v, w) { OrderIndependent(v, w); }
  }

  /** Position `i` of a parameter list has the fixed-width shape `shapes[i]`. */
  ghost predicate HasShapes(values: seq<Value>, shapes: seq<Shape>) {
    |values| == |shapes| && forall i :: 0 <= i < |values| ==> HasShape(values[i], shapes[i])
  }

  function TotalWidth(shapes: seq<Shape>): nat {
    if shapes == [] then 0 else TotalWidth(shapes[..|shapes| - 1]) + Width(shapes[|shapes| - 1])
  }

  ghost function Chunks(values: seq<Value>): seq<Option<seq<byte>>> {
    ArrayChunks(Array(values))
  }

  lemma {:induction false} ShapedListWidth(values: seq<Value>, shapes: seq<Shape>)
    requires HasShapes(values, shapes)
    ensures Concat(Chunks(values)).Some? && |Concat(Chunks(values)).value| == TotalWidth(shapes)
  {
    if values != [] {
      var n := |values| - 1;
      ShapedListWidth(values[..n], shapes[..n]);
      EncodedWidth(values[n], shapes[n]);
      assert Chunks(values)[..n] == Chunks(values[..n]);
    }
  }

  /** Equal encodings of shaped lists split into the last position and those before it. */
  lemma ShapedListSplits(v: seq<Value>, w: seq<Value>, shapes: seq<Shape>, n: nat)
    requires HasShapes(v, shapes) && HasShapes(w, shapes) && Concat(Chunks(v)) == Concat(Chunks(w)) && |v| == n + 1
    ensures Concat(Chunks(v[..n])) == Concat(Chunks(w[..n])) && Encode(v[n]) == Encode(w[n])
  {
    ShapedListWidth(v[..n], shapes[..n]);
    ShapedListWidth(w[..n], shapes[..n]);
    EncodedWidth(v[n], shapes[n]);
    EncodedWidth(w[n], shapes[n]);
    assert Chunks(v)[..n] == Chunks(v[..n]) && Chunks(w)[..n] == Chunks(w[..n]);
    SplitEqual(Concat(Chunks(v[..n])).value, Encode(v[n]).value, Concat(Chunks(w[..n])).value, Encode(w[n]).value);
  }

  lemma ShapesBefore(v: seq<Value>, shapes: seq<Shape>, n: nat)
    requires HasShapes(v, shapes) && n <= |v|
    ensures HasShapes(v[..n], shapes[..n])
  {
  }

  lemma {:induction false} ShapedListInjective(v: seq<Value>, w: seq<Value>, shapes: seq<Shape>, i: nat)
    requires HasShapes(v, shapes) && HasShapes(w, shapes) && Concat(Chunks(v)) == Concat(Chunks(w)) && i < |v|
    ensures Equal(v[i], w[i])
    decreases |v|
  {
    var n := |v| - 1;
    ShapedListSplits(v, w, shapes, n);
    if i == n {
      Injective(v[n], w[n], shapes[n]);
    } else {
      ShapesBefore(v, shapes, n);
      ShapesBefore(w, shapes, n);
      ShapedListInjective(v[..n], w[..n], shapes[..n], i);
    }
  }

  /** Parameter lists whose positions have fixed-width shapes, each its own: the encoding decides equality. */
  lemma ParametersDecideEquality(v: seq<Value>, w: seq<Value>, shapes: seq<Shape>)
    requires HasShapes(v, shapes) && HasShapes(w, shapes)
    ensures Encode(Array(v)).Some? && |Encode(Array(v)).value| == TotalWidth(shapes)
    ensures Encode(Array(v)) == Encode(Array(w)) <==> forall i :: 0 <= i < |v| ==> Equal(v[i], w[i])
  {
    assert Encode(Array(v)) == Concat(Chunks(v)) && Encode(Array(w)) == Concat(Chunks(w));
    ShapedListWidth(v, shapes);
    if Encode(Array(v)) == Encode(Array(w)) {
      forall i | 0 <= i < |v| ensures Equal(v[i], w[i]) { ShapedListInjective(v, w, shapes, i); }
    }
    if forall i :: 0 <= i < |v| ==> Equal(v[i], w[i]) {
      forall i | 0 <= i < |v| ensures Chunks(v)[i] == Chunks(w)[i] { EncodingDecidesEquality(v[i], w[i], shapes[i]); }
      assert Chunks(v) == Chunks(w);
    }
  }

  /** The two zeros are equal in Go and encoded apart. */
  lemma ZerosEncodeApart()
    ensures Rank(0) == Rank(TWO63) && Encode(Float(0)) != Encode(Float(TWO63))
  {
    Fixed64RoundTrip(0);
    Fixed64RoundTrip(TWO63);
  }

  /** Strings carry no length and no separator: bytes may move between neighbours, and two lists that encode alike this
      way are equal only if nothing moves. */
  lemma StringsCollide(a: seq<byte>, b: seq<byte>, c: seq<byte>)
    ensures Encode(Array([Str(a + b), Str(c)])) == Encode(Array([Str(a), Str(b + c)])) == Some(a + b + c)
    ensures Equal(Array([Str(a + b), Str(c)]), Array([Str(a), Str(b + c)])) <==> b == []
  {
    var v, w := Array([Str(a + b), Str(c)]), Array([Str(a), Str(b + c)]);
    assert ArrayChunks(v) == [Some(a + b), Some(c)] && ArrayChunks(w) == [Some(a), Some(b + c)];
    ConcatShort(a + b, c);
    ConcatShort(a, b + c);
    assert a + b + c == a + (b + c);
    if b == [] {
      assert a + b == a && b + c == c;
    } else {
      assert |v.elems[0].s| != |w.elems[0].s|;
    }
  }

  // ---------- array keys are encoded in listing order ----------

  /** Shapes of values Go can compare with `==`, and so allow as map keys. */
  predicate Comparable(sh: Shape) {
    match sh
    case ArrayShape(_, e) => Comparable(e)
    case MapShape(_, _, _) => false
    case _ => true
  }

  /** A Go map whose keys are arrays of one fixed-width shape. */
  ghost predicate ArrayKeyed(v: Value, key: Shape, value: Shape) {
    && v.Map? && key.ArrayShape? && Comparable(key) && Sorting.Distinct(Keys(v.pairs))
    && forall i :: 0 <= i < |v.pairs| ==>
      HasShape(v.pairs[i].key, key) && NaNFree(v.pairs[i].key) && HasShape(v.pairs[i].value, value)
  }

  lemma {:induction false} ComparableEqual(v: Value, w: Value, sh: Shape)
    requires Comparable(sh) && HasShape(v, sh) && HasShape(w, sh) && Equal(v, w)
    ensures v == w
  {
    if sh.ArrayShape? {
      forall i | 0 <= i < sh.len ensures v.elems[i] == w.elems[i] { ComparableEqual(v.elems[i], w.elems[i], sh.elem); }
      assert v.elems == w.elems;
    }
  }

  lemma {:induction false} LookupDistinct(pairs: seq<Pair>, j: nat)
    requires j < |pairs| && Sorting.Distinct(Keys(pairs)) && NaNFree(pairs[j].key)
    ensures Lookup(pairs, pairs[j].key) == Some(pairs[j].value)
  {
    if j > 0 {
      assert Keys(pairs[1..]) == Keys(pairs)[1..];
      assert Keys(pairs)[0] == pairs[0].key && Keys(pairs)[j] == pairs[j].key;
      LookupDistinct(pairs[1..], j - 1);
    }
  }

  /** Nothing is sorted: chunk `i` is the listed entry `i`. */
  lemma ListedEntry(v: Value, key: Shape, value: Shape, i: nat)
    requires ArrayKeyed(v, key, value) && i < |v.pairs|
    ensures MapChunks(v)[i] == Append(Encode(v.pairs[i].key), Encode(v.pairs[i].value))
    ensures var c := MapChunks(v)[i]; c.Some? && |c.value| == Width(key) + Width(value)
  {
    assert SortKeys(Keys(v.pairs)) == Keys(v.pairs) by { assert Keys(v.pairs)[0] == v.pairs[0].key; }
    assert Keys(v.pairs)[i] == v.pairs[i].key;
    LookupDistinct(v.pairs, i);
    EncodedWidth(v.pairs[i].key, key);
    EncodedWidth(v.pairs[i].value, value);
  }

  lemma ListedChunks(v: Value, key: Shape, value: Shape)
    requires ArrayKeyed(v, key, value)
    ensures Encode(v) == Concat(MapChunks(v)) && AllWide(MapChunks(v), Width(key) + Width(value)) && Encode(v).Some?
  {
    forall i | 0 <= i < |v.pairs| ensures var c := MapChunks(v)[i]; c.Some? && |c.value| == Width(key) + Width(value) {
      ListedEntry(v, key, value, i);
    }
    ConcatWidth(MapChunks(v), Width(key) + Width(value));
  }

  lemma SameOrderSameChunk(v: Value, w: Value, key: Shape, value: Shape, i: nat)
    requires ArrayKeyed(v, key, value) && ArrayKeyed(w, key, value)
    requires Equal(v, w) && Keys(v.pairs) == Keys(w.pairs) && i < |v.pairs|
    ensures MapChunks(v)[i] == MapChunks(w)[i]
  {
    var j := Match(v, w, i);
    assert Keys(v.pairs)[i] == Keys(w.pairs)[i] && Keys(w.pairs)[j] == v.pairs[i].key;
    assert i == j && w.pairs[i].key == v.pairs[i].key;
    ListedEntry(v, key, value, i);
    ListedEntry(w, key, value, i);
    EncodingDecidesEquality(v.pairs[i].value, w.pairs[i].value, value);
  }

  lemma SameChunkSameKey(v: Value, w: Value, key: Shape, value: Shape, i: nat)
    requires ArrayKeyed(v, key, value) && ArrayKeyed(w, key, value)
    requires i < |v.pairs| == |w.pairs| && MapChunks(v)[i] == MapChunks(w)[i]
    ensures v.pairs[i].key == w.pairs[i].key
  {
    var p, q := v.pairs[i], w.pairs[i];
    ListedEntry(v, key, value, i);
    ListedEntry(w, key, value, i);
    EncodedWidth(p.key, key);
    EncodedWidth(q.key, key);
    EncodedWidth(p.value, value);
    EncodedWidth(q.value, value);
    SplitEqual(Encode(p.key).value, Encode(p.value).value, Encode(q.key).value, Encode(q.value).value);
    Injective(p.key, q.key, key);
    ComparableEqual(p.key, q.key, key);
  }

  /** `sortKeys` rejects array keys and its error is ignored, so the order shows: two listings of one map with array
      keys encode alike if and only if they list the keys in the same order. */
  lemma ArrayKeysEncodeAlikeIff(v: Value, w: Value, key: Shape, value: Shape)
    requires ArrayKeyed(v, key, value) && ArrayKeyed(w, key, value) && Equal(v, w)
    ensures Encode(v).Some? && Encode(w).Some?
    ensures Encode(v) == Encode(w) <==> Keys(v.pairs) == Keys(w.pairs)
  {
    ListedChunks(v, key, value);
    ListedChunks(w, key, value);
    if Encode(v) == Encode(w) {
      ConcatInjective(MapChunks(v), MapChunks(w), Width(key) + Width(value));
      forall i | 0 <= i < |v.pairs| ensures Keys(v.pairs)[i] == Keys(w.pairs)[i] {
        SameChunkSameKey(v, w, key, value, i);
      }
      assert Keys(v.pairs) == Keys(w.pairs);
    }
    if Keys(v.pairs) == Keys(w.pairs) {
      forall i | 0 <= i < |v.pairs| ensures MapChunks(v)[i] == MapChunks(w)[i] {
        SameOrderSameChunk(v, w, key, value, i);
      }
      assert MapChunks(v) == MapChunks(w);
    }
  }

  lemma {:induction false} EqualReflexive(v: Value)
    ensures Equal(v, v)
    decreases v
  {
    match v {
      case Array(elems) =>
        forall i | 0 <= i < |elems| ensures Equal(elems[i], elems[i]) { EqualReflexive(elems[i]); }
      case Map(pairs) =>
        forall i | 0 <= i < |pairs| ensures Matched(pairs[i], pairs) { EqualReflexive(pairs[i].value); }
      case _ =>
    }
  }

  function SwapFirst(pairs: seq<Pair>): seq<Pair>
    requires |pairs| >= 2
  {
    [pairs[1], pairs[0]] + pairs[2..]
  }

  function Swapped(i: nat): nat {
    if i == 0 then 1 else if i == 1 then 0 else i
  }

  lemma SwapLists(pairs: seq<Pair>, i: nat)
    requires i < |pairs| && |pairs| >= 2
    ensures |SwapFirst(pairs)| == |pairs| && SwapFirst(pairs)[i] == pairs[Swapped(i)]
    ensures SwapFirst(pairs)[Swapped(i)] == pairs[i]
  {
  }

  lemma SwapEqual(v: Value)
    requires v.Map? && |v.pairs| >= 2
    ensures Equal(v, Map(SwapFirst(v.pairs)))
  {
    var b := SwapFirst(v.pairs);
    forall i | 0 <= i < |v.pairs| ensures Matched(v.pairs[i], b) {
      SwapLists(v.pairs, i);
      EqualReflexive(v.pairs[i].value);
      assert b[Swapped(i)] == v.pairs[i];
    }
  }

  lemma SwapKeyed(v: Value, key: Shape, value: Shape)
    requires ArrayKeyed(v, key, value) && |v.pairs| >= 2
    ensures ArrayKeyed(Map(SwapFirst(v.pairs)), key, value)
  {
    var b := SwapFirst(v.pairs);
    forall i, j | 0 <= i < j < |b| ensures Keys(b)[i] != Keys(b)[j] {
      SwapLists(v.pairs, i);
      SwapLists(v.pairs, j);
      assert Keys(b)[i] == Keys(v.pairs)[Swapped(i)] && Keys(b)[j] == Keys(v.pairs)[Swapped(j)];
    }
    forall i | 0 <= i < |b| ensures HasShape(b[i].key, key) && NaNFree(b[i].key) && HasShape(b[i].value, value) {
      SwapLists(v.pairs, i);
    }
  }

  /** Every map with two or more array keys has another listing that encodes differently. */
  lemma ArrayKeysKeepListingOrder(v: Value, key: Shape, value: Shape)
    requires ArrayKeyed(v, key, value) && |v.pairs| >= 2
    ensures Equal(v, Map(SwapFirst(v.pairs))) && Encode(v).Some? && Encode(Map(SwapFirst(v.pairs))) != Encode(v)
  {
    SwapEqual(v);
    SwapKeyed(v, key, value);
    ArrayKeysEncodeAlikeIff(v, Map(SwapFirst(v.pairs)), key, value);
    assert Keys(SwapFirst(v.pairs))[0] == Keys(v.pairs)[1] != Keys(v.pairs)[0];
  }

  // ---------- exactly what can be encoded ----------

  /** No map lists a key twice, at any level; keys with a NaN in them, unequal to themselves, may repeat. */
  ghost predicate WellListed(v: Value) {
    match v
    case Array(elems) => forall i :: 0 <= i < |elems| ==> WellListed(elems[i])
    case Map(pairs) =>
      && (forall i, j :: 0 <= i < j < |pairs| && NaNFree(pairs[i].key) ==> pairs[i].key != pairs[j].key)
      && (forall i :: 0 <= i < |pairs| ==> WellListed(pairs[i].key) && WellListed(pairs[i].value))
    case _ => true
  }

  /** No kind without an encoder at any level, no map key with a NaN in it, no map with two or more unsigned keys. */
  ghost predicate Encodable(v: Value) {
    match v
    case Other => false
    case Array(elems) => forall i :: 0 <= i < |elems| ==> Encodable(elems[i])
    case Map(pairs) =>
      && !(|pairs| >= 2 && pairs[0].key.Uint?)
      && forall i :: 0 <= i < |pairs| ==>
           NaNFree(pairs[i].key) && Encodable(pairs[i].key) && Encodable(pairs[i].value)
    case _ => true
  }

  lemma {:induction false} ConcatSucceedsIff(chunks: seq<Option<seq<byte>>>)
    ensures Concat(chunks).Some? <==> forall i :: 0 <= i < |chunks| ==> chunks[i].Some?
  {
    if chunks != [] {
      var init, last := chunks[..|chunks| - 1], chunks[|chunks| - 1];
      ConcatSucceedsIff(init);
      assert forall i :: 0 <= i < |init| ==> init[i] == chunks[i];
    }
  }

  lemma {:induction false} ArrayEncodesIff(v: Value)
    requires v.Array? && WellListed(v)
    ensures Encode(v).Some? <==> Encodable(v)
    decreases v, 0
  {
    forall i | 0 <= i < |v.elems| ensures ArrayChunks(v)[i].Some? <==> Encodable(v.elems[i]) { EncodesIff(v.elems[i]); }
    ConcatSucceedsIff(ArrayChunks(v));
    assert Encode(v) == Concat(ArrayChunks(v));
  }

  lemma {:induction false} EntryEncodesIff(v: Value, j: nat)
    requires v.Map? && WellListed(v) && Sorting.Distinct(Keys(v.pairs)) && j < |v.pairs| && NaNFree(v.pairs[j].key)
    ensures v.pairs[j].key in Keys(v.pairs)
    ensures MapChunk(v, v.pairs[j].key).Some? <==> Encodable(v.pairs[j].key) && Encodable(v.pairs[j].value)
    decreases v, 0
  {
    assert Keys(v.pairs)[j] == v.pairs[j].key;
    LookupDistinct(v.pairs, j);
    EncodesIff(v.pairs[j].key);
    EncodesIff(v.pairs[j].value);
  }

  /** Sorting the keys changes the order of the chunks, not whether they all succeed. */
  lemma ChunksSucceedIff(v: Value)
    requires v.Map?
    ensures Concat(MapChunks(v)).Some? <==> forall j :: 0 <= j < |v.pairs| ==> KeySucceeds(v, v.pairs[j].key)
  {
    var keys, sorted := Keys(v.pairs), SortKeys(Keys(v.pairs));
    Sorting.SameMembers(sorted, keys);
    Sorting.SameMembers(keys, sorted);
    ConcatSucceedsIff(MapChunks(v));
    forall i | 0 <= i < |sorted| ensures MapChunks(v)[i].Some? <==> KeySucceeds(v, sorted[i]) {
      assert sorted[i] in keys;
    }
    forall j | 0 <= j < |v.pairs| && Concat(MapChunks(v)).Some? ensures KeySucceeds(v, v.pairs[j].key) {
      assert keys[j] == v.pairs[j].key && keys[j] in sorted;
      var i :| 0 <= i < |sorted| && sorted[i] == keys[j];
      assert MapChunks(v)[i].Some?;
    }
    if !Concat(MapChunks(v)).Some? {
      var i :| 0 <= i < |sorted| && !MapChunks(v)[i].Some?;
      assert sorted[i] in keys;
      var j :| 0 <= j < |keys| && keys[j] == sorted[i];
      assert !KeySucceeds(v, v.pairs[j].key);
    }
  }

  ghost predicate KeySucceeds(v: Value, k: Value)
    requires v.Map?
  {
    k in Keys(v.pairs) && MapChunk(v, k).Some?
  }

  lemma {:induction false} MapEncodesIff(v: Value)
    requires v.Map? && WellListed(v) && !UintPanic(v.pairs)
    requires forall j :: 0 <= j < |v.pairs| ==> NaNFree(v.pairs[j].key)
    ensures Encode(v).Some? <==> Encodable(v)
    decreases v, 1
  {
    assert Sorting.Distinct(Keys(v.pairs));
    ChunksSucceedIff(v);
    forall j | 0 <= j < |v.pairs|
      ensures KeySucceeds(v, v.pairs[j].key) <==> Encodable(v.pairs[j].key) && Encodable(v.pairs[j].value)
    {
      EntryEncodesIff(v, j);
    }
  }

  /** Exactly what `getByteArray` encodes. */
  lemma {:induction false} EncodesIff(v: Value)
    requires WellListed(v)
    ensures Encode(v).Some? <==> Encodable(v)
    decreases v, 2
  {
    if v.Array? {
      ArrayEncodesIff(v);
    } else if v.Map? && !UintPanic(v.pairs) {
      if j :| 0 <= j < |v.pairs| && !NaNFree(v.pairs[j].key) {
        assert Keys(v.pairs)[j] == v.pairs[j].key;
        NaNKeyFails(v, v.pairs[j].key);
      } else {
        MapEncodesIff(v);
      }
    }
  }

  // ---------- the loops ----------

  lemma {:induction false} ConcatPrefixFails(chunks: seq<Option<seq<byte>>>, i: nat)
    requires i <= |chunks| && Concat(chunks[..i]).None?
    ensures Concat(chunks).None?
  {
    if i < |chunks| {
      assert chunks[..|chunks| - 1][..i] == chunks[..i];
      ConcatPrefixFails(chunks[..|chunks| - 1], i);
    } else {
      assert chunks[..i] == chunks;
    }
  }

  lemma ConcatNext(chunks: seq<Option<seq<byte>>>, i: nat)
    requires i < |chunks|
    ensures Concat(chunks[..i + 1]) == Append(Concat(chunks[..i]), chunks[i])
  {
    assert chunks[..i + 1][..i] == chunks[..i];
  }

  /** `getByteArray`. */
  method GetByteArray(v: Value) returns (r: Option<seq<byte>>)
    ensures r == Encode(v)
    decreases v, 2
  {
    match v {
      case Array(_) => r := ArrayToByteArray(v);
      case Map(_) => r := MapToByteArray(v);
      case Str(s) => r := Some(s);
      case Int(i) => r := Some(Fixed64(TwosComplement(i)));
      case Uint(u) => r := Some(Fixed64(u));
      case Float(bits) => r := Some(Fixed64(bits));
      case Bool(b) => r := Some([if b then 1 else 0]);
      case Other => r := None;
    }
  }

  /** `arrayToByteArray`: appends element by element and stops at the first failure. */
  method ArrayToByteArray(v: Value) returns (r: Option<seq<byte>>)
    requires v.Array?
    ensures r == Encode(v)
    decreases v, 0
  {
    var bytes := [];
    ghost var chunks := ArrayChunks(v);
    for i := 0 to |v.elems|
      invariant Concat(chunks[..i]) == Some(bytes)
    {
      ConcatNext(chunks, i);
      var next := GetByteArray(v.elems[i]);
      if next.None? {
        ConcatPrefixFails(chunks, i + 1);
        return None;
      }
      bytes := bytes + next.value;
    }
    assert chunks[..|chunks|] == chunks;
    r := Some(bytes);
  }

  /** `MapKeys` followed by `sortKeys`, in place. */
  method SortedKeys(pairs: seq<Pair>) returns (keys: seq<Value>)
    ensures keys == SortKeys(Keys(pairs))
  {
    var a := new Value[|pairs|](i requires 0 <= i < |pairs| => pairs[i].key);
    assert a[..] == Keys(pairs);
    if |pairs| > 0 && Sortable(pairs[0].key) {
      Sorting.SortInPlace(Less, a);
    }
    keys := a[..];
  }

  /** Key bytes then value bytes of one entry. */
  method EntryBytes(v: Value, k: Value) returns (r: Option<seq<byte>>)
    requires v.Map? && k in Keys(v.pairs)
    ensures r == MapChunk(v, k)
    decreases v, 0
  {
    assert exists j :: 0 <= j < |v.pairs| && v.pairs[j].key == Keys(v.pairs)[j] == k;
    var keyBytes := GetByteArray(k);
    var found := Lookup(v.pairs, k);
    if keyBytes.None? || found.None? {
      return None;
    }
    var valBytes := GetByteArray(found.value);
    r := Append(keyBytes, valBytes);
  }

  /** `mapToByteArray`: the entries in sorted key order. */
  method MapToByteArray(v: Value) returns (r: Option<seq<byte>>)
    requires v.Map?
    ensures r == Encode(v)
    decreases v, 1
  {
    if UintPanic(v.pairs) {
      return None;
    }
    var keys := SortedKeys(v.pairs);
    Sorting.SameMembers(keys, Keys(v.pairs));
    var bytes := [];
    ghost var chunks := MapChunks(v);
    for i := 0 to |keys|
      invariant Concat(chunks[..i]) == Some(bytes)
    {
      ConcatNext(chunks, i);
      assert keys[i] in Keys(v.pairs) && chunks[i] == MapChunk(v, keys[i]);
      var entry := EntryBytes(v, keys[i]);
      if entry.None? {
        ConcatPrefixFails(chunks, i + 1);
        return None;
      }
      bytes := bytes + entry.value;
    }
    assert chunks[..|chunks|] == chunks;
    r := Some(bytes);
  }

  /** `GenerateByteArray`: its parameter list is encoded like one array. */
  method GenerateByteArray(parameters: seq<Value>) returns (r: Option<seq<byte>>)
    ensures r == Encode(Array(parameters))
  {
    r := ArrayToByteArray(Array(parameters));
  }
}
