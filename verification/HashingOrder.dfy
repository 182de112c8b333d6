/** What the bytes of the canonical encoding are (hashing/byteconv.go, hashing/sortconv.go): big-endian scalars, and map
    entries in ascending order of their keys, key before value. */
module HashingOrder {
  import opened Options
  import opened Bytes
  import opened Hashing
  import Sorting

  // ---------- scalars ----------

  lemma DivideTwice(n: nat, a: nat, b: nat)
    requires a > 0 && b > 0
    ensures a * b > 0 && n / a / b == n / (a * b)
  {
    var q, r := n / a, n % a;
    var q2, r2 := q / b, q % b;
    assert n == a * q + r && q == b * q2 + r2;
    assert n == a * b * q2 + (a * r2 + r) by {
      assert a * q == a * (b * q2) + a * r2;
      assert a * (b * q2) == a * b * q2;
    }
    assert 0 <= a * r2 + r < a * b by {
      assert a * r2 <= a * (b - 1) by { Scaled(a, r2, b - 1); }
      assert a * (b - 1) == a * b - a;
    }
    QuotientIs(n, a * b, q2, a * r2 + r);
  }

  lemma Scaled(a: nat, x: nat, y: nat)
    requires x <= y
    ensures a * x <= a * y
  {
  }

  lemma QuotientIs(n: nat, d: nat, q: nat, r: nat)
    requires d > 0 && n == d * q + r && r < d
    ensures n / d == q
  {
    if n / d < q { Scaled(d, n / d + 1, q); }
    if n / d > q { Scaled(d, q + 1, n / d); }
  }

  lemma {:induction false} PowPositive(k: nat)
    ensures Pow256(k) > 0
  {
    if k > 0 { PowPositive(k - 1); }
  }

  /** The byte at position `k` of a big-endian number is the digit of weight 256 to the power of what follows. */
  lemma {:induction false} BigEndianAt(n: nat, width: nat, k: nat)
    requires k < width
    ensures Pow256(width - 1 - k) > 0 && BigEndian(n, width)[k] == n / Pow256(width - 1 - k) % 256
  {
    PowPositive(width - 1 - k);
    if k < width - 1 {
      BigEndianAt(n / 256, width - 1, k);
      PowPositive(width - 2 - k);
      DivideTwice(n, 256, Pow256(width - 2 - k));
    }
  }

  /** Scalars: eight bytes, the most significant first, that stand for the number, for a signed number up to a multiple
      of two to the 64th; one byte for a truth value; strings as they are. */
  lemma ScalarBytes(i: int64, u: uint64, bits: uint64, b: bool, s: seq<byte>)
    ensures var e := Encode(Int(i)); e.Some? && |e.value| == 8 && (FromBigEndian(e.value) - i) % TWO64 == 0
    ensures var e := Encode(Uint(u)); e.Some? && |e.value| == 8 && FromBigEndian(e.value) == u
    ensures var e := Encode(Float(bits)); e.Some? && |e.value| == 8 && FromBigEndian(e.value) == bits
    ensures Encode(Bool(b)) == Some([if b then 1 else 0]) && Encode(Str(s)) == Some(s)
  {
    Fixed64RoundTrip(TwosComplement(i));
    Fixed64RoundTrip(u);
    Fixed64RoundTrip(bits);
  }

  /** Byte `k` of an encoded unsigned number. */
  lemma UintByteAt(u: uint64, k: nat)
    requires k < 8
    ensures var e := Encode(Uint(u));
      e.Some? && |e.value| == 8 && Pow256(7 - k) > 0 && e.value[k] == u / Pow256(7 - k) % 256
  {
    BigEndianAt(u, 8, k);
  }

  // ---------- lists ----------

  lemma {:induction false} ConcatSplits(c: seq<Option<seq<byte>>>, d: seq<Option<seq<byte>>>)
    ensures Concat(c + d) == Append(Concat(c), Concat(d))
  {
    if d == [] {
      assert c + d == c;
      if Concat(c).Some? { assert Concat(c).value + [] == Concat(c).value; }
    } else {
      var n := |d| - 1;
      ConcatSplits(c, d[..n]);
      assert (c + d)[..|c| + n] == c + d[..n];
      if Concat(c).Some? && Concat(d[..n]).Some? && d[n].Some? {
        var x, y, z := Concat(c).value, Concat(d[..n]).value, d[n].value;
        assert x + y + z == x + (y + z);
      }
    }
  }

  /** A list is encoded element after element: nothing for the empty list, the element's own bytes for a list of one,
      and the bytes of the parts for a list in two parts. */
  lemma ListBytes(a: seq<Value>, b: seq<Value>, x: Value)
    ensures Encode(Array([])) == Some([]) && Encode(Array([x])) == Encode(x)
    ensures Encode(Array(a + b)) == Append(Encode(Array(a)), Encode(Array(b)))
  {
    assert ArrayChunks(Array([x])) == [Encode(x)] && ArrayChunks(Array([x]))[..0] == [];
    if Encode(x).Some? { assert [] + Encode(x).value == Encode(x).value; }
    assert ArrayChunks(Array(a + b)) == ArrayChunks(Array(a)) + ArrayChunks(Array(b));
    ConcatSplits(ArrayChunks(Array(a)), ArrayChunks(Array(b)));
  }

  // ---------- floats ----------

  const TWO52 := 0x10_0000_0000_0000

  function Pow2(n: nat): nat {
    if n == 0 then 1 else 2 * Pow2(n - 1)
  }

  lemma {:induction false} Pow2Positive(n: nat)
    ensures Pow2(n) > 0
  {
    if n > 0 { Pow2Positive(n - 1); }
  }

  /** The magnitude IEEE 754 gives to exponent and fraction, in units of the smallest positive number; infinity lies
      above every finite magnitude. */
  function Magnitude(bits: nat): nat {
    var e, m := bits / TWO52, bits % TWO52;
    if e == 0 then m else (TWO52 + m) * Pow2(e - 1)
  }

  /** The number a bit pattern stands for, in units of the smallest positive number. */
  function NumberOf(bits: uint64): int {
    var magnitude: int := Magnitude(if bits < TWO63 then bits else bits - TWO63);
    if bits < TWO63 then magnitude else -magnitude
  }

  lemma NextMagnitude(bits: nat)
    ensures Magnitude(bits) < Magnitude(bits + 1)
  {
    var e, m := bits / TWO52, bits % TWO52;
    if m + 1 < TWO52 {
      assert (bits + 1) / TWO52 == e && (bits + 1) % TWO52 == m + 1;
      if e > 0 {
        Pow2Positive(e - 1);
        assert (TWO52 + m + 1) * Pow2(e - 1) == (TWO52 + m) * Pow2(e - 1) + Pow2(e - 1);
      }
    } else {
      assert (bits + 1) / TWO52 == e + 1 && (bits + 1) % TWO52 == 0;
      if e > 0 {
        Pow2Positive(e - 1);
        assert TWO52 * Pow2(e) == (TWO52 + m) * Pow2(e - 1) + Pow2(e - 1);
      }
    }
  }

  lemma {:induction false} MagnitudeGrows(a: nat, b: nat)
    requires a < b
    ensures Magnitude(a) < Magnitude(b)
    decreases b
  {
    NextMagnitude(b - 1);
    if a < b - 1 { MagnitudeGrows(a, b - 1); }
  }

  /** The order of ranks is the order of the numbers. */
  lemma RankOrdersNumbers(x: uint64, y: uint64)
    ensures Rank(x) < Rank(y) <==> NumberOf(x) < NumberOf(y)
  {
    var a, b := if x < TWO63 then x else x - TWO63, if y < TWO63 then y else y - TWO63;
    if a < b { MagnitudeGrows(a, b); }
    if b < a { MagnitudeGrows(b, a); }
    if 0 < a { MagnitudeGrows(0, a); }
    if 0 < b { MagnitudeGrows(0, b); }
    assert Magnitude(0) == 0;
  }

  /** NaN as IEEE 754 has it: exponent all ones and a fraction that is not zero. */
  lemma NaNBits(bits: uint64)
    ensures IsNaN(bits) <==> bits / TWO52 % 2048 == 2047 && bits % TWO52 != 0
  {
  }

  /** A NaN inside an array key keeps the map from being encoded, as a NaN for a key does. */
  lemma NaNInsideKeyFails(v: Value, j: nat, i: nat)
    requires v.Map? && j < |v.pairs|
    requires var k := v.pairs[j].key;
      || (k.Float? && IsNaN(k.bits))
      || (k.Array? && i < |k.elems| && k.elems[i].Float? && IsNaN(k.elems[i].bits))
    ensures Encode(v).None?
  {
    assert Keys(v.pairs)[j] == v.pairs[j].key;
    NaNKeyFails(v, v.pairs[j].key);
  }

  // ---------- ascending keys ----------

  /** One key comes before another: strings by their first difference, numbers by size, false before true. */
  ghost predicate Below(a: Value, b: Value) {
    match (a, b)
    case (Str(s), Str(t)) => exists i: nat :: SmallerAt(s, t, i)
    case (Int(i), Int(j)) => i < j
    case (Float(x), Float(y)) => NaNFree(a) && NaNFree(b) && NumberOf(x) < NumberOf(y)
    case (Bool(p), Bool(q)) => !p && q
    case _ => false
  }

  lemma LessIsBelow(a: Value, b: Value)
    ensures Hashing.Less(a, b) <==> Below(a, b)
  {
    if a.Str? && b.Str? { LessIff(a.s, b.s); }
    if a.Float? && b.Float? { RankOrdersNumbers(a.bits, b.bits); }
  }

  /** The keys are listed in ascending order. */
  ghost predicate Ascending(pairs: seq<Pair>) {
    && (forall i :: 0 <= i < |pairs| ==> Scalar(pairs[i].key) && !pairs[i].key.Uint? && NaNFree(pairs[i].key))
    && (forall i, j :: 0 <= i < j < |pairs| ==> Below(pairs[i].key, pairs[j].key))
  }

  lemma AscendingKeys(pairs: seq<Pair>)
    requires Ascending(pairs)
    ensures GoKeys(Keys(pairs)) && Sorting.Sorted(Hashing.Less, Keys(pairs)) && SortKeys(Keys(pairs)) == Keys(pairs)
  {
    var keys := Keys(pairs);
    forall i, j | 0 <= i < j < |keys| ensures Hashing.Less(keys[i], keys[j]) { LessIsBelow(keys[i], keys[j]); }
    forall i | 0 <= i < |keys| ensures SameKind(keys[0], keys[i]) {
      if i > 0 { assert Hashing.Less(keys[0], keys[i]); }
    }
    forall i, j | 0 <= i < j < |keys| ensures !SameKey(keys[i], keys[j]) && !Hashing.Less(keys[j], keys[i]) {
      assert Hashing.Less(keys[i], keys[j]);
      if keys[i].Str? { LessAsymmetric(keys[i].s, keys[j].s); }
    }
    assert GoKeys(keys);
    if keys != [] {
      assert Sortable(keys[0]);
      KeyOrder(keys);
      Sorting.SortSorts(Hashing.Less, keys);
      Sorting.SortKeepsElements(Hashing.Less, keys);
      Sorting.SortedUnique(Hashing.Less, keys, Sorting.Sort(Hashing.Less, keys));
    }
  }

  /** Key bytes then value bytes of each pair, as listed. */
  ghost function PairChunks(pairs: seq<Pair>): seq<Option<seq<byte>>> {
    seq(|pairs|, i requires 0 <= i < |pairs| => Append(Encode(pairs[i].key), Encode(pairs[i].value)))
  }

  /** A map whose keys are listed in ascending order is encoded as listed, each key before its value; by order
      independence every other listing of it is encoded the same way. */
  lemma AscendingEncodes(pairs: seq<Pair>)
    requires Ascending(pairs)
    ensures Encode(Map(pairs)) == Concat(PairChunks(pairs))
  {
    var v := Map(pairs);
    AscendingKeys(pairs);
    forall i | 0 <= i < |pairs| ensures MapChunks(v)[i] == PairChunks(pairs)[i] {
      assert Keys(pairs)[i] == pairs[i].key;
      LookupFinds(pairs, i);
    }
    assert MapChunks(v) == PairChunks(pairs);
    assert !UintPanic(pairs);
  }
}
