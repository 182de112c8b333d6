/** Conversion between HTTP items and flattener points (timeline/http.go). */
module HttpPoint {
  import opened Options
  import opened Flattening

  /** A parameter of an item: property names and values alternate. */
  datatype Param = Str(s: string) | Float(v: real) | Int(i: int) | Op(op: FlatOperation) | Other(id: nat)

  datatype ArrayItem = ArrayItem(name: string, parameters: seq<Param>)

  datatype Config = Config(valueProperty: string, timestampProperty: string)

  datatype FlattenerPoint = FlattenerPoint(value: real, timestamp: int, op: FlatOperation,
                                           hashParameters: seq<Param>, item: ArrayItem)

  datatype Error = NotAName | NotAFloat | NotAnInt | IndexPanic

  datatype Result<T> = Ok(value: T) | Err(error: Error)

  /** What the scan of the parameters finds: the first value, the first timestamp, and everything else. */
  datatype Found = Found(value: Option<real>, timestamp: Option<int>, group: seq<Param>)

  function Prepend(before: seq<Param>, r: Result<Found>): Result<Found> {
    if r.Ok? then Ok(r.value.(group := before + r.value.group)) else r
  }

  /** The scan, a pair at a time; `v` and `t` say whether value and timestamp are still wanted. */
  function Scan(c: Config, ps: seq<Param>, v: bool, t: bool): Result<Found> {
    if ps == [] || (!v && !t) then Ok(Found(None, None, ps))
    else if !ps[0].Str? then Err(NotAName)
    else if v && ps[0].s == c.valueProperty then
      if |ps| == 1 then Err(IndexPanic)
      else if !ps[1].Float? then Err(NotAFloat)
      else
        var r := Scan(c, ps[2..], false, t);
        if r.Ok? then Ok(r.value.(value := Some(ps[1].v))) else r
    else if t && ps[0].s == c.timestampProperty then
      if |ps| == 1 then Err(IndexPanic)
      else if !ps[1].Int? then Err(NotAnInt)
      else
        var r := Scan(c, ps[2..], v, false);
        if r.Ok? then Ok(r.value.(timestamp := Some(ps[1].i))) else r
    else if |ps| == 1 then Ok(Found(None, None, ps))
    else Prepend(ps[..2], Scan(c, ps[2..], v, t))
  }

  function GetOr<T>(o: Option<T>, default: T): T {
    if o.Some? then o.value else default
  }

  function ToPoint(c: Config, op: FlatOperation, item: ArrayItem, now: int): Result<FlattenerPoint> {
    var r := Scan(c, item.parameters, true, true);
    if r.Err? then Err(r.error) else
    Ok(FlattenerPoint(GetOr(r.value.value, 0.0), GetOr(r.value.timestamp, now), op,
                      [Str(item.name), Op(op)] + r.value.group, ArrayItem(item.name, r.value.group)))
  }

  /** `FlattenedPointToDataChannelItem`. */
  function ToItem(c: Config, p: FlattenerPoint): ArrayItem {
    p.item.(parameters := p.item.parameters
      + [Str(c.timestampProperty), Int(p.timestamp), Str(c.valueProperty), Float(p.value)])
  }

  // ---------- the index loop ----------

  /** What the scan will have found in the end, given what it has found before `ps`. */
  function Rest(c: Config, before: Found, ps: seq<Param>): Result<Found> {
    var r := Scan(c, ps, before.value.None?, before.timestamp.None?);
    if r.Err? then r else
    Ok(Found(if before.value.Some? then before.value else r.value.value,
             if before.timestamp.Some? then before.timestamp else r.value.timestamp,
             before.group + r.value.group))
  }

  /** The scan passes over property name `p` and keeps it. */
  predicate Plain(c: Config, before: Found, p: Param) {
    var v, t := before.value.None?, before.timestamp.None?;
    (v || t) ==> p.Str? && !(v && p.s == c.valueProperty) && !(t && p.s == c.timestampProperty)
  }

  lemma RestEnds(c: Config, before: Found, ps: seq<Param>)
    ensures Rest(c, before, []) == Ok(before)
    ensures Rest(c, Found(None, None, []), ps) == Scan(c, ps, true, true)
  {
    assert before.group + [] == before.group;
    var r := Scan(c, ps, true, true);
    if r.Ok? { assert [] + r.value.group == r.value.group; }
  }

  lemma PlainLast(c: Config, before: Found, p: Param)
    requires Plain(c, before, p)
    ensures Rest(c, before, [p]) == Ok(before.(group := before.group + [p]))
  {
  }

  lemma PlainPair(c: Config, before: Found, ps: seq<Param>)
    requires |ps| >= 2 && Plain(c, before, ps[0])
    ensures Rest(c, before, ps) == Rest(c, before.(group := before.group + [ps[0]] + [ps[1]]), ps[2..])
  {
    assert ps == [ps[0], ps[1]] + ps[2..] && ps[..2] == [ps[0], ps[1]];
    var r := Scan(c, ps[2..], before.value.None?, before.timestamp.None?);
    if r.Ok? {
      assert before.group + (ps[..2] + r.value.group) == before.group + [ps[0]] + [ps[1]] + r.value.group;
    }
  }

  /** What the loop has still to reach, seen from index `i`: at odd indices the value of a kept name comes first. */
  ghost predicate Ahead(c: Config, goal: Result<Found>, found: Found, ps: seq<Param>, i: nat)
    requires i <= |ps|
  {
    if i % 2 == 0 then goal == Rest(c, found, ps[i..])
    else if i == |ps| then goal == Ok(found)
    else goal == Rest(c, found.(group := found.group + [ps[i]]), ps[i + 1..])
  }

  lemma KeepOne(c: Config, goal: Result<Found>, found: Found, ps: seq<Param>, i: nat)
    requires i < |ps| && Ahead(c, goal, found, ps, i) && (i % 2 == 0 ==> Plain(c, found, ps[i]))
    ensures Ahead(c, goal, found.(group := found.group + [ps[i]]), ps, i + 1)
  {
    if i % 2 == 0 {
      if i + 1 == |ps| {
        assert ps[i..] == [ps[i]];
        PlainLast(c, found, ps[i]);
      } else {
        assert ps[i..][2..] == ps[i + 2..];
        PlainPair(c, found, ps[i..]);
      }
    }
  }

  lemma PickValue(c: Config, goal: Result<Found>, found: Found, ps: seq<Param>, i: nat)
    requires i < |ps| && i % 2 == 0 && Ahead(c, goal, found, ps, i)
    requires found.value.None? && ps[i] == Str(c.valueProperty)
    ensures i + 1 == |ps| ==> goal == Err(IndexPanic)
    ensures i + 1 < |ps| && !ps[i + 1].Float? ==> goal == Err(NotAFloat)
    ensures i + 1 < |ps| && ps[i + 1].Float? ==> Ahead(c, goal, found.(value := Some(ps[i + 1].v)), ps, i + 2)
  {
    if i + 1 < |ps| { assert ps[i..][2..] == ps[i + 2..]; }
  }

  lemma PickTimestamp(c: Config, goal: Result<Found>, found: Found, ps: seq<Param>, i: nat)
    requires i < |ps| && i % 2 == 0 && Ahead(c, goal, found, ps, i)
    requires found.timestamp.None? && ps[i] == Str(c.timestampProperty)
    requires !(found.value.None? && ps[i] == Str(c.valueProperty))
    ensures i + 1 == |ps| ==> goal == Err(IndexPanic)
    ensures i + 1 < |ps| && !ps[i + 1].Int? ==> goal == Err(NotAnInt)
    ensures i + 1 < |ps| && ps[i + 1].Int? ==> Ahead(c, goal, found.(timestamp := Some(ps[i + 1].i)), ps, i + 2)
  {
    if i + 1 < |ps| { assert ps[i..][2..] == ps[i + 2..]; }
  }

  /** `DataChannelItemToFlattenedPoint`: one index at a time, skipping the two pairs it picks out. */
  method DataChannelItemToFlattenedPoint(c: Config, op: FlatOperation, item: ArrayItem, now: int)
    returns (r: Result<FlattenerPoint>)
    ensures r == ToPoint(c, op, item, now)
  {
    var ps := item.parameters;
    var found := Found(None, None, []);
    var i := 0;
    ghost var goal := Scan(c, ps, true, true);
    assert ps[0..] == ps;
    RestEnds(c, found, ps);
    while i < |ps|
      invariant 0 <= i <= |ps| && Ahead(c, goal, found, ps, i)
    {
      if i % 2 == 0 && (found.value.None? || found.timestamp.None?) {
        if !ps[i].Str? {
          assert ps[i..][0] == ps[i];
          return Err(NotAName);
        }
        if found.value.None? && ps[i].s == c.valueProperty {
          PickValue(c, goal, found, ps, i);
          if i + 1 == |ps| {
            return Err(IndexPanic);
          }
          if !ps[i + 1].Float? {
            return Err(NotAFloat);
          }
          found := found.(value := Some(ps[i + 1].v));
          i := i + 2;
          continue;
        }
        if found.timestamp.None? && ps[i].s == c.timestampProperty {
          PickTimestamp(c, goal, found, ps, i);
          if i + 1 == |ps| {
            return Err(IndexPanic);
          }
          if !ps[i + 1].Int? {
            return Err(NotAnInt);
          }
          found := found.(timestamp := Some(ps[i + 1].i));
          i := i + 2;
          continue;
        }
      }
      KeepOne(c, goal, found, ps, i);
      found := found.(group := found.group + [ps[i]]);
      i := i + 1;
    }
    assert ps[i..] == [];
    RestEnds(c, found, ps);
    r := Ok(FlattenerPoint(GetOr(found.value, 0.0), GetOr(found.timestamp, now), op,
                           [Str(item.name), Op(op)] + found.group, ArrayItem(item.name, found.group)));
  }

  // ---------- pairs ----------

  datatype Pair = Pair(name: Param, value: Param)

  function Pairs(ps: seq<Param>): seq<Pair> {
    if |ps| < 2 then [] else [Pair(ps[0], ps[1])] + Pairs(ps[2..])
  }

  /** How many pairs carry this property name. */
  function Occurrences(ps: seq<Param>, name: string): nat {
    if |ps| < 2 then 0 else (if ps[0] == Str(name) then 1 else 0) + Occurrences(ps[2..], name)
  }

  /** The pairs that are neither value nor timestamp, in order. */
  function Others(c: Config, ps: seq<Param>): seq<Param> {
    if |ps| < 2 then ps
    else
      (if ps[0] == Str(c.valueProperty) || ps[0] == Str(c.timestampProperty) then [] else ps[..2])
      + Others(c, ps[2..])
  }

  /** Names are strings, the value is a float64 and the timestamp an int64. */
  ghost predicate Typed(c: Config, ps: seq<Param>) {
    |ps| % 2 == 0 && (|ps| >= 2 ==>
      ps[0].Str? && (ps[0] == Str(c.valueProperty) ==> ps[1].Float?)
        && (ps[0] == Str(c.timestampProperty) ==> ps[1].Int?)
      && Typed(c, ps[2..]))
  }

  lemma {:induction false} NoneLeft(c: Config, ps: seq<Param>)
    requires |ps| % 2 == 0 && Occurrences(ps, c.valueProperty) == 0 && Occurrences(ps, c.timestampProperty) == 0
    ensures Others(c, ps) == ps
  {
    if |ps| >= 2 {
      NoneLeft(c, ps[2..]);
      assert ps == ps[..2] + ps[2..];
    }
  }

  /** With one value pair and one timestamp pair, the scan succeeds, keeps exactly the other pairs, and finds both. */
  lemma {:induction false} ScanRegular(c: Config, ps: seq<Param>, v: bool, t: bool)
    requires Typed(c, ps) && c.valueProperty != c.timestampProperty
    requires Occurrences(ps, c.valueProperty) == (if v then 1 else 0)
    requires Occurrences(ps, c.timestampProperty) == (if t then 1 else 0)
    ensures var r := Scan(c, ps, v, t);
      r.Ok? && r.value.group == Others(c, ps) && r.value.value.Some? == v && r.value.timestamp.Some? == t
  {
    if !v && !t {
      NoneLeft(c, ps);
    } else {
      ScanRegular(c, ps[2..], v && ps[0] != Str(c.valueProperty), t && ps[0] != Str(c.timestampProperty));
    }
  }

  // ---------- what every conversion keeps ----------

  /** `ps` without its first pair of this name. */
  function Drop(name: string, ps: seq<Param>): seq<Param> {
    if |ps| < 2 then ps else if ps[0] == Str(name) then ps[2..] else ps[..2] + Drop(name, ps[2..])
  }

  /** What stands beside the first property of this name. */
  function FirstNamed(name: string, ps: seq<Param>): Option<Param> {
    if |ps| < 2 then None else if ps[0] == Str(name) then Some(ps[1]) else FirstNamed(name, ps[2..])
  }

  function DropIf(wanted: bool, name: string, ps: seq<Param>): seq<Param> {
    if wanted then Drop(name, ps) else ps
  }

  lemma DropLater(name: string, ps: seq<Param>, rest: seq<Param>)
    requires |ps| >= 2 && ps[0] != Str(name)
    ensures Drop(name, ps[..2] + rest) == ps[..2] + Drop(name, rest)
    ensures FirstNamed(name, ps[..2] + rest) == FirstNamed(name, rest)
  {
    assert (ps[..2] + rest)[2..] == rest && (ps[..2] + rest)[..2] == ps[..2];
  }

  lemma DropFirst(name: string, ps: seq<Param>, rest: seq<Param>)
    requires |ps| >= 2 && ps[0] == Str(name)
    ensures Drop(name, ps[..2] + rest) == rest && FirstNamed(name, ps[..2] + rest) == Some(ps[1])
  {
    assert (ps[..2] + rest)[2..] == rest;
  }

  /** A scan that succeeds sets aside the first value and the first timestamp pair, and keeps everything else. */
  lemma {:induction false} ScanDrops(c: Config, ps: seq<Param>, v: bool, t: bool)
    requires Scan(c, ps, v, t).Ok?
    ensures var f, rest := Scan(c, ps, v, t).value, DropIf(v, c.valueProperty, ps);
      && f.group == DropIf(t, c.timestampProperty, rest)
      && (v ==> FirstNamed(c.valueProperty, ps) == if f.value.Some? then Some(Float(f.value.value)) else None)
      && (t ==> FirstNamed(c.timestampProperty, rest)
                == if f.timestamp.Some? then Some(Int(f.timestamp.value)) else None)
      && (!v ==> f.value.None?) && (!t ==> f.timestamp.None?)
  {
    if |ps| >= 2 && (v || t) {
      var later := ps[2..];
      assert ps == ps[..2] + later;
      if v && ps[0].s == c.valueProperty {
        ScanDrops(c, later, false, t);
      } else if t && ps[0].s == c.timestampProperty {
        ScanDrops(c, later, v, false);
        if v { DropLater(c.valueProperty, ps, later); }
        DropFirst(c.timestampProperty, ps, DropIf(v, c.valueProperty, later));
      } else {
        ScanDrops(c, later, v, t);
        if v { DropLater(c.valueProperty, ps, later); }
        if t { DropLater(c.timestampProperty, ps, DropIf(v, c.valueProperty, later)); }
      }
    }
  }

  /** The parameters without the first value pair and, in what is left, the first timestamp pair. */
  function Kept(c: Config, ps: seq<Param>): seq<Param> {
    Drop(c.timestampProperty, Drop(c.valueProperty, ps))
  }

  /** What every conversion that succeeds makes of the item: the group parameters are the name, the operation and the
      kept parameters; value and timestamp are the first ones named, or 0 and the time of the call. */
  lemma PointOf(c: Config, op: FlatOperation, item: ArrayItem, now: int)
    requires ToPoint(c, op, item, now).Ok?
    ensures var p, ps := ToPoint(c, op, item, now).value, item.parameters;
      && p.op == op && p.hashParameters == [Str(item.name), Op(op)] + Kept(c, ps)
      && p.item == ArrayItem(item.name, Kept(c, ps))
      && (match FirstNamed(c.valueProperty, ps) case Some(x) => x == Float(p.value) case None => p.value == 0.0)
      && (match FirstNamed(c.timestampProperty, Drop(c.valueProperty, ps))
          case Some(x) => x == Int(p.timestamp)
          case None => p.timestamp == now)
  {
    ScanDrops(c, item.parameters, true, true);
  }

  /** Two items fall into one group exactly when they agree on name, operation and kept parameters. */
  lemma SameGroupIff(c: Config, op: FlatOperation, a: ArrayItem, now: int, op': FlatOperation, b: ArrayItem, now': int)
    requires ToPoint(c, op, a, now).Ok? && ToPoint(c, op', b, now').Ok?
    ensures ToPoint(c, op, a, now).value.hashParameters == ToPoint(c, op', b, now').value.hashParameters <==>
      a.name == b.name && op == op' && Kept(c, a.parameters) == Kept(c, b.parameters)
  {
    PointOf(c, op, a, now);
    PointOf(c, op', b, now');
    var p, q := ToPoint(c, op, a, now).value.hashParameters, ToPoint(c, op', b, now').value.hashParameters;
    assert p[0] == Str(a.name) && p[1] == Op(op) && p[2..] == Kept(c, a.parameters);
    assert q[0] == Str(b.name) && q[1] == Op(op') && q[2..] == Kept(c, b.parameters);
  }

  lemma KeptRegular(c: Config, ps: seq<Param>)
    requires Typed(c, ps) && c.valueProperty != c.timestampProperty
    requires Occurrences(ps, c.valueProperty) == Occurrences(ps, c.timestampProperty) == 1
    ensures Kept(c, ps) == Others(c, ps)
  {
    ScanRegular(c, ps, true, true);
    ScanDrops(c, ps, true, true);
  }

  /** For items with one value and one timestamp pair the group parameters, which are hashed into the key, are the name,
      the operation and the other pairs: two items fall into one group exactly when they agree on these, wherever the
      two pairs sit and whatever they hold. */
  lemma GroupIgnoresValueAndTimestamp(c: Config, op: FlatOperation, a: ArrayItem, now: int,
                                      op': FlatOperation, b: ArrayItem, now': int)
    requires Typed(c, a.parameters) && Typed(c, b.parameters) && c.valueProperty != c.timestampProperty
    requires Occurrences(a.parameters, c.valueProperty) == Occurrences(a.parameters, c.timestampProperty) == 1
    requires Occurrences(b.parameters, c.valueProperty) == Occurrences(b.parameters, c.timestampProperty) == 1
    ensures ToPoint(c, op, a, now).Ok? && ToPoint(c, op', b, now').Ok?
    ensures ToPoint(c, op, a, now).value.hashParameters == [Str(a.name), Op(op)] + Others(c, a.parameters)
    ensures ToPoint(c, op, a, now).value.hashParameters == ToPoint(c, op', b, now').value.hashParameters <==>
      a.name == b.name && op == op' && Others(c, a.parameters) == Others(c, b.parameters)
  {
    ScanRegular(c, a.parameters, true, true);
    ScanRegular(c, b.parameters, true, true);
    KeptRegular(c, a.parameters);
    KeptRegular(c, b.parameters);
    PointOf(c, op, a, now);
    SameGroupIff(c, op, a, now, op', b, now');
  }

  // ---------- when a conversion fails ----------

  ghost predicate NamedBefore(ps: seq<Param>, name: string, j: nat) {
    exists i :: 0 <= i < j && 2 * i < |ps| && ps[2 * i] == Str(name)
  }

  /** What is wrong with pair `j`, while the value (`v`) or the timestamp (`t`) is wanted from the start. */
  ghost function FaultAt(c: Config, ps: seq<Param>, v: bool, t: bool, j: nat): Option<Error>
    requires 2 * j < |ps|
  {
    var name := ps[2 * j];
    var wantsValue := v && !NamedBefore(ps, c.valueProperty, j);
    var wantsTimestamp := t && !NamedBefore(ps, c.timestampProperty, j);
    if !wantsValue && !wantsTimestamp then None
    else if !name.Str? then Some(NotAName)
    else if wantsValue && name.s == c.valueProperty then
      if 2 * j + 1 == |ps| then Some(IndexPanic) else if ps[2 * j + 1].Float? then None else Some(NotAFloat)
    else if wantsTimestamp && name.s == c.timestampProperty then
      if 2 * j + 1 == |ps| then Some(IndexPanic) else if ps[2 * j + 1].Int? then None else Some(NotAnInt)
    else None
  }

  ghost predicate NoFault(c: Config, ps: seq<Param>, v: bool, t: bool, n: nat) {
    forall j :: 0 <= j < n && 2 * j < |ps| ==> FaultAt(c, ps, v, t, j).None?
  }

  lemma NamedLater(ps: seq<Param>, name: string, j: nat)
    requires |ps| >= 2
    ensures NamedBefore(ps, name, j + 1) <==> ps[0] == Str(name) || NamedBefore(ps[2..], name, j)
  {
    if ps[0] == Str(name) { assert ps[2 * 0] == Str(name); }
    if NamedBefore(ps[2..], name, j) {
      var i :| 0 <= i < j && 2 * i < |ps[2..]| && ps[2..][2 * i] == Str(name);
      assert ps[2 * (i + 1)] == Str(name);
    }
    if NamedBefore(ps, name, j + 1) && ps[0] != Str(name) {
      var i :| 0 <= i < j + 1 && 2 * i < |ps| && ps[2 * i] == Str(name);
      assert ps[2..][2 * (i - 1)] == Str(name);
    }
  }

  lemma FaultLater(c: Config, ps: seq<Param>, v: bool, t: bool, j: nat)
    requires |ps| >= 2 && 2 * j < |ps| - 2
    ensures FaultAt(c, ps, v, t, j + 1)
      == FaultAt(c, ps[2..], v && ps[0] != Str(c.valueProperty), t && ps[0] != Str(c.timestampProperty), j)
  {
    NamedLater(ps, c.valueProperty, j);
    NamedLater(ps, c.timestampProperty, j);
    assert ps[2..][2 * j] == ps[2 * (j + 1)];
    if 2 * j + 1 < |ps[2..]| { assert ps[2..][2 * j + 1] == ps[2 * (j + 1) + 1]; }
  }

  lemma NoFaultLater(c: Config, ps: seq<Param>, v: bool, t: bool, n: nat)
    requires |ps| >= 2 && FaultAt(c, ps, v, t, 0).None?
    ensures NoFault(c, ps, v, t, n + 1) <==>
      NoFault(c, ps[2..], v && ps[0] != Str(c.valueProperty), t && ps[0] != Str(c.timestampProperty), n)
  {
    var v', t' := v && ps[0] != Str(c.valueProperty), t && ps[0] != Str(c.timestampProperty);
    forall j | 0 <= j < n && 2 * j < |ps[2..]|
      ensures FaultAt(c, ps, v, t, j + 1) == FaultAt(c, ps[2..], v', t', j)
    {
      FaultLater(c, ps, v, t, j);
    }
    if NoFault(c, ps[2..], v', t', n) {
      forall j | 0 <= j < n + 1 && 2 * j < |ps| ensures FaultAt(c, ps, v, t, j).None? {
        if j > 0 { assert FaultAt(c, ps[2..], v', t', j - 1).None?; }
      }
    }
  }

  /** Pair `j` is the first with something wrong, namely `e`. */
  ghost predicate FirstFault(c: Config, ps: seq<Param>, v: bool, t: bool, j: nat, e: Error) {
    2 * j < |ps| && FaultAt(c, ps, v, t, j) == Some(e) && NoFault(c, ps, v, t, j)
  }

  lemma {:induction false} ScanFaults(c: Config, ps: seq<Param>, v: bool, t: bool)
    requires c.valueProperty != c.timestampProperty
    ensures Scan(c, ps, v, t).Ok? <==> NoFault(c, ps, v, t, |ps|)
    ensures Scan(c, ps, v, t).Err? ==> exists j: nat :: FirstFault(c, ps, v, t, j, Scan(c, ps, v, t).error)
  {
    if ps != [] && (v || t) {
      if FaultAt(c, ps, v, t, 0).Some? {
        assert FirstFault(c, ps, v, t, 0, Scan(c, ps, v, t).error);
      } else if |ps| >= 2 {
        var v', t' := v && ps[0] != Str(c.valueProperty), t && ps[0] != Str(c.timestampProperty);
        ScanFaults(c, ps[2..], v', t');
        assert Scan(c, ps, v, t).Ok? <==> Scan(c, ps[2..], v', t').Ok?;
        NoFaultLater(c, ps, v, t, |ps[2..]|);
        if Scan(c, ps, v, t).Err? {
          var j: nat :| FirstFault(c, ps[2..], v', t', j, Scan(c, ps[2..], v', t').error);
          FaultLater(c, ps, v, t, j);
          NoFaultLater(c, ps, v, t, j);
          assert FirstFault(c, ps, v, t, j + 1, Scan(c, ps, v, t).error);
        }
      }
    }
  }

  /** Exactly when a conversion fails, and with which error: the first pair with something wrong decides. */
  lemma ConversionFailsIff(c: Config, op: FlatOperation, item: ArrayItem, now: int)
    requires c.valueProperty != c.timestampProperty
    ensures ToPoint(c, op, item, now).Ok? <==> NoFault(c, item.parameters, true, true, |item.parameters|)
    ensures ToPoint(c, op, item, now).Err? ==>
      exists j: nat :: FirstFault(c, item.parameters, true, true, j, ToPoint(c, op, item, now).error)
  {
    ScanFaults(c, item.parameters, true, true);
  }

  // ---------- the round trip ----------

  /** The pairs, in any order. */
  function Bag(ps: seq<Param>): multiset<Pair> {
    multiset(Pairs(ps))
  }

  lemma BagHead(ps: seq<Param>)
    requires |ps| >= 2
    ensures Bag(ps) == multiset{Pair(ps[0], ps[1])} + Bag(ps[2..])
  {
  }

  lemma {:induction false} BagConcat(a: seq<Param>, b: seq<Param>)
    requires |a| % 2 == 0
    ensures Bag(a + b) == Bag(a) + Bag(b)
  {
    if a == [] {
      assert a + b == b;
    } else {
      assert (a + b)[2..] == a[2..] + b;
      BagConcat(a[2..], b);
      BagHead(a);
      BagHead(a + b);
    }
  }

  /** The value and the timestamp pair as they are written back. */
  function ValuePair(c: Config, v: real): multiset<Pair> {
    multiset{Pair(Str(c.valueProperty), Float(v))}
  }

  function TimestampPair(c: Config, t: int): multiset<Pair> {
    multiset{Pair(Str(c.timestampProperty), Int(t))}
  }

  /** The pairs a scan set aside. */
  function PickedOut(c: Config, f: Found): multiset<Pair> {
    (if f.value.Some? then ValuePair(c, f.value.value) else multiset{})
    + (if f.timestamp.Some? then TimestampPair(c, f.timestamp.value) else multiset{})
  }

  ghost predicate Keeps(c: Config, ps: seq<Param>, v: bool, t: bool, f: Found) {
    |f.group| % 2 == 0 && Bag(ps) == Bag(f.group) + PickedOut(c, f) && (!v ==> f.value.None?)
      && (!t ==> f.timestamp.None?)
  }

  lemma BagCons(ps: seq<Param>, g: seq<Param>)
    requires |ps| >= 2
    ensures Bag(ps[..2] + g) == multiset{Pair(ps[0], ps[1])} + Bag(g)
  {
    var r := ps[..2] + g;
    BagHead(r);
    assert r[0] == ps[0] && r[1] == ps[1] && r[2..] == g;
  }

  lemma Regroup(x: multiset<Pair>, a: multiset<Pair>, b: multiset<Pair>)
    ensures x + (a + b) == x + a + b
  {
  }

  lemma KeepsPlain(c: Config, ps: seq<Param>, v: bool, t: bool, f: Found)
    requires |ps| >= 2 && Keeps(c, ps[2..], v, t, f)
    ensures Keeps(c, ps, v, t, f.(group := ps[..2] + f.group))
  {
    BagHead(ps);
    BagCons(ps, f.group);
    Regroup(multiset{Pair(ps[0], ps[1])}, Bag(f.group), PickedOut(c, f));
    assert PickedOut(c, f.(group := ps[..2] + f.group)) == PickedOut(c, f);
  }

  lemma KeepsValue(c: Config, ps: seq<Param>, t: bool, f: Found)
    requires |ps| >= 2 && ps[0] == Str(c.valueProperty) && ps[1].Float? && Keeps(c, ps[2..], false, t, f)
    ensures Keeps(c, ps, true, t, f.(value := Some(ps[1].v)))
  {
    BagHead(ps);
  }

  lemma KeepsTimestamp(c: Config, ps: seq<Param>, v: bool, f: Found)
    requires |ps| >= 2 && ps[0] == Str(c.timestampProperty) && ps[1].Int? && Keeps(c, ps[2..], v, false, f)
    ensures Keeps(c, ps, v, true, f.(timestamp := Some(ps[1].i)))
  {
    BagHead(ps);
  }

  lemma {:induction false} ScanKeepsPairs(c: Config, ps: seq<Param>, v: bool, t: bool)
    requires |ps| % 2 == 0 && Scan(c, ps, v, t).Ok?
    ensures Keeps(c, ps, v, t, Scan(c, ps, v, t).value)
  {
    if ps != [] && (v || t) {
      if v && ps[0].s == c.valueProperty {
        ScanKeepsPairs(c, ps[2..], false, t);
        KeepsValue(c, ps, t, Scan(c, ps[2..], false, t).value);
      } else if t && ps[0].s == c.timestampProperty {
        ScanKeepsPairs(c, ps[2..], v, false);
        KeepsTimestamp(c, ps, v, Scan(c, ps[2..], v, false).value);
      } else {
        ScanKeepsPairs(c, ps[2..], v, t);
        KeepsPlain(c, ps, v, t, Scan(c, ps[2..], v, t).value);
      }
    }
  }

  lemma BagOfItem(c: Config, p: FlattenerPoint)
    requires |p.item.parameters| % 2 == 0
    ensures Bag(ToItem(c, p).parameters)
      == Bag(p.item.parameters) + TimestampPair(c, p.timestamp) + ValuePair(c, p.value)
  {
    var tail := [Str(c.timestampProperty), Int(p.timestamp), Str(c.valueProperty), Float(p.value)];
    BagConcat(p.item.parameters, tail);
    BagHead(tail);
    var last := tail[2..];
    assert last == [Str(c.valueProperty), Float(p.value)];
    BagHead(last);
    assert last[2..] == [];
  }

  /** The way back keeps the parameters in their order, and writes the timestamp and then the value after them. */
  lemma WritesBack(c: Config, op: FlatOperation, item: ArrayItem, now: int)
    requires ToPoint(c, op, item, now).Ok?
    ensures var p, back := ToPoint(c, op, item, now).value, ToItem(c, ToPoint(c, op, item, now).value);
      var n := |Kept(c, item.parameters)|;
      && back.name == item.name && |back.parameters| == n + 4 && back.parameters[..n] == Kept(c, item.parameters)
      && back.parameters[n] == Str(c.timestampProperty) && back.parameters[n + 1] == Int(p.timestamp)
      && back.parameters[n + 2] == Str(c.valueProperty) && back.parameters[n + 3] == Float(p.value)
  {
    PointOf(c, op, item, now);
  }

  /** What conversion to a point and back adds: a default for whatever was missing. */
  function Defaults(c: Config, f: Found, now: int): multiset<Pair> {
    (if f.value.None? then ValuePair(c, 0.0) else multiset{})
    + (if f.timestamp.None? then TimestampPair(c, now) else multiset{})
  }

  /** The value is found exactly when some pair is named so, and likewise the timestamp. */
  lemma {:induction false} ScanFinds(c: Config, ps: seq<Param>, v: bool, t: bool)
    requires |ps| % 2 == 0 && Scan(c, ps, v, t).Ok? && c.valueProperty != c.timestampProperty
    ensures var f := Scan(c, ps, v, t).value;
      && (f.value.Some? <==> v && Occurrences(ps, c.valueProperty) > 0)
      && (f.timestamp.Some? <==> t && Occurrences(ps, c.timestampProperty) > 0)
  {
    if ps != [] && (v || t) {
      if v && ps[0].s == c.valueProperty {
        ScanFinds(c, ps[2..], false, t);
      } else if t && ps[0].s == c.timestampProperty {
        ScanFinds(c, ps[2..], v, false);
      } else {
        ScanFinds(c, ps[2..], v, t);
      }
    }
  }

  lemma PickedOrDefault(c: Config, f: Found, now: int)
    ensures PickedOut(c, f) + Defaults(c, f, now)
      == TimestampPair(c, GetOr(f.timestamp, now)) + ValuePair(c, GetOr(f.value, 0.0))
  {
  }

  /** To a point and back: the pairs of the original, plus a default for whatever was missing. */
  lemma RoundTrip(c: Config, op: FlatOperation, item: ArrayItem, now: int)
    requires |item.parameters| % 2 == 0 && ToPoint(c, op, item, now).Ok?
    ensures var f, back := Scan(c, item.parameters, true, true).value, ToItem(c, ToPoint(c, op, item, now).value);
      back.name == item.name && Bag(back.parameters) == Bag(item.parameters) + Defaults(c, f, now)
  {
    ScanKeepsPairs(c, item.parameters, true, true);
    var p := ToPoint(c, op, item, now).value;
    var f := Scan(c, item.parameters, true, true).value;
    BagOfItem(c, p);
    PickedOrDefault(c, f, now);
    Regroup(Bag(f.group), PickedOut(c, f), Defaults(c, f, now));
    Regroup(Bag(f.group), TimestampPair(c, p.timestamp), ValuePair(c, p.value));
  }

  /** So the round trip is a permutation exactly when the item names both a value and a timestamp. */
  lemma RoundTripPermutes(c: Config, op: FlatOperation, item: ArrayItem, now: int)
    requires |item.parameters| % 2 == 0 && ToPoint(c, op, item, now).Ok? && c.valueProperty != c.timestampProperty
    ensures Bag(ToItem(c, ToPoint(c, op, item, now).value).parameters) == Bag(item.parameters) <==>
      Occurrences(item.parameters, c.valueProperty) > 0 && Occurrences(item.parameters, c.timestampProperty) > 0
  {
    RoundTrip(c, op, item, now);
    ScanFinds(c, item.parameters, true, true);
    SizeAdds(Bag(item.parameters), Defaults(c, Scan(c, item.parameters, true, true).value, now));
  }

  lemma SizeAdds(a: multiset<Pair>, b: multiset<Pair>)
    ensures |a + b| == |a| + |b|
    ensures a + b == a <==> |b| == 0
  {
    if |b| == 0 { assert a + b == a; }
  }

  /** The regular case: one value and one timestamp pair come back as a permutation of the original pairs. */
  lemma RoundTripRegular(c: Config, op: FlatOperation, item: ArrayItem, now: int)
    requires Typed(c, item.parameters) && c.valueProperty != c.timestampProperty
    requires Occurrences(item.parameters, c.valueProperty) == Occurrences(item.parameters, c.timestampProperty) == 1
    ensures ToPoint(c, op, item, now).Ok?
    ensures Bag(ToItem(c, ToPoint(c, op, item, now).value).parameters) == Bag(item.parameters)
  {
    ScanRegular(c, item.parameters, true, true);
    RoundTripPermutes(c, op, item, now);
  }
}
