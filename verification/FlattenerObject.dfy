/** The flattener as one goroutine sees it (timeline/flattener.go): `Add` appends to the entry it finds or stores a
    new one, and a cycle ranges over the map, flattening and deleting. Both are what the steps of `Flattener` do when
    nothing comes between them. */
module FlattenerObject {
  import opened Options
  import opened Flattening
  import opened Steps = Flattener

  datatype Group = Group(op: FlatOperation, values: seq<real>)
  datatype Flat = Flat(key: Key, value: real)

  /** What `Add` makes of the groups: the first point of a key decides its operation. */
  function WithPoint(groups: map<Key, Group>, key: Key, op: FlatOperation, v: real): map<Key, Group> {
    if key in groups then groups[key := Group(groups[key].op, groups[key].values + [v])]
    else groups[key := Group(op, [v])]
  }

  /** `items` flattens `groups`: one item per group with a mapped operation, none for any other key. */
  ghost predicate Flattens(items: seq<Flat>, groups: map<Key, Group>) {
    && (forall i, j :: 0 <= i < j < |items| ==> items[i].key != items[j].key)
    && (forall i :: 0 <= i < |items| ==> items[i].key in groups)
    && (forall k :: k in groups && groups[k].values != [] ==>
          match FlatValue(groups[k].op, groups[k].values)
          case Some(v) => Flat(k, v) in items
          case None => forall i :: 0 <= i < |items| ==> items[i].key != k)
  }

  lemma FlattensNext(items: seq<Flat>, groups: map<Key, Group>, k: Key, g: Group)
    requires Flattens(items, groups) && k !in groups && g.values != []
    ensures var v := FlatValue(g.op, g.values);
      Flattens(items + if v.Some? then [Flat(k, v.value)] else [], groups[k := g])
  {
    var v := FlatValue(g.op, g.values);
    var r := items + if v.Some? then [Flat(k, v.value)] else [];
    assert v.Some? ==> r[|items|] == Flat(k, v.value);
    forall j | j in groups && groups[j].values != [] && FlatValue(groups[j].op, groups[j].values).Some?
      ensures Flat(j, FlatValue(groups[j].op, groups[j].values).value) in r
    {
      assert Flat(j, FlatValue(groups[j].op, groups[j].values).value) in items;
    }
  }

  ghost predicate Parts(m: map<Key, Group>, done: map<Key, Group>, all: map<Key, Group>) {
    && (forall k :: k in all <==> k in m || k in done)
    && (forall k :: k in m ==> k !in done && all[k] == m[k])
    && (forall k :: k in done ==> all[k] == done[k])
  }

  lemma MoveOne(m: map<Key, Group>, done: map<Key, Group>, all: map<Key, Group>, k: Key)
    requires Parts(m, done, all) && k in m
    ensures k !in done && Parts(m - {k}, done[k := m[k]], all) && |m - {k}| < |m|
  {
    assert (m - {k}).Keys == m.Keys - {k} && |m| == |m.Keys|;
  }

  // ---------- the steps, uninterrupted ----------

  ghost function GroupOf(points: seq<Point>, s: State, k: Key): Group
    requires Inv(points, s) && k in s.pointMap
  {
    var e := s.pointMap[k];
    assert Listed(s, e, s.entries[e].ids);
    Group(s.entries[e].op, Values(points, s.entries[e].ids))
  }

  /** The groups the shared map stands for. */
  ghost function Groups(points: seq<Point>, s: State): map<Key, Group>
    requires Inv(points, s)
  {
    map k | k in s.pointMap :: GroupOf(points, s, k)
  }

  /** The three steps of one `Add` call; a call that found no entry is finished after two. */
  function AddSteps(i: nat): seq<Action> {
    [Advance(i), Advance(i), Advance(i)]
  }

  /** The cycle ranges over the keys in the listed order. */
  function PassSteps(keys: seq<Key>): seq<Action> {
    if keys == [] then [] else PassSteps(keys[..|keys| - 1]) + [Visit(keys[|keys| - 1]), Flatten, Push, Delete]
  }

  lemma RunMore(points: seq<Point>, actions: seq<Action>, a: Action, k: Key)
    ensures Run(points, actions + [a]) == Apply(points, Run(points, actions), a)
    ensures SafeRun(points, actions, k) && Safe(points, Run(points, actions), a, k) ==>
      SafeRun(points, actions + [a], k)
  {
    assert (actions + [a])[..|actions|] == actions;
  }

  lemma RunThree(points: seq<Point>, actions: seq<Action>, i: nat, k: Key)
    ensures var s := Run(points, actions); var t := Apply(points, s, Advance(i)); var u := Apply(points, t, Advance(i));
      && Run(points, actions + AddSteps(i)) == Apply(points, u, Advance(i))
      && (SafeRun(points, actions, k) && Safe(points, s, Advance(i), k) && Safe(points, t, Advance(i), k)
            && Safe(points, u, Advance(i), k) ==>
            SafeRun(points, actions + AddSteps(i), k))
  {
    var a := Advance(i);
    RunMore(points, actions, a, k);
    RunMore(points, actions + [a], a, k);
    RunMore(points, actions + [a] + [a], a, k);
    assert actions + AddSteps(i) == actions + [a] + [a] + [a];
  }

  lemma RunFour(points: seq<Point>, actions: seq<Action>, key: Key, k: Key)
    ensures var s := Run(points, actions);
      var t := Apply(points, s, Visit(key)); var u := Apply(points, t, Flatten); var v := Apply(points, u, Push);
      && Run(points, actions + [Visit(key), Flatten, Push, Delete]) == Apply(points, v, Delete)
      && (SafeRun(points, actions, k) && Safe(points, t, Flatten, k) ==>
            SafeRun(points, actions + [Visit(key), Flatten, Push, Delete], k))
  {
    RunMore(points, actions, Visit(key), k);
    RunMore(points, actions + [Visit(key)], Flatten, k);
    RunMore(points, actions + [Visit(key)] + [Flatten], Push, k);
    RunMore(points, actions + [Visit(key)] + [Flatten] + [Push], Delete, k);
    assert actions + [Visit(key), Flatten, Push, Delete] == actions + [Visit(key)] + [Flatten] + [Push] + [Delete];
  }

  /** What the steps of one `Add` call make of a state with the cycle at rest. */
  ghost predicate Appended(points: seq<Point>, s: State, r: State, i: nat)
    requires i < |points| == |s.calls|
  {
    var p := points[i];
    && r.cycle == s.cycle && r.items == s.items && |r.calls| == |s.calls|
    && (forall j :: 0 <= j < |s.calls| && j != i ==> r.calls[j] == s.calls[j])
    && (if p.key in s.pointMap && s.pointMap[p.key] < |s.entries| then
          var e := s.pointMap[p.key];
          r.pointMap == s.pointMap && r.entries == s.entries[e := s.entries[e].(ids := s.entries[e].ids + [i])]
            && r.calls[i] == Returned(e)
        else
          r.pointMap == s.pointMap[p.key := |s.entries|] && r.entries == s.entries + [Entry(p.key, p.op, [i])]
            && r.calls[i] == Returned(|s.entries|))
  }

  lemma AddAlone(points: seq<Point>, actions: seq<Action>, i: nat, k: Key)
    requires i < |points| && Run(points, actions).cycle.Idle? && Run(points, actions).calls[i].Begin?
    ensures Appended(points, Run(points, actions), Run(points, actions + AddSteps(i)), i)
    ensures SafeRun(points, actions, k) ==> SafeRun(points, actions + AddSteps(i), k)
  {
    RunKeepsInv(points, actions);
    RunThree(points, actions, i, k);
    var s := Run(points, actions);
    var t := Apply(points, s, Advance(i));
    assert t == s.(calls := t.calls);
    var u := Apply(points, t, Advance(i));
    assert u.calls[i].Returned? ==> Apply(points, u, Advance(i)) == u;
  }

  /** One `Add` call, uninterrupted, does to the groups what the method does, from every reachable state with the cycle
      at rest. */
  lemma AddIsWithPoint(points: seq<Point>, actions: seq<Action>, i: nat)
    requires i < |points| && Run(points, actions).cycle.Idle? && Run(points, actions).calls[i].Begin?
    ensures Inv(points, Run(points, actions)) && Inv(points, Run(points, actions + AddSteps(i)))
    ensures Groups(points, Run(points, actions + AddSteps(i)))
      == WithPoint(Groups(points, Run(points, actions)), points[i].key, points[i].op, points[i].value)
  {
    RunKeepsInv(points, actions);
    RunKeepsInv(points, actions + AddSteps(i));
    AddAlone(points, actions, i, points[i].key);
    var s, r := Run(points, actions), Run(points, actions + AddSteps(i));
    AppendedGroups(points, s, r, i);
  }

  lemma OtherGroups(points: seq<Point>, s: State, r: State, i: nat, j: Key)
    requires i < |points| && Inv(points, s) && Inv(points, r)
    requires Appended(points, s, r, i) && j in s.pointMap && j != points[i].key
    ensures j in r.pointMap && GroupOf(points, r, j) == GroupOf(points, s, j)
  {
    assert s.entries[s.pointMap[j]].key == j;
  }

  lemma OwnGroup(points: seq<Point>, s: State, r: State, i: nat)
    requires i < |points| && Inv(points, s) && Inv(points, r) && Appended(points, s, r, i)
    ensures var p := points[i];
      && p.key in r.pointMap
      && GroupOf(points, r, p.key) == if p.key in s.pointMap
         then Group(GroupOf(points, s, p.key).op, GroupOf(points, s, p.key).values + [p.value])
         else Group(p.op, [p.value])
  {
    var k := points[i].key;
    if k in s.pointMap {
      var ids := s.entries[s.pointMap[k]].ids;
      assert Listed(s, s.pointMap[k], ids);
      assert Values(points, ids + [i]) == Values(points, ids) + [points[i].value];
    } else {
      assert Values(points, [i]) == [points[i].value];
    }
  }

  lemma SameWithPoint(g: map<Key, Group>, h: map<Key, Group>, key: Key, op: FlatOperation, v: real)
    requires key in g && (forall j :: j in g <==> j in h || j == key)
    requires forall j :: j in h && j != key ==> g[j] == h[j]
    requires g[key] == if key in h then Group(h[key].op, h[key].values + [v]) else Group(op, [v])
    ensures g == WithPoint(h, key, op, v)
  {
  }

  lemma AppendedGroups(points: seq<Point>, s: State, r: State, i: nat)
    requires i < |points| && Inv(points, s) && Inv(points, r) && Appended(points, s, r, i)
    ensures Groups(points, r) == WithPoint(Groups(points, s), points[i].key, points[i].op, points[i].value)
  {
    OwnGroup(points, s, r, i);
    forall j | j in s.pointMap && j != points[i].key ensures GroupOf(points, r, j) == GroupOf(points, s, j) {
      OtherGroups(points, s, r, i, j);
    }
    SameWithPoint(Groups(points, r), Groups(points, s), points[i].key, points[i].op, points[i].value);
  }

  /** The flattened points of the items, without the bookkeeping. */
  function Flats(items: seq<Item>): seq<Flat> {
    seq(|items|, a requires 0 <= a < |items| => Flat(items[a].key, items[a].value))
  }

  /** What one group contributes to the channel. */
  function Turn(key: Key, g: Group): seq<Flat> {
    if g.values == [] then [] else match FlatValue(g.op, g.values) case Some(v) => [Flat(key, v)] case None => []
  }

  function Turns(groups: map<Key, Group>, keys: seq<Key>): seq<Flat> {
    if keys == [] then [] else
    var key := keys[|keys| - 1];
    Turns(groups, keys[..|keys| - 1]) + if key in groups then Turn(key, groups[key]) else []
  }

  function Only(groups: map<Key, Group>, keys: seq<Key>): map<Key, Group> {
    map j | j in groups && j in keys :: groups[j]
  }

  function Except(groups: map<Key, Group>, keys: seq<Key>): map<Key, Group> {
    map j | j in groups && j !in keys :: groups[j]
  }

  lemma OnlyNext(groups: map<Key, Group>, init: seq<Key>, key: Key)
    ensures Only(groups, init + [key])
      == if key in groups then Only(groups, init)[key := groups[key]] else Only(groups, init)
  {
  }

  lemma TurnFlattens(flats: seq<Flat>, done: map<Key, Group>, key: Key, g: Group)
    requires Flattens(flats, done) && key !in done && g.values != []
    ensures Flattens(flats + Turn(key, g), done[key := g])
  {
    FlattensNext(flats, done, key, g);
  }

  lemma {:induction false} TurnsFlatten(groups: map<Key, Group>, keys: seq<Key>)
    requires Sorting.Distinct(keys) && forall j :: j in groups ==> groups[j].values != []
    ensures Flattens(Turns(groups, keys), Only(groups, keys))
  {
    if keys == [] {
      assert Only(groups, keys) == map[];
    } else {
      var init, key := keys[..|keys| - 1], keys[|keys| - 1];
      TurnsFlatten(groups, init);
      assert keys == init + [key] && key !in init;
      OnlyNext(groups, init, key);
      if key in groups {
        TurnFlattens(Turns(groups, init), Only(groups, init), key, groups[key]);
      } else {
        assert Turns(groups, keys) == Turns(groups, init);
      }
    }
  }

  lemma GroupsWithout(points: seq<Point>, m: State, r: State, key: Key)
    requires Inv(points, m) && Inv(points, r) && r.entries == m.entries
    requires key in m.pointMap && r.pointMap == m.pointMap - {key}
    ensures Groups(points, r) == Groups(points, m) - {key}
  {
    var g, h := Groups(points, r), Groups(points, m) - {key};
    assert g.Keys == h.Keys;
    forall j | j in g ensures g[j] == h[j] {
      assert GroupOf(points, r, j) == GroupOf(points, m, j);
    }
  }

  /** One key's turn in the cycle, as the steps take it. */
  lemma TurnAlone(points: seq<Point>, actions: seq<Action>, key: Key, k: Key)
    requires Run(points, actions).cycle.Idle? && key in Run(points, actions).pointMap
    ensures var s, r := Run(points, actions), Run(points, actions + [Visit(key), Flatten, Push, Delete]);
      && Inv(points, s) && r.cycle.Idle? && r.calls == s.calls && r.entries == s.entries
      && r.pointMap == s.pointMap - {key}
      && Flats(r.items) == Flats(s.items) + Turn(key, GroupOf(points, s, key))
    ensures SafeRun(points, actions, k) && (key == k ==> IsMapped(GroupOf(points, Run(points, actions), key).op)) ==>
      SafeRun(points, actions + [Visit(key), Flatten, Push, Delete], k)
  {
    RunKeepsInv(points, actions);
    RunFour(points, actions, key, k);
    var s := Run(points, actions);
    var e := s.pointMap[key];
    assert Listed(s, e, s.entries[e].ids);
    var r := Run(points, actions + [Visit(key), Flatten, Push, Delete]);
    var it := FlatItem(points, e, s.entries[e]);
    assert r.items == s.items + if it.Some? then [it.value] else [];
  }

  /** What a run of steps since `s` has made of the groups and the channel. */
  ghost predicate Moved(points: seq<Point>, s: State, r: State, groups: map<Key, Group>, flats: seq<Flat>) {
    Inv(points, s) && Inv(points, r) && r.cycle.Idle? && Groups(points, r) == groups
      && Flats(r.items) == Flats(s.items) + flats
  }

  lemma TurnMoves(points: seq<Point>, actions: seq<Action>, key: Key)
    requires Run(points, actions).cycle.Idle?
    ensures var s, r := Run(points, actions), Run(points, actions + [Visit(key), Flatten, Push, Delete]);
      && Inv(points, s)
      && Moved(points, s, r, Groups(points, s) - {key},
               if key in Groups(points, s) then Turn(key, Groups(points, s)[key]) else [])
  {
    var s, r := Run(points, actions), Run(points, actions + [Visit(key), Flatten, Push, Delete]);
    RunKeepsInv(points, actions);
    RunKeepsInv(points, actions + [Visit(key), Flatten, Push, Delete]);
    if key in s.pointMap {
      TurnAlone(points, actions, key, key);
      GroupsWithout(points, s, r, key);
    } else {
      RunFour(points, actions, key, key);
      assert r == s && Groups(points, s) - {key} == Groups(points, s);
    }
  }

  lemma MovedOn(points: seq<Point>, s: State, m: State, r: State,
                g: map<Key, Group>, f: seq<Flat>, h: map<Key, Group>, e: seq<Flat>)
    requires Moved(points, s, m, g, f) && Moved(points, m, r, h, e)
    ensures Moved(points, s, r, h, f + e)
  {
    assert Flats(s.items) + f + e == Flats(s.items) + (f + e);
  }

  lemma TurnsNext(groups: map<Key, Group>, keys: seq<Key>)
    requires Sorting.Distinct(keys) && keys != []
    ensures var init, key := keys[..|keys| - 1], keys[|keys| - 1];
      && Except(groups, keys) == Except(groups, init) - {key}
      && Turns(groups, keys)
         == Turns(groups, init) + if key in Except(groups, init) then Turn(key, Except(groups, init)[key]) else []
  {
    var init, key := keys[..|keys| - 1], keys[|keys| - 1];
    assert keys == init + [key] && key !in init;
  }

  lemma {:induction false} PassMoves(points: seq<Point>, actions: seq<Action>, keys: seq<Key>)
    requires Run(points, actions).cycle.Idle? && Sorting.Distinct(keys)
    ensures var s, r := Run(points, actions), Run(points, actions + PassSteps(keys));
      Inv(points, s) && Moved(points, s, r, Except(Groups(points, s), keys), Turns(Groups(points, s), keys))
  {
    RunKeepsInv(points, actions);
    var g := Groups(points, Run(points, actions));
    if keys == [] {
      assert actions + PassSteps(keys) == actions && Except(g, keys) == g;
    } else {
      var init, key := keys[..|keys| - 1], keys[|keys| - 1];
      var mid := actions + PassSteps(init);
      PassMoves(points, actions, init);
      TurnMoves(points, mid, key);
      assert actions + PassSteps(keys) == mid + [Visit(key), Flatten, Push, Delete];
      TurnsNext(g, keys);
      var h := Except(g, init);
      MovedOn(points, Run(points, actions), Run(points, mid), Run(points, actions + PassSteps(keys)), h, Turns(g, init),
              h - {key}, if key in h then Turn(key, h[key]) else []);
    }
  }

  lemma GroupsHoldValues(points: seq<Point>, s: State)
    requires Inv(points, s)
    ensures forall j :: j in Groups(points, s) ==> Groups(points, s)[j].values != []
  {
    forall j | j in s.pointMap ensures GroupOf(points, s, j).values != [] {
      assert s.entries[s.pointMap[j]].ids != [];
    }
  }

  /** A pass over a listing of the whole map, uninterrupted, does what the method does: the map is empty and the new
      items flatten the groups it held, from every reachable state with the cycle at rest. */
  lemma PassIsRunCycle(points: seq<Point>, actions: seq<Action>, keys: seq<Key>)
    requires Run(points, actions).cycle.Idle? && Sorting.Distinct(keys)
    requires forall j :: j in Run(points, actions).pointMap ==> j in keys
    ensures var s, r := Run(points, actions), Run(points, actions + PassSteps(keys));
      && Inv(points, s) && Moved(points, s, r, map[], Turns(Groups(points, s), keys))
      && Flattens(Turns(Groups(points, s), keys), Groups(points, s))
  {
    PassMoves(points, actions, keys);
    var g := Groups(points, Run(points, actions));
    GroupsHoldValues(points, Run(points, actions));
    TurnsFlatten(g, keys);
    assert Only(g, keys) == g && Except(g, keys) == map[];
  }

  // ---------- uninterrupted runs ----------

  datatype Op = AddPoint(i: nat) | Pass(keys: seq<Key>)

  function StepsOfOp(op: Op): seq<Action> {
    match op
    case AddPoint(i) => AddSteps(i)
    case Pass(keys) => PassSteps(keys)
  }

  /** Adds and passes one after the other. */
  function StepsOf(ops: seq<Op>): seq<Action> {
    if ops == [] then [] else StepsOf(ops[..|ops| - 1]) + StepsOfOp(ops[|ops| - 1])
  }

  ghost predicate AtRest(s: State) {
    s.cycle.Idle? && forall i :: 0 <= i < |s.calls| ==> s.calls[i].Begin? || s.calls[i].Returned?
  }

  lemma AddRests(points: seq<Point>, actions: seq<Action>, i: nat, k: Key)
    requires AtRest(Run(points, actions))
    ensures AtRest(Run(points, actions + AddSteps(i)))
    ensures SafeRun(points, actions, k) ==> SafeRun(points, actions + AddSteps(i), k)
  {
    if i < |points| && Run(points, actions).calls[i].Begin? {
      AddAlone(points, actions, i, k);
    } else {
      RunThree(points, actions, i, k);
    }
  }

  lemma TurnRests(points: seq<Point>, actions: seq<Action>, key: Key, k: Key)
    requires AtRest(Run(points, actions)) && OpsOf(points, k, IsMapped)
    ensures AtRest(Run(points, actions + [Visit(key), Flatten, Push, Delete]))
    ensures SafeRun(points, actions, k) ==> SafeRun(points, actions + [Visit(key), Flatten, Push, Delete], k)
  {
    if key in Run(points, actions).pointMap {
      RunKeepsInv(points, actions);
      EntriesKeepOps(points, actions, k, IsMapped);
      TurnAlone(points, actions, key, k);
    } else {
      RunFour(points, actions, key, k);
    }
  }

  lemma {:induction false} PassRests(points: seq<Point>, actions: seq<Action>, keys: seq<Key>, k: Key)
    requires AtRest(Run(points, actions)) && OpsOf(points, k, IsMapped)
    ensures AtRest(Run(points, actions + PassSteps(keys)))
    ensures SafeRun(points, actions, k) ==> SafeRun(points, actions + PassSteps(keys), k)
  {
    if keys == [] {
      assert actions + PassSteps(keys) == actions;
    } else {
      var init, key := keys[..|keys| - 1], keys[|keys| - 1];
      PassRests(points, actions, init, k);
      TurnRests(points, actions + PassSteps(init), key, k);
      assert actions + PassSteps(keys) == actions + PassSteps(init) + [Visit(key), Flatten, Push, Delete];
    }
  }

  /** Adds and passes that never overlap are safe, so they lose nothing. */
  lemma {:induction false} UninterruptedIsSafe(points: seq<Point>, ops: seq<Op>, k: Key)
    requires OpsOf(points, k, IsMapped)
    ensures AtRest(Run(points, StepsOf(ops))) && SafeRun(points, StepsOf(ops), k)
  {
    if ops != [] {
      var before, op := ops[..|ops| - 1], ops[|ops| - 1];
      UninterruptedIsSafe(points, before, k);
      match op {
        case AddPoint(i) => AddRests(points, StepsOf(before), i, k);
        case Pass(keys) => PassRests(points, StepsOf(before), keys, k);
      }
    }
  }

  class Flattener {
    var pointMap: map<Key, Group>

    /** Every entry reachable through `Add` holds a value, so `flatten` never meets an empty list. */
    ghost predicate Valid()
      reads this
    {
      forall k :: k in pointMap ==> pointMap[k].values != []
    }

    constructor ()
      ensures Valid() && pointMap == map[]
    {
      pointMap := map[];
    }

    method Add(key: Key, op: FlatOperation, v: real)
      requires Valid()
      modifies this
      ensures Valid() && pointMap == WithPoint(old(pointMap), key, op, v)
    {
      if key in pointMap {
        var entry := pointMap[key];
        pointMap := pointMap[key := Group(entry.op, entry.values + [v])];
      } else {
        pointMap := pointMap[key := Group(op, [v])];
      }
    }

    /** One pass of `beginCycle`; the items go to the data channel in the order of the pass. */
    method RunCycle() returns (items: seq<Flat>)
      requires Valid()
      modifies this
      ensures pointMap == map[] && Flattens(items, old(pointMap))
    {
      items := [];
      ghost var done: map<Key, Group> := map[];
      while pointMap != map[]
        invariant Valid() && Flattens(items, done)
        invariant Parts(pointMap, done, old(pointMap))
        decreases |pointMap|
      {
        var k :| k in pointMap;
        var entry := pointMap[k];
        var value := Flattening.Flatten(entry.op, entry.values);
        MoveOne(pointMap, done, old(pointMap), k);
        FlattensNext(items, done, k, entry);
        items := items + if value.Some? then [Flat(k, value.value)] else [];
        done := done[k := entry];
        pointMap := pointMap - {k};
      }
      assert done == old(pointMap);
    }
  }
}
