/** Concurrent `Add` calls against the flattening cycle (timeline/flattener.go), one shared access per
    step. An `Add` may hold an entry the cycle has already
    removed from the map, so entries live in a heap and the map refers to them. */
module Flattener {
  import opened Options
  import opened Flattening
  import Sorting

  type Key = string

  /** The point of one `Add` call: its group key is the hash of its parameters. */
  datatype Point = Point(key: Key, op: FlatOperation, value: real)

  /** A map entry; `ids` names the `Add` calls whose values it lists. */
  datatype Entry = Entry(key: Key, op: FlatOperation, ids: seq<nat>)

  /** A flattened point on its way to the channel. */
  datatype Item = Item(entry: nat, key: Key, op: FlatOperation, ids: seq<nat>, value: real)

  /** An `Add` call: before its load; holding an entry; holding the list it read; about to store a new
      entry; finished, with its value written into `e`. */
  datatype Call = Begin | Found(e: nat) | Read(e: nat, list: seq<nat>) | Missing | Returned(e: nat)

  datatype Cycle =
    | Idle
    | Visiting(key: Key, e: nat)
    | Flattened(key: Key, e: nat, item: Option<Item>)
    | Pushed(key: Key, e: nat)

  /** `done` collects the entries handed to `flatten`; `log` lists the calls in the order they wrote. */
  datatype State = State(entries: seq<Entry>, pointMap: map<Key, nat>, calls: seq<Call>, cycle: Cycle,
                         items: seq<Item>, done: set<nat>, log: seq<nat>)

  datatype Action = Advance(i: nat) | Visit(key: Key) | Flatten | Push | Delete

  function Init(n: nat): State {
    State([], map[], seq(n, _ => Begin), Idle, [], {}, [])
  }

  function Values(points: seq<Point>, ids: seq<nat>): seq<real>
    requires forall j :: 0 <= j < |ids| ==> ids[j] < |points|
  {
    seq(|ids|, j requires 0 <= j < |ids| => points[ids[j]].value)
  }

  predicate InRange(ids: seq<nat>, n: nat) {
    forall j :: 0 <= j < |ids| ==> ids[j] < n
  }

  /** `flatten`, applied to entry `e`. */
  function FlatItem(points: seq<Point>, e: nat, entry: Entry): Option<Item> {
    if entry.ids == [] || !InRange(entry.ids, |points|) then None else
    var v := FlatValue(entry.op, Values(points, entry.ids));
    if v.Some? then Some(Item(e, entry.key, entry.op, entry.ids, v.value)) else None
  }

  function AdvanceCall(points: seq<Point>, s: State, i: nat): State
    requires i < |s.calls| == |points|
  {
    var p := points[i];
    match s.calls[i]
    case Begin =>
      s.(calls := s.calls[i := if p.key in s.pointMap then Found(s.pointMap[p.key]) else Missing])
    case Found(e) =>
      if e < |s.entries| then s.(calls := s.calls[i := Read(e, s.entries[e].ids)]) else s
    case Read(e, list) =>
      if e < |s.entries| then
        s.(entries := s.entries[e := s.entries[e].(ids := list + [i])],
           calls := s.calls[i := Returned(e)], log := s.log + [i])
      else s
    case Missing =>
      var e := |s.entries|;
      s.(entries := s.entries + [Entry(p.key, p.op, [i])], pointMap := s.pointMap[p.key := e],
         calls := s.calls[i := Returned(e)], log := s.log + [i])
    case Returned(_) => s
  }

  function Apply(points: seq<Point>, s: State, a: Action): State
    requires |s.calls| == |points|
  {
    match a
    case Advance(i) => if i < |s.calls| then AdvanceCall(points, s, i) else s
    case Visit(k) => if s.cycle.Idle? && k in s.pointMap then s.(cycle := Visiting(k, s.pointMap[k])) else s
    case Flatten =>
      if s.cycle.Visiting? && s.cycle.e < |s.entries| then
        var e := s.cycle.e;
        s.(cycle := Flattened(s.cycle.key, e, FlatItem(points, e, s.entries[e])), done := s.done + {e})
      else s
    case Push =>
      if s.cycle.Flattened? then
        s.(cycle := Pushed(s.cycle.key, s.cycle.e),
           items := s.items + if s.cycle.item.Some? then [s.cycle.item.value] else [])
      else s
    case Delete => if s.cycle.Pushed? then s.(cycle := Idle, pointMap := s.pointMap - {s.cycle.key}) else s
  }

  function Run(points: seq<Point>, actions: seq<Action>): (r: State)
    ensures |r.calls| == |points|
  {
    if actions == [] then Init(|points|)
    else Apply(points, Run(points, actions[..|actions| - 1]), actions[|actions| - 1])
  }

  // ---------- at most once, in every interleaving ----------

  /** `ids` lists finished calls that wrote to `e`, none twice. */
  ghost predicate Listed(s: State, e: nat, ids: seq<nat>) {
    Sorting.Distinct(ids) && forall j :: 0 <= j < |ids| ==> ids[j] < |s.calls| && s.calls[ids[j]] == Returned(e)
  }

  ghost predicate EntriesInv(points: seq<Point>, s: State) {
    && (forall e :: 0 <= e < |s.entries| ==> s.entries[e].ids != [] && Listed(s, e, s.entries[e].ids))
    && (forall k :: k in s.pointMap ==> s.pointMap[k] < |s.entries| && s.entries[s.pointMap[k]].key == k)
  }

  ghost predicate CallsInv(points: seq<Point>, s: State)
    requires |s.calls| == |points|
  {
    forall i :: 0 <= i < |s.calls| ==>
      var c := s.calls[i];
      && (c.Found? || c.Read? || c.Returned? ==> c.e < |s.entries| && s.entries[c.e].key == points[i].key)
      && (c.Read? ==> Listed(s, c.e, c.list))
  }

  ghost predicate LogInv(s: State) {
    Sorting.Distinct(s.log) && InRange(s.log, |s.calls|)
    && forall i :: 0 <= i < |s.calls| ==> (s.calls[i].Returned? <==> i in s.log)
  }

  ghost predicate ItemInv(points: seq<Point>, s: State, it: Item)
    requires |s.calls| == |points|
  {
    && it.entry in s.done && it.entry < |s.entries| && s.entries[it.entry].key == it.key
    && s.entries[it.entry].op == it.op
    && it.ids != [] && Listed(s, it.entry, it.ids)
    && FlatValue(it.op, Values(points, it.ids)) == Some(it.value)
  }

  ghost predicate ItemsInv(points: seq<Point>, s: State)
    requires |s.calls| == |points|
  {
    && (forall a :: 0 <= a < |s.items| ==> ItemInv(points, s, s.items[a]))
    && (forall a, b :: 0 <= a < b < |s.items| ==> s.items[a].entry != s.items[b].entry)
  }

  ghost predicate CycleInv(points: seq<Point>, s: State)
    requires |s.calls| == |points|
  {
    var c := s.cycle;
    && (forall k :: k in s.pointMap && s.pointMap[k] in s.done ==>
          (c.Flattened? || c.Pushed?) && c.key == k && c.e == s.pointMap[k])
    && (c.Idle? || (c.e < |s.entries| && s.entries[c.e].key == c.key))
    && (c.Visiting? ==> c.e !in s.done)
    && (c.Flattened? || c.Pushed? ==> c.e in s.done)
    && (c.Flattened? && c.item.Some? ==> c.item.value.entry == c.e && ItemInv(points, s, c.item.value))
    && (c.Flattened? ==> forall a :: 0 <= a < |s.items| ==> s.items[a].entry != c.e)
    && (forall e :: e in s.done ==> e < |s.entries|)
  }

  ghost predicate Inv(points: seq<Point>, s: State) {
    |s.calls| == |points| && EntriesInv(points, s) && CallsInv(points, s) && LogInv(s) && ItemsInv(points, s)
      && CycleInv(points, s)
  }

  /** What a step leaves alone: finished calls, and the keys and operations of entries. */
  ghost predicate Grows(s: State, r: State) {
    && |r.calls| == |s.calls| && |s.entries| <= |r.entries| && s.done <= r.done
    && (forall i :: 0 <= i < |s.calls| && s.calls[i].Returned? ==> r.calls[i] == s.calls[i])
    && (forall e :: 0 <= e < |s.entries| ==> r.entries[e].key == s.entries[e].key && r.entries[e].op == s.entries[e].op)
  }

  lemma ListedGrows(s: State, r: State, e: nat, ids: seq<nat>)
    requires Grows(s, r) && Listed(s, e, ids)
    ensures Listed(r, e, ids)
  {
  }

  lemma ItemGrows(points: seq<Point>, s: State, r: State, it: Item)
    requires |s.calls| == |points| && Grows(s, r) && ItemInv(points, s, it)
    ensures ItemInv(points, r, it)
  {
    ListedGrows(s, r, it.entry, it.ids);
  }

  lemma ItemsGrow(points: seq<Point>, s: State, r: State)
    requires |s.calls| == |points| && Grows(s, r) && ItemsInv(points, s) && r.items == s.items
    ensures ItemsInv(points, r)
  {
    forall a | 0 <= a < |s.items| ensures ItemInv(points, r, r.items[a]) { ItemGrows(points, s, r, s.items[a]); }
  }

  lemma AdvanceGrows(points: seq<Point>, s: State, i: nat)
    requires Inv(points, s) && i < |s.calls|
    ensures Grows(s, AdvanceCall(points, s, i))
  {
  }

  lemma AdvanceKeepsEntries(points: seq<Point>, s: State, i: nat)
    requires Inv(points, s) && i < |s.calls|
    ensures EntriesInv(points, AdvanceCall(points, s, i))
  {
    var r := AdvanceCall(points, s, i);
    AdvanceGrows(points, s, i);
    forall e | 0 <= e < |s.entries| && r.entries[e] == s.entries[e] ensures Listed(r, e, r.entries[e].ids) {
      ListedGrows(s, r, e, s.entries[e].ids);
    }
    if s.calls[i].Read? {
      ListedGrows(s, r, s.calls[i].e, s.calls[i].list);
    }
  }

  lemma AdvanceKeepsCalls(points: seq<Point>, s: State, i: nat)
    requires Inv(points, s) && i < |s.calls|
    ensures CallsInv(points, AdvanceCall(points, s, i)) && LogInv(AdvanceCall(points, s, i))
  {
    var r := AdvanceCall(points, s, i);
    AdvanceGrows(points, s, i);
    forall j | 0 <= j < |r.calls| && r.calls[j].Read? ensures Listed(r, r.calls[j].e, r.calls[j].list) {
      if j == i { ListedGrows(s, r, r.calls[j].e, s.entries[r.calls[j].e].ids); }
      else { ListedGrows(s, r, s.calls[j].e, s.calls[j].list); }
    }
  }

  lemma AdvanceKeepsCycle(points: seq<Point>, s: State, i: nat)
    requires Inv(points, s) && i < |s.calls|
    ensures CycleInv(points, AdvanceCall(points, s, i))
  {
    var r := AdvanceCall(points, s, i);
    AdvanceGrows(points, s, i);
    if s.cycle.Flattened? && s.cycle.item.Some? { ItemGrows(points, s, r, s.cycle.item.value); }
  }

  lemma CycleStepKeepsLists(points: seq<Point>, s: State, a: Action)
    requires Inv(points, s) && !a.Advance?
    ensures EntriesInv(points, Apply(points, s, a))
    ensures CallsInv(points, Apply(points, s, a)) && LogInv(Apply(points, s, a))
  {
    var r := Apply(points, s, a);
    assert Grows(s, r);
    forall e | 0 <= e < |s.entries| ensures Listed(r, e, r.entries[e].ids) { ListedGrows(s, r, e, s.entries[e].ids); }
    forall j | 0 <= j < |r.calls| && r.calls[j].Read? ensures Listed(r, r.calls[j].e, r.calls[j].list) {
      ListedGrows(s, r, s.calls[j].e, s.calls[j].list);
    }
  }

  lemma CycleStepKeepsItems(points: seq<Point>, s: State, a: Action)
    requires Inv(points, s) && !a.Advance?
    ensures ItemsInv(points, Apply(points, s, a)) && CycleInv(points, Apply(points, s, a))
  {
    var r := Apply(points, s, a);
    assert Grows(s, r);
    forall j | 0 <= j < |s.items| ensures ItemInv(points, r, s.items[j]) { ItemGrows(points, s, r, s.items[j]); }
    if s.cycle.Flattened? && s.cycle.item.Some? { ItemGrows(points, s, r, s.cycle.item.value); }
  }

  lemma {:induction false} RunKeepsInv(points: seq<Point>, actions: seq<Action>)
    ensures Inv(points, Run(points, actions))
  {
    if actions != [] {
      RunKeepsInv(points, actions[..|actions| - 1]);
      var s, a := Run(points, actions[..|actions| - 1]), actions[|actions| - 1];
      if a.Advance? {
        if a.i < |s.calls| {
          AdvanceGrows(points, s, a.i);
          AdvanceKeepsEntries(points, s, a.i);
          AdvanceKeepsCalls(points, s, a.i);
          AdvanceKeepsCycle(points, s, a.i);
          ItemsGrow(points, s, AdvanceCall(points, s, a.i));
        }
      } else {
        CycleStepKeepsLists(points, s, a);
        CycleStepKeepsItems(points, s, a);
      }
    }
  }

  /** No call is counted twice, in two items or in one. */
  ghost predicate CountedOnce(items: seq<Item>) {
    forall a, b, x, y :: 0 <= a < |items| && 0 <= b < |items| && 0 <= x < |items[a].ids| && 0 <= y < |items[b].ids| ==>
      items[a].ids[x] == items[b].ids[y] ==> a == b && x == y
  }

  /** Every counted value was added under the item's key, and the item's value flattens exactly those values. */
  ghost predicate Faithful(points: seq<Point>, it: Item) {
    && it.ids != [] && InRange(it.ids, |points|)
    && (forall x :: 0 <= x < |it.ids| ==> points[it.ids[x]].key == it.key)
    && FlatValue(it.op, Values(points, it.ids)) == Some(it.value)
  }

  /** In every interleaving no added value is counted in two emitted items, or twice in one. */
  lemma AtMostOnce(points: seq<Point>, actions: seq<Action>)
    ensures CountedOnce(Run(points, actions).items)
    ensures forall a :: 0 <= a < |Run(points, actions).items| ==> Faithful(points, Run(points, actions).items[a])
  {
    RunKeepsInv(points, actions);
    var s := Run(points, actions);
    forall a, b, x, y | 0 <= a < |s.items| && 0 <= b < |s.items| && 0 <= x < |s.items[a].ids|
      && 0 <= y < |s.items[b].ids|
      ensures s.items[a].ids[x] == s.items[b].ids[y] ==> a == b && x == y
    {
      assert ItemInv(points, s, s.items[a]) && ItemInv(points, s, s.items[b]);
      assert s.calls[s.items[a].ids[x]] == Returned(s.items[a].entry)
        && s.calls[s.items[b].ids[y]] == Returned(s.items[b].entry);
    }
    forall a | 0 <= a < |s.items| ensures Faithful(points, s.items[a]) {
      assert ItemInv(points, s, s.items[a]);
    }
  }

  // ---------- exactly once, and exactly when ----------

  /** The cycle is past reading the entry of `k` and has not yet removed it. */
  predicate Closing(c: Cycle, k: Key) {
    (c.Flattened? || c.Pushed?) && c.key == k
  }

  /** The write a call of key `k` is about to make finds the map and the list as the call saw them, and what the cycle
      is about to flatten has a mapped operation. */
  ghost predicate Safe(points: seq<Point>, s: State, a: Action, k: Key)
    requires |s.calls| == |points|
  {
    && (a.Advance? && a.i < |s.calls| && points[a.i].key == k ==>
          match s.calls[a.i]
          case Read(e, list) => !Closing(s.cycle, k) && k in s.pointMap && s.pointMap[k] == e
            && (e < |s.entries| ==> list == s.entries[e].ids)
          case Missing => k !in s.pointMap
          case _ => true)
    && (a.Flatten? && s.cycle.Visiting? && s.cycle.key == k && s.cycle.e < |s.entries| ==>
          IsMapped(s.entries[s.cycle.e].op))
  }

  ghost predicate SafeRun(points: seq<Point>, actions: seq<Action>, k: Key) {
    actions == [] || (SafeRun(points, actions[..|actions| - 1], k)
                      && Safe(points, Run(points, actions[..|actions| - 1]), actions[|actions| - 1], k))
  }

  /** The calls of `log` under key `k`, in order. */
  function Added(points: seq<Point>, log: seq<nat>, k: Key): seq<nat>
    requires InRange(log, |points|)
  {
    if log == [] then []
    else Added(points, log[..|log| - 1], k) + if points[log[|log| - 1]].key == k then [log[|log| - 1]] else []
  }

  function Emitted(items: seq<Item>, k: Key): seq<nat> {
    if items == [] then []
    else Emitted(items[..|items| - 1], k) + if items[|items| - 1].key == k then items[|items| - 1].ids else []
  }

  /** Flattened and waiting for room in the channel. */
  function Held(s: State, k: Key): seq<Item> {
    if s.cycle.Flattened? && s.cycle.key == k && s.cycle.item.Some? then [s.cycle.item.value] else []
  }

  /** Listed in the map and not flattened yet. */
  function Pending(s: State, k: Key): seq<nat> {
    if k in s.pointMap && !Closing(s.cycle, k) && s.pointMap[k] < |s.entries| then s.entries[s.pointMap[k]].ids else []
  }

  /** Everything added under `k`, wherever it is now, oldest first. */
  function Accounted(s: State, k: Key): seq<nat> {
    Emitted(s.items, k) + Emitted(Held(s, k), k) + Pending(s, k)
  }

  /** The cycle works on the entry the map holds, and a list once read only grows. */
  ghost predicate KeyInv(points: seq<Point>, s: State, k: Key)
    requires |s.calls| == |points|
  {
    && (!s.cycle.Idle? && s.cycle.key == k ==> k in s.pointMap && s.pointMap[k] == s.cycle.e)
    && (forall i :: 0 <= i < |s.calls| && points[i].key == k && s.calls[i].Read? ==>
          s.calls[i].e < |s.entries| && s.calls[i].list <= s.entries[s.calls[i].e].ids)
  }

  /** All points of key `k` carry an operation that satisfies `ok`. */
  ghost predicate OpsOf(points: seq<Point>, k: Key, ok: FlatOperation -> bool) {
    forall i :: 0 <= i < |points| && points[i].key == k ==> ok(points[i].op)
  }

  ghost predicate EntryOps(s: State, k: Key, ok: FlatOperation -> bool) {
    forall e :: 0 <= e < |s.entries| && s.entries[e].key == k ==> ok(s.entries[e].op)
  }

  lemma {:induction false} EntriesKeepOps(points: seq<Point>, actions: seq<Action>, k: Key, ok: FlatOperation -> bool)
    requires OpsOf(points, k, ok)
    ensures EntryOps(Run(points, actions), k, ok)
  {
    if actions != [] { EntriesKeepOps(points, actions[..|actions| - 1], k, ok); }
  }

  predicate IsMapped(op: FlatOperation) {
    !op.Unmapped?
  }

  lemma AddedStep(points: seq<Point>, log: seq<nat>, i: nat, k: Key)
    requires InRange(log, |points|) && i < |points|
    ensures Added(points, log + [i], k) == Added(points, log, k) + if points[i].key == k then [i] else []
  {
    assert (log + [i])[..|log|] == log;
  }

  lemma EmittedStep(items: seq<Item>, it: Item, k: Key)
    ensures Emitted(items + [it], k) == Emitted(items, k) + if it.key == k then it.ids else []
    ensures Emitted([it], k) == if it.key == k then it.ids else []
  {
    assert (items + [it])[..|items|] == items && [it][..0] == [];
  }

  lemma OtherAdvanceKeepsAccounted(points: seq<Point>, s: State, i: nat, k: Key)
    requires i < |s.calls| == |points| && points[i].key != k
    requires s.calls[i].Read? ==> s.calls[i].e < |s.entries| && s.entries[s.calls[i].e].key != k
    requires k in s.pointMap ==> s.pointMap[k] < |s.entries| && s.entries[s.pointMap[k]].key == k
    ensures Accounted(AdvanceCall(points, s, i), k) == Accounted(s, k)
  {
    var r := AdvanceCall(points, s, i);
    assert r.items == s.items && Held(r, k) == Held(s, k) && Pending(r, k) == Pending(s, k);
  }

  /** An own step accounts for exactly what it adds if and only if it is safe; else something is missing. */
  lemma OwnAdvanceAccountsIff(points: seq<Point>, s: State, i: nat, k: Key)
    requires Inv(points, s) && KeyInv(points, s, k) && i < |s.calls| && points[i].key == k
    ensures var r, add := AdvanceCall(points, s, i), if s.calls[i].Read? || s.calls[i].Missing? then [i] else [];
      && (Safe(points, s, Advance(i), k) ==> Accounted(r, k) == Accounted(s, k) + add)
      && (!Safe(points, s, Advance(i), k) ==> |Accounted(r, k)| < |Accounted(s, k)| + |add|)
  {
    var r, c := AdvanceCall(points, s, i), s.calls[i];
    assert Held(r, k) == Held(s, k) && r.items == s.items;
    if k in s.pointMap { assert s.entries[s.pointMap[k]].ids != []; }
    if Safe(points, s, Advance(i), k) {
      assert Pending(r, k) == Pending(s, k) + if c.Read? || c.Missing? then [i] else [];
    } else {
      assert |Pending(r, k)| <= |Pending(s, k)|;
    }
  }

  lemma AdvanceKeepsKey(points: seq<Point>, s: State, i: nat, k: Key)
    requires Inv(points, s) && KeyInv(points, s, k) && i < |s.calls| && Safe(points, s, Advance(i), k)
    ensures KeyInv(points, AdvanceCall(points, s, i), k)
  {
    var r := AdvanceCall(points, s, i);
    forall j | 0 <= j < |r.calls| && points[j].key == k && r.calls[j].Read?
      ensures r.calls[j].e < |r.entries| && r.calls[j].list <= r.entries[r.calls[j].e].ids
    {
      if j != i { assert r.calls[j] == s.calls[j]; }
    }
  }

  lemma FlatItemOf(points: seq<Point>, e: nat, entry: Entry)
    requires entry.ids != [] && InRange(entry.ids, |points|)
    ensures var it := FlatItem(points, e, entry);
      (it.Some? <==> IsMapped(entry.op)) && (it.Some? ==> it.value.ids == entry.ids && it.value.key == entry.key)
  {
  }

  /** What flattening does to the account: the pending values of `k` become those of the item, if there is one. */
  lemma FlattenMoves(points: seq<Point>, s: State, k: Key)
    requires |s.calls| == |points| && s.cycle.Visiting? && s.cycle.key == k
    requires k in s.pointMap && s.pointMap[k] == s.cycle.e < |s.entries|
    ensures Accounted(s, k) == Emitted(s.items, k) + s.entries[s.cycle.e].ids
    ensures var it := FlatItem(points, s.cycle.e, s.entries[s.cycle.e]);
      Accounted(Apply(points, s, Flatten), k) == Emitted(s.items, k) + if it.Some? then Emitted([it.value], k) else []
  {
    var r, it := Apply(points, s, Flatten), FlatItem(points, s.cycle.e, s.entries[s.cycle.e]);
    assert r.items == s.items && Held(s, k) == [] && Pending(s, k) == s.entries[s.cycle.e].ids && Pending(r, k) == [];
    assert Held(r, k) == if it.Some? then [it.value] else [];
    assert forall x: seq<nat> :: x + [] == x;
  }

  /** Flattening keeps account of the values if and only if the operation is mapped; else it drops them. */
  lemma FlattenAccountsIff(points: seq<Point>, s: State, k: Key)
    requires |s.calls| == |points| && s.cycle.Visiting? && s.cycle.key == k
    requires k in s.pointMap && s.pointMap[k] == s.cycle.e < |s.entries|
    requires var entry := s.entries[s.cycle.e]; entry.ids != [] && InRange(entry.ids, |points|) && entry.key == k
    ensures var r, op := Apply(points, s, Flatten), s.entries[s.cycle.e].op;
      && (IsMapped(op) ==> Accounted(r, k) == Accounted(s, k))
      && (!IsMapped(op) ==> |Accounted(r, k)| < |Accounted(s, k)|)
  {
    var e, entry := s.cycle.e, s.entries[s.cycle.e];
    FlattenMoves(points, s, k);
    FlatItemOf(points, e, entry);
    var it := FlatItem(points, e, entry);
    if it.Some? { EmittedStep([], it.value, k); }
  }

  lemma PushKeepsAccounted(points: seq<Point>, s: State, k: Key)
    requires |s.calls| == |points| && s.cycle.Flattened?
    requires s.cycle.item.Some? ==> s.cycle.item.value.key == s.cycle.key
    ensures Accounted(Apply(points, s, Push), k) == Accounted(s, k)
  {
    var r := Apply(points, s, Push);
    assert Pending(r, k) == Pending(s, k) && Held(r, k) == [];
    if s.cycle.item.Some? {
      EmittedStep(s.items, s.cycle.item.value, k);
    } else {
      assert r.items == s.items;
    }
  }

  lemma CycleAccountsIff(points: seq<Point>, s: State, a: Action, k: Key)
    requires Inv(points, s) && KeyInv(points, s, k) && !a.Advance?
    ensures Safe(points, s, a, k) ==> Accounted(Apply(points, s, a), k) == Accounted(s, k)
    ensures !Safe(points, s, a, k) ==> |Accounted(Apply(points, s, a), k)| < |Accounted(s, k)|
  {
    if a.Flatten? && s.cycle.Visiting? && s.cycle.key == k {
      assert Listed(s, s.cycle.e, s.entries[s.cycle.e].ids);
      FlattenAccountsIff(points, s, k);
    } else if a.Push? && s.cycle.Flattened? {
      PushKeepsAccounted(points, s, k);
    } else {
      var r := Apply(points, s, a);
      assert r.items == s.items && Held(r, k) == Held(s, k) && Pending(r, k) == Pending(s, k);
    }
  }

  lemma AdvanceAccountsIff(points: seq<Point>, s: State, i: nat, k: Key)
    requires Inv(points, s) && KeyInv(points, s, k) && i < |s.calls| && InRange(AdvanceCall(points, s, i).log, |points|)
    requires Added(points, s.log, k) == Accounted(s, k)
    ensures var r := AdvanceCall(points, s, i);
      && (Safe(points, s, Advance(i), k) ==> Added(points, r.log, k) == Accounted(r, k))
      && (!Safe(points, s, Advance(i), k) ==> |Accounted(r, k)| < |Added(points, r.log, k)|)
  {
    AddedStep(points, s.log, i, k);
    if points[i].key == k {
      OwnAdvanceAccountsIff(points, s, i, k);
    } else {
      OtherAdvanceKeepsAccounted(points, s, i, k);
    }
  }

  lemma StepAccountsIff(points: seq<Point>, s: State, a: Action, k: Key)
    requires Inv(points, s) && KeyInv(points, s, k) && InRange(Apply(points, s, a).log, |points|)
    requires Added(points, s.log, k) == Accounted(s, k)
    ensures var r := Apply(points, s, a);
      && (Safe(points, s, a, k) ==> Added(points, r.log, k) == Accounted(r, k))
      && (!Safe(points, s, a, k) ==> |Accounted(r, k)| < |Added(points, r.log, k)|)
  {
    if !a.Advance? {
      CycleAccountsIff(points, s, a, k);
      assert Apply(points, s, a).log == s.log;
    } else if a.i < |s.calls| {
      AdvanceAccountsIff(points, s, a.i, k);
    }
  }

  lemma StepKeepsKey(points: seq<Point>, s: State, a: Action, k: Key)
    requires Inv(points, s) && KeyInv(points, s, k) && Safe(points, s, a, k)
    ensures KeyInv(points, Apply(points, s, a), k)
  {
    if a.Advance? {
      if a.i < |s.calls| { AdvanceKeepsKey(points, s, a.i, k); }
    }
  }

  lemma LogInRange(points: seq<Point>, actions: seq<Action>)
    ensures LogInv(Run(points, actions)) && InRange(Run(points, actions).log, |points|)
  {
    RunKeepsInv(points, actions);
  }

  lemma {:induction false} SafeRunKeepsKey(points: seq<Point>, actions: seq<Action>, k: Key)
    requires SafeRun(points, actions, k)
    ensures KeyInv(points, Run(points, actions), k)
  {
    if actions != [] {
      SafeRunKeepsKey(points, actions[..|actions| - 1], k);
      RunKeepsInv(points, actions[..|actions| - 1]);
      StepKeepsKey(points, Run(points, actions[..|actions| - 1]), actions[|actions| - 1], k);
    }
  }

  /** In a safe run, the values added under `k` are, in order, those in emitted items, those of the item waiting for
      the channel, and those pending in the map: each exactly once. */
  lemma {:induction false} ExactlyOnce(points: seq<Point>, actions: seq<Action>, k: Key)
    requires SafeRun(points, actions, k)
    ensures LogInv(Run(points, actions)) && InRange(Run(points, actions).log, |points|)
    ensures var s := Run(points, actions);
      Added(points, s.log, k) == Emitted(s.items, k) + Emitted(Held(s, k), k) + Pending(s, k)
  {
    LogInRange(points, actions);
    if actions != [] {
      var before := actions[..|actions| - 1];
      ExactlyOnce(points, before, k);
      RunKeepsInv(points, before);
      SafeRunKeepsKey(points, before, k);
      StepAccountsIff(points, Run(points, before), actions[|actions| - 1], k);
    }
  }

  /** The number of values added under `k` is the number emitted, waiting and pending, at every moment of the run. */
  ghost predicate NeverShort(points: seq<Point>, actions: seq<Action>, k: Key) {
    && InRange(Run(points, actions).log, |points|)
    && |Added(points, Run(points, actions).log, k)| == |Accounted(Run(points, actions), k)|
    && (actions == [] || NeverShort(points, actions[..|actions| - 1], k))
  }

  /** At every moment of the run, the values added under `k` are, in order, those emitted, waiting and pending. */
  ghost predicate AlwaysExact(points: seq<Point>, actions: seq<Action>, k: Key) {
    && InRange(Run(points, actions).log, |points|)
    && Added(points, Run(points, actions).log, k) == Accounted(Run(points, actions), k)
    && (actions == [] || AlwaysExact(points, actions[..|actions| - 1], k))
  }

  /** Exactly when nothing gets lost, over every interleaving: every value is accounted for at every moment, in order
      or merely in number, if and only if every write finds the map and the list as its call saw them and every
      flattened entry has a mapped operation. */
  lemma {:induction false} ExactlyOnceIff(points: seq<Point>, actions: seq<Action>, k: Key)
    ensures AlwaysExact(points, actions, k) <==> SafeRun(points, actions, k)
    ensures NeverShort(points, actions, k) <==> SafeRun(points, actions, k)
  {
    LogInRange(points, actions);
    if actions != [] {
      var before, a := actions[..|actions| - 1], actions[|actions| - 1];
      ExactlyOnceIff(points, before, k);
      if SafeRun(points, before, k) {
        ExactlyOnce(points, before, k);
        RunKeepsInv(points, before);
        SafeRunKeepsKey(points, before, k);
        StepAccountsIff(points, Run(points, before), a, k);
      }
    }
  }

  // ---------- exclusion per key is enough ----------

  predicate Busy(c: Call) {
    c.Found? || c.Read? || c.Missing?
  }

  ghost predicate NoneBusy(points: seq<Point>, s: State, k: Key)
    requires |s.calls| == |points|
  {
    forall i :: 0 <= i < |s.calls| && points[i].key == k ==> !Busy(s.calls[i])
  }

  /** Exclusion for key `k`: an `Add` starts only when no other `Add` of `k` is under way and the cycle is
      not between flattening and deleting `k`; the cycle flattens `k` only when no `Add` of `k` is under way. */
  ghost predicate Exclusive(points: seq<Point>, s: State, a: Action, k: Key)
    requires |s.calls| == |points|
  {
    && (a.Advance? && a.i < |s.calls| && points[a.i].key == k && s.calls[a.i].Begin? ==>
          NoneBusy(points, s, k) && !Closing(s.cycle, k))
    && (a.Flatten? && s.cycle.Visiting? && s.cycle.key == k ==> NoneBusy(points, s, k))
  }

  ghost predicate ExclusiveRun(points: seq<Point>, actions: seq<Action>, k: Key) {
    actions == [] || (ExclusiveRun(points, actions[..|actions| - 1], k)
                      && Exclusive(points, Run(points, actions[..|actions| - 1]), actions[|actions| - 1], k))
  }

  ghost predicate BusyCalls(points: seq<Point>, s: State, k: Key)
    requires |s.calls| == |points|
  {
    && (!s.cycle.Idle? && s.cycle.key == k ==> k in s.pointMap && s.pointMap[k] == s.cycle.e)
    && (forall i, j :: 0 <= i < j < |s.calls| && points[i].key == k && points[j].key == k ==>
          !(Busy(s.calls[i]) && Busy(s.calls[j])))
    && (forall i :: 0 <= i < |s.calls| && points[i].key == k && Busy(s.calls[i]) ==> BusyInv(s, s.calls[i], k))
  }

  /** An `Add` under way sees the map and the list as it found them. */
  ghost predicate BusyInv(s: State, c: Call, k: Key) {
    && !Closing(s.cycle, k)
    && (c.Missing? ==> k !in s.pointMap)
    && (c.Found? || c.Read? ==> k in s.pointMap && s.pointMap[k] == c.e < |s.entries|)
    && (c.Read? ==> c.list == s.entries[c.e].ids)
  }

  lemma OtherAdvanceKeepsBusy(points: seq<Point>, s: State, i: nat, k: Key)
    requires |s.calls| == |points| && EntriesInv(points, s)
    requires CallsInv(points, s) && i < |s.calls| && points[i].key != k
    requires BusyCalls(points, s, k)
    ensures BusyCalls(points, AdvanceCall(points, s, i), k)
  {
    var r := AdvanceCall(points, s, i);
    assert forall j :: 0 <= j < |s.calls| && j != i ==> r.calls[j] == s.calls[j];
    forall j | 0 <= j < |r.calls| && points[j].key == k && Busy(r.calls[j]) ensures BusyInv(r, r.calls[j], k) {
      assert BusyInv(s, s.calls[j], k);
      assert k in s.pointMap ==> r.entries[s.pointMap[k]] == s.entries[s.pointMap[k]];
    }
  }

  lemma OwnAdvanceKeepsBusy(points: seq<Point>, s: State, i: nat, k: Key)
    requires |s.calls| == |points| && EntriesInv(points, s) && i < |s.calls| && points[i].key == k
    requires BusyCalls(points, s, k) && Exclusive(points, s, Advance(i), k)
    ensures BusyCalls(points, AdvanceCall(points, s, i), k)
  {
    var r := AdvanceCall(points, s, i);
    assert forall j :: 0 <= j < |s.calls| && j != i ==> r.calls[j] == s.calls[j];
    assert Busy(s.calls[i]) ==> BusyInv(s, s.calls[i], k);
    forall j | 0 <= j < |r.calls| && j != i && points[j].key == k && Busy(r.calls[j]) ensures r == s {
      assert Busy(s.calls[j]) && !Busy(s.calls[i]) && !s.calls[i].Begin?;
    }
  }

  lemma CycleKeepsBusy(points: seq<Point>, s: State, a: Action, k: Key)
    requires |s.calls| == |points| && BusyCalls(points, s, k) && !a.Advance? && Exclusive(points, s, a, k)
    ensures BusyCalls(points, Apply(points, s, a), k)
  {
    var r := Apply(points, s, a);
    forall j | 0 <= j < |r.calls| && points[j].key == k && Busy(r.calls[j]) ensures BusyInv(r, r.calls[j], k) {
      assert BusyInv(s, s.calls[j], k);
    }
  }

  lemma ExclusiveIsSafe(points: seq<Point>, s: State, a: Action, k: Key)
    requires Inv(points, s) && BusyCalls(points, s, k) && EntryOps(s, k, IsMapped)
    ensures Safe(points, s, a, k)
  {
    if a.Advance? && a.i < |s.calls| && points[a.i].key == k && Busy(s.calls[a.i]) {
      assert BusyInv(s, s.calls[a.i], k);
    }
  }

  /** Exclusion per key makes a run safe when the points of the key carry mapped operations. */
  lemma {:induction false} ExclusionSuffices(points: seq<Point>, actions: seq<Action>, k: Key)
    requires ExclusiveRun(points, actions, k) && OpsOf(points, k, IsMapped)
    ensures SafeRun(points, actions, k) && BusyCalls(points, Run(points, actions), k)
  {
    if actions != [] {
      var before, a := actions[..|actions| - 1], actions[|actions| - 1];
      var s := Run(points, before);
      ExclusionSuffices(points, before, k);
      RunKeepsInv(points, before);
      EntriesKeepOps(points, before, k, IsMapped);
      ExclusiveIsSafe(points, s, a, k);
      if !a.Advance? {
        CycleKeepsBusy(points, s, a, k);
      } else if a.i < |s.calls| {
        if points[a.i].key == k {
          OwnAdvanceKeepsBusy(points, s, a.i, k);
        } else {
          OtherAdvanceKeepsBusy(points, s, a.i, k);
        }
      }
    }
  }

  // ---------- how values get lost ----------

  lemma RunStep(points: seq<Point>, actions: seq<Action>, a: Action)
    ensures Run(points, actions + [a]) == Apply(points, Run(points, actions), a)
  {
    assert (actions + [a])[..|actions|] == actions;
  }

  /** Call `i` has returned, no item counts it, and none ever will: its entry was flattened without it, or its value
      was dropped from the list and from every list read, or its entry is out of reach of the map and the cycle. */
  ghost predicate Lost(s: State, i: nat) {
    && i < |s.calls| && s.calls[i].Returned? && s.calls[i].e < |s.entries|
    && var e := s.calls[i].e;
       && (forall a :: 0 <= a < |s.items| && s.items[a].entry == e ==> i !in s.items[a].ids)
       && (s.cycle.Flattened? && s.cycle.item.Some? && s.cycle.item.value.entry == e ==> i !in s.cycle.item.value.ids)
       && (e in s.done || Dropped(s, i, e) || OutOfReach(s, e))
  }

  ghost predicate Dropped(s: State, i: nat, e: nat)
    requires e < |s.entries|
  {
    i !in s.entries[e].ids && forall j :: 0 <= j < |s.calls| && s.calls[j].Read? && s.calls[j].e == e ==>
      i !in s.calls[j].list
  }

  ghost predicate OutOfReach(s: State, e: nat) {
    (forall k :: k in s.pointMap ==> s.pointMap[k] != e) && !(s.cycle.Visiting? && s.cycle.e == e)
  }

  lemma AdvanceKeepsLost(points: seq<Point>, s: State, j: nat, i: nat)
    requires Inv(points, s) && Lost(s, i) && j < |s.calls|
    ensures Lost(AdvanceCall(points, s, j), i)
  {
    var r, e := AdvanceCall(points, s, j), s.calls[i].e;
    assert r.calls[i] == s.calls[i];
    if Dropped(s, i, e) {
      assert forall x :: 0 <= x < |s.calls| && x != j ==> r.calls[x] == s.calls[x];
      assert Dropped(r, i, e);
    } else if OutOfReach(s, e) {
      assert OutOfReach(r, e);
    }
  }

  lemma StepKeepsLost(points: seq<Point>, s: State, a: Action, i: nat)
    requires Inv(points, s) && Lost(s, i)
    ensures Lost(Apply(points, s, a), i)
  {
    if a.Advance? {
      if a.i < |s.calls| { AdvanceKeepsLost(points, s, a.i, i); }
    }
  }

  lemma {:induction false} LostStays(points: seq<Point>, before: seq<Action>, after: seq<Action>, i: nat)
    requires Lost(Run(points, before), i)
    ensures Lost(Run(points, before + after), i)
  {
    if after == [] {
      assert before + after == before;
    } else {
      var init, a := after[..|after| - 1], after[|after| - 1];
      assert before + after == (before + init) + [a];
      LostStays(points, before, init, i);
      RunKeepsInv(points, before + init);
      RunStep(points, before + init, a);
      StepKeepsLost(points, Run(points, before + init), a, i);
    }
  }

  /** A lost call is in no item of any continuation. */
  lemma LostForGood(points: seq<Point>, before: seq<Action>, after: seq<Action>, i: nat)
    requires Lost(Run(points, before), i)
    ensures var s := Run(points, before + after);
      i < |s.calls| && s.calls[i].Returned? && forall a :: 0 <= a < |s.items| ==> i !in s.items[a].ids
  {
    LostStays(points, before, after, i);
    RunKeepsInv(points, before + after);
    var s := Run(points, before + after);
    forall a | 0 <= a < |s.items| ensures i !in s.items[a].ids {
      assert ItemInv(points, s, s.items[a]);
    }
  }

  /** A call that has not written yet is listed nowhere. */
  lemma UnwrittenNowhere(points: seq<Point>, s: State, i: nat)
    requires Inv(points, s) && i < |s.calls| && !s.calls[i].Returned?
    ensures forall a :: 0 <= a < |s.items| ==> i !in s.items[a].ids
    ensures s.cycle.Flattened? && s.cycle.item.Some? ==> i !in s.cycle.item.value.ids
    ensures forall j :: 0 <= j < |s.calls| && s.calls[j].Read? ==> i !in s.calls[j].list
  {
    forall a | 0 <= a < |s.items| ensures i !in s.items[a].ids {
      assert ItemInv(points, s, s.items[a]);
    }
  }

  /** A write to an entry the cycle has already flattened is lost for good: whatever happens next, no item
      ever counts it. */
  lemma LateWriteIsLost(points: seq<Point>, before: seq<Action>, i: nat)
    requires var s := Run(points, before); i < |points| && s.calls[i].Read? && s.calls[i].e in s.done
    ensures Lost(Run(points, before + [Advance(i)]), i)
  {
    RunKeepsInv(points, before);
    RunStep(points, before, Advance(i));
    UnwrittenNowhere(points, Run(points, before), i);
  }

  /** Two calls have read the list of one entry: the second write drops the value of the first for good. */
  lemma OverwriteLoses(points: seq<Point>, before: seq<Action>, i: nat, j: nat)
    requires var s := Run(points, before);
      i < |points| && j < |points| && i != j && s.calls[i].Read? && s.calls[j].Read? && s.calls[i].e == s.calls[j].e
    ensures Lost(Run(points, before + [Advance(i)] + [Advance(j)]), i)
  {
    RunKeepsInv(points, before);
    RunStep(points, before, Advance(i));
    RunStep(points, before + [Advance(i)], Advance(j));
    var s := Run(points, before);
    UnwrittenNowhere(points, s, i);
    var r, e := Run(points, before + [Advance(i)] + [Advance(j)]), s.calls[i].e;
    assert r.entries[e].ids == s.calls[j].list + [j];
    assert Dropped(r, i, e);
  }

  /** Two calls have found no entry: the store of the second takes the entry of the first out of the map for good. */
  lemma DoubleStoreLoses(points: seq<Point>, before: seq<Action>, i: nat, j: nat)
    requires var s := Run(points, before);
      i < |points| && j < |points| && i != j && s.calls[i].Missing? && s.calls[j].Missing?
        && points[i].key == points[j].key
    ensures Lost(Run(points, before + [Advance(i)] + [Advance(j)]), i)
  {
    RunKeepsInv(points, before);
    RunStep(points, before, Advance(i));
    RunStep(points, before + [Advance(i)], Advance(j));
    var s := Run(points, before);
    UnwrittenNowhere(points, s, i);
    var r := Run(points, before + [Advance(i)] + [Advance(j)]);
    assert OutOfReach(r, |s.entries|);
  }

  /** Three calls of one key, the first of which has stored its entry. */
  lemma StoredHappens(u: real, v: real, w: real) returns (points: seq<Point>, before: seq<Action>)
    ensures points == [Point("k", Sum, u), Point("k", Sum, v), Point("k", Sum, w)]
    ensures var s := Run(points, before);
      s.entries == [Entry("k", Sum, [0])] && s.pointMap == map["k" := 0] && s.cycle == Idle
        && s.calls == [Returned(0), Begin, Begin]
  {
    points := [Point("k", Sum, u), Point("k", Sum, v), Point("k", Sum, w)];
    RunStep(points, [], Advance(0));
    RunStep(points, [] + [Advance(0)], Advance(0));
    before := [] + [Advance(0)] + [Advance(0)];
  }

  /** A late write happens: the second call loads the entry just before the cycle flattens it. */
  lemma LateWriteHappens(u: real, v: real, w: real) returns (points: seq<Point>, before: seq<Action>)
    ensures var s := Run(points, before); 1 < |points| && s.calls[1].Read? && s.calls[1].e in s.done
  {
    points, before := StoredHappens(u, v, w);
    RunStep(points, before, Advance(1));
    before := before + [Advance(1)];
    RunStep(points, before, Visit("k"));
    before := before + [Visit("k")];
    RunStep(points, before, Flatten);
    before := before + [Flatten];
    RunStep(points, before, Advance(1));
    before := before + [Advance(1)];
  }

  /** An overwrite happens: two calls read the list before either writes. */
  lemma OverwriteHappens(u: real, v: real, w: real) returns (points: seq<Point>, before: seq<Action>)
    ensures var s := Run(points, before);
      2 < |points| && s.calls[1].Read? && s.calls[2].Read? && s.calls[1].e == s.calls[2].e
  {
    points, before := StoredHappens(u, v, w);
    RunStep(points, before, Advance(1));
    before := before + [Advance(1)];
    RunStep(points, before, Advance(1));
    before := before + [Advance(1)];
    RunStep(points, before, Advance(2));
    before := before + [Advance(2)];
    RunStep(points, before, Advance(2));
    before := before + [Advance(2)];
  }

  /** A double store happens: two first calls of a key both find nothing. */
  lemma DoubleStoreHappens(v: real, w: real) returns (points: seq<Point>, before: seq<Action>)
    ensures var s := Run(points, before);
      1 < |points| && s.calls[0].Missing? && s.calls[1].Missing? && points[0].key == points[1].key
  {
    points := [Point("k", Sum, v), Point("k", Sum, w)];
    RunStep(points, [], Advance(0));
    RunStep(points, [] + [Advance(0)], Advance(1));
    before := [] + [Advance(0)] + [Advance(1)];
  }
}
