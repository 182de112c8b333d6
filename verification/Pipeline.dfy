/** From `Add` to the batches: the flattener pushes into the transport's bounded channel
    (timeline/flattener.go, timeline/transport.go), without `Close`. */
module Pipeline {
  import opened Options
  import opened Flattening
  import opened Flattener
  import Transport

  datatype Pipe = Pipe(fl: State, tr: Transport.Core<Item>)

  datatype Step = Flat(a: Flattener.Action) | Wake | Select

  /** The cycle waits on a full channel with its item in hand. */
  predicate Blocked(p: Pipe, a: Flattener.Action) {
    a.Push? && p.fl.cycle.Flattened? && p.fl.cycle.item.Some? && |p.tr.pointChannel| >= p.tr.capacity
  }

  function Take(points: seq<Point>, p: Pipe, step: Step): Pipe
    requires |p.fl.calls| == |points|
  {
    match step
    case Flat(a) =>
      if Blocked(p, a) then p else
      Pipe(Flattener.Apply(points, p.fl, a),
           if a.Push? && p.fl.cycle.Flattened? && p.fl.cycle.item.Some?
           then Transport.Apply(p.tr, Transport.Send(p.fl.cycle.item.value)) else p.tr)
    case Wake => p.(tr := Transport.Apply(p.tr, Transport.Wake))
    case Select => p.(tr := Transport.Apply(p.tr, Transport.Select))
  }

  function Flow(points: seq<Point>, capacity: nat, steps: seq<Step>): (r: Pipe)
    ensures |r.fl.calls| == |points|
  {
    if steps == [] then Pipe(Flattener.Init(|points|), Transport.New(capacity))
    else Take(points, Flow(points, capacity, steps[..|steps| - 1]), steps[|steps| - 1])
  }

  /** The flattener's own steps in a flow: all of its actions except pushes that had to wait. */
  function Effective(points: seq<Point>, capacity: nat, steps: seq<Step>): seq<Flattener.Action> {
    if steps == [] then []
    else
      var before, step := steps[..|steps| - 1], steps[|steps| - 1];
      Effective(points, capacity, before)
      + if step.Flat? && !Blocked(Flow(points, capacity, before), step.a) then [step.a] else []
  }

  /** Everything pushed is everything enqueued. */
  ghost predicate Paired(p: Pipe, capacity: nat) {
    p.tr.enqueued == p.fl.items && !p.tr.closed && p.tr.capacity == capacity && Transport.Inv(p.tr)
  }

  lemma TakeKeepsPaired(points: seq<Point>, p: Pipe, capacity: nat, step: Step)
    requires |p.fl.calls| == |points| && Paired(p, capacity)
    ensures Paired(Take(points, p, step), capacity)
  {
    match step {
      case Flat(a) =>
        if p.fl.cycle.Flattened? && p.fl.cycle.item.Some? {
          Transport.ApplyKeepsInv(p.tr, Transport.Send(p.fl.cycle.item.value));
        }
      case Wake => Transport.ApplyKeepsInv(p.tr, Transport.Wake);
      case Select => Transport.ApplyKeepsInv(p.tr, Transport.Select);
    }
  }

  /** A flow runs the flattener and the transport side by side. */
  lemma {:induction false} FlowSplits(points: seq<Point>, capacity: nat, steps: seq<Step>)
    ensures var p := Flow(points, capacity, steps);
      Paired(p, capacity) && p.fl == Flattener.Run(points, Effective(points, capacity, steps))
  {
    if steps != [] {
      var before, step := steps[..|steps| - 1], steps[|steps| - 1];
      FlowSplits(points, capacity, before);
      TakeKeepsPaired(points, Flow(points, capacity, before), capacity, step);
      var eff := Effective(points, capacity, before);
      if step.Flat? && !Blocked(Flow(points, capacity, before), step.a) {
        RunStep(points, eff, step.a);
        assert Effective(points, capacity, steps) == eff + [step.a];
      } else {
        assert Effective(points, capacity, steps) == eff;
      }
    }
  }

  // ---------- what the items add up to ----------

  /** The sum of the item values of key `k`. */
  function ItemTotal(items: seq<Item>, k: Key): real {
    if items == [] then 0.0
    else ItemTotal(items[..|items| - 1], k) + if items[|items| - 1].key == k then items[|items| - 1].value else 0.0
  }

  /** What a list of added values contributes: their sum, or their number. */
  function Weight(points: seq<Point>, op: FlatOperation, ids: seq<nat>): real
    requires InRange(ids, |points|)
  {
    if op.Sum? then Total(Values(points, ids)) else |ids| as real
  }

  lemma WeightConcat(points: seq<Point>, op: FlatOperation, a: seq<nat>, b: seq<nat>)
    requires InRange(a, |points|) && InRange(b, |points|)
    ensures InRange(a + b, |points|) && Weight(points, op, a + b) == Weight(points, op, a) + Weight(points, op, b)
  {
    assert Values(points, a + b) == Values(points, a) + Values(points, b);
    TotalConcat(Values(points, a), Values(points, b));
  }

  ghost predicate AllOf(points: seq<Point>, items: seq<Item>, k: Key, op: FlatOperation) {
    forall a :: 0 <= a < |items| ==> Faithful(points, items[a]) && (items[a].key == k ==> items[a].op == op)
  }

  lemma {:induction false} ItemsWeigh(points: seq<Point>, items: seq<Item>, k: Key, op: FlatOperation)
    requires (op.Sum? || op.Count?) && AllOf(points, items, k, op)
    ensures InRange(Emitted(items, k), |points|) && Weight(points, op, Emitted(items, k)) == ItemTotal(items, k)
  {
    if items != [] {
      var before, it := items[..|items| - 1], items[|items| - 1];
      ItemsWeigh(points, before, k, op);
      if it.key == k {
        assert Faithful(points, it);
        WeightConcat(points, op, Emitted(before, k), it.ids);
      } else {
        assert Emitted(items, k) == Emitted(before, k);
      }
    }
  }

  lemma ReachableItems(points: seq<Point>, actions: seq<Flattener.Action>, k: Key, op: FlatOperation)
    requires OpsOf(points, k, o => o == op)
    ensures var s := Flattener.Run(points, actions); AllOf(points, s.items, k, op) && AllOf(points, Held(s, k), k, op)
  {
    RunKeepsInv(points, actions);
    AtMostOnce(points, actions);
    EntriesKeepOps(points, actions, k, o => o == op);
    var s := Flattener.Run(points, actions);
    forall a | 0 <= a < |s.items| ensures s.items[a].key == k ==> s.items[a].op == op {
      assert ItemInv(points, s, s.items[a]);
    }
  }

  lemma PendingInRange(points: seq<Point>, actions: seq<Flattener.Action>, k: Key)
    ensures InRange(Pending(Flattener.Run(points, actions), k), |points|)
  {
    RunKeepsInv(points, actions);
    var s := Flattener.Run(points, actions);
    if k in s.pointMap {
      assert Listed(s, s.pointMap[k], s.entries[s.pointMap[k]].ids);
    }
  }

  /** Item totals, the waiting item and the pending values weigh what the accounted values weigh, lost ones or not. */
  lemma ItemsBalance(points: seq<Point>, actions: seq<Flattener.Action>, k: Key, op: FlatOperation)
    requires (op.Sum? || op.Count?) && OpsOf(points, k, o => o == op)
    ensures var s := Flattener.Run(points, actions);
      && InRange(Pending(s, k), |points|) && InRange(Accounted(s, k), |points|)
      && ItemTotal(s.items, k) + ItemTotal(Held(s, k), k) + Weight(points, op, Pending(s, k))
         == Weight(points, op, Accounted(s, k))
  {
    var s := Flattener.Run(points, actions);
    ReachableItems(points, actions, k, op);
    PendingInRange(points, actions, k);
    ItemsWeigh(points, s.items, k, op);
    ItemsWeigh(points, Held(s, k), k, op);
    WeightConcat(points, op, Emitted(s.items, k), Emitted(Held(s, k), k));
    WeightConcat(points, op, Emitted(s.items, k) + Emitted(Held(s, k), k), Pending(s, k));
  }

  lemma {:induction false} AddedInRange(points: seq<Point>, log: seq<nat>, k: Key)
    requires InRange(log, |points|)
    ensures InRange(Added(points, log, k), |points|)
  {
    if log != [] { AddedInRange(points, log[..|log| - 1], k); }
  }

  /** The values of `k` in batches, in hand, in the channel, waiting for the channel and pending in the map add up to
      the sum (the number) of everything added. */
  ghost predicate Balanced(points: seq<Point>, p: Pipe, k: Key, op: FlatOperation) {
    && InRange(p.fl.log, |points|) && InRange(Added(points, p.fl.log, k), |points|)
    && InRange(Pending(p.fl, k), |points|)
    && ItemTotal(Transport.Concat(p.tr.batches) + p.tr.points + p.tr.pointChannel, k)
       + ItemTotal(Held(p.fl, k), k) + Weight(points, op, Pending(p.fl, k))
       == Weight(points, op, Added(points, p.fl.log, k))
  }

  lemma BalancedIff(points: seq<Point>, capacity: nat, steps: seq<Step>, k: Key, op: FlatOperation)
    requires (op.Sum? || op.Count?) && OpsOf(points, k, o => o == op)
    ensures var p := Flow(points, capacity, steps);
      && InRange(p.fl.log, |points|) && InRange(Added(points, p.fl.log, k), |points|)
      && InRange(Accounted(p.fl, k), |points|)
      && (Balanced(points, p, k, op) <==>
            Weight(points, op, Accounted(p.fl, k)) == Weight(points, op, Added(points, p.fl.log, k)))
  {
    var actions := Effective(points, capacity, steps);
    FlowSplits(points, capacity, steps);
    LogInRange(points, actions);
    ItemsBalance(points, actions, k, op);
    AddedInRange(points, Flow(points, capacity, steps).fl.log, k);
  }

  /** End to end: for a key whose points all carry Sum (or all carry Count), the account balances after every flow in
      which the flattener's steps are safe. */
  lemma Conserved(points: seq<Point>, capacity: nat, steps: seq<Step>, k: Key, op: FlatOperation)
    requires (op.Sum? || op.Count?) && OpsOf(points, k, o => o == op)
    requires SafeRun(points, Effective(points, capacity, steps), k)
    ensures Balanced(points, Flow(points, capacity, steps), k, op)
  {
    BalancedIff(points, capacity, steps, k, op);
    FlowSplits(points, capacity, steps);
    ExactlyOnce(points, Effective(points, capacity, steps), k);
  }

  ghost predicate AlwaysBalanced(points: seq<Point>, capacity: nat, steps: seq<Step>, k: Key, op: FlatOperation) {
    Balanced(points, Flow(points, capacity, steps), k, op)
      && (steps == [] || AlwaysBalanced(points, capacity, steps[..|steps| - 1], k, op))
  }

  lemma {:induction false} BalancedIsNeverShort(points: seq<Point>, capacity: nat, steps: seq<Step>, k: Key)
    requires OpsOf(points, k, o => o == Count)
    ensures AlwaysBalanced(points, capacity, steps, k, Count) <==>
      NeverShort(points, Effective(points, capacity, steps), k)
  {
    BalancedIff(points, capacity, steps, k, Count);
    FlowSplits(points, capacity, steps);
    if steps != [] {
      var before, eff := steps[..|steps| - 1], Effective(points, capacity, steps[..|steps| - 1]);
      BalancedIsNeverShort(points, capacity, before, k);
      BalancedIff(points, capacity, before, k, Count);
      FlowSplits(points, capacity, before);
      if Effective(points, capacity, steps) == eff {
        assert NeverShort(points, eff, k) ==>
          |Added(points, Flow(points, capacity, steps).fl.log, k)| == |Accounted(Flow(points, capacity, steps).fl, k)|;
      } else {
        assert Effective(points, capacity, steps)[..|eff|] == eff;
      }
    }
  }

  /** Exactly when counts are conserved: for a key whose points all carry Count, the account balances at every moment of
      a flow if and only if every step of the flattener is safe. */
  lemma CountConservedIff(points: seq<Point>, capacity: nat, steps: seq<Step>, k: Key)
    requires OpsOf(points, k, o => o == Count)
    ensures AlwaysBalanced(points, capacity, steps, k, Count) <==>
      SafeRun(points, Effective(points, capacity, steps), k)
  {
    BalancedIsNeverShort(points, capacity, steps, k);
    ExactlyOnceIff(points, Effective(points, capacity, steps), k);
  }
}
