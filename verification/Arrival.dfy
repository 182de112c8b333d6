/** Everything added can arrive (timeline/flattener.go, timeline/transport.go): from every reachable state of the
    pipeline, the cycle and the transfer loop can bring all pending values into batches. */
module Arrival {
  import opened Options
  import opened Flattening
  import opened Flattener
  import opened Pipeline
  import Transport

  // ---------- going on from a flow ----------

  /** Steps of the cycle and of the transfer loop, none of an `Add`. */
  predicate NoAdds(more: seq<Step>) {
    forall i :: 0 <= i < |more| ==> !(more[i].Flat? && more[i].a.Advance?)
  }

  lemma FlowStep(points: seq<Point>, capacity: nat, steps: seq<Step>, step: Step)
    ensures Flow(points, capacity, steps + [step]) == Take(points, Flow(points, capacity, steps), step)
  {
    assert (steps + [step])[..|steps|] == steps;
  }

  /** A push goes through exactly when the channel has room; else the cycle waits with its item. */
  lemma PushGoesThroughIff(points: seq<Point>, capacity: nat, steps: seq<Step>)
    requires Flow(points, capacity, steps).fl.cycle.Flattened? && Flow(points, capacity, steps).fl.cycle.item.Some?
    ensures var p, r := Flow(points, capacity, steps), Flow(points, capacity, steps + [Flat(Push)]);
      if |p.tr.pointChannel| < capacity
      then r.tr.enqueued == p.tr.enqueued + [p.fl.cycle.item.value] && r.fl.cycle.Pushed?
      else r == p
  {
    FlowStep(points, capacity, steps, Flat(Push));
    FlowSplits(points, capacity, steps);
  }

  /** The pipeline goes on from `p`. */
  function Drive(points: seq<Point>, p: Pipe, more: seq<Step>): (r: Pipe)
    requires |p.fl.calls| == |points|
    ensures |r.fl.calls| == |points|
  {
    if more == [] then p else Take(points, Drive(points, p, more[..|more| - 1]), more[|more| - 1])
  }

  lemma DriveStep(points: seq<Point>, p: Pipe, more: seq<Step>, step: Step)
    requires |p.fl.calls| == |points|
    ensures Drive(points, p, more + [step]) == Take(points, Drive(points, p, more), step)
  {
    assert (more + [step])[..|more|] == more;
  }

  lemma {:induction false} DriveMore(points: seq<Point>, p: Pipe, a: seq<Step>, b: seq<Step>)
    requires |p.fl.calls| == |points|
    ensures Drive(points, p, a + b) == Drive(points, Drive(points, p, a), b)
  {
    if b == [] {
      assert a + b == a;
    } else {
      var init, last := b[..|b| - 1], b[|b| - 1];
      DriveMore(points, p, a, init);
      assert a + b == a + init + [last];
      DriveStep(points, p, a + init, last);
    }
  }

  lemma {:induction false} FlowDrives(points: seq<Point>, capacity: nat, steps: seq<Step>, more: seq<Step>)
    ensures Flow(points, capacity, steps + more) == Drive(points, Flow(points, capacity, steps), more)
  {
    if more == [] {
      assert steps + more == steps;
    } else {
      var init, last := more[..|more| - 1], more[|more| - 1];
      FlowDrives(points, capacity, steps, init);
      assert steps + more == steps + init + [last];
      FlowStep(points, capacity, steps + init, last);
    }
  }

  /** `more` leads from `p` to `r` without an `Add`. */
  ghost predicate Leads(points: seq<Point>, p: Pipe, more: seq<Step>, r: Pipe) {
    |p.fl.calls| == |points| && NoAdds(more) && r == Drive(points, p, more)
  }

  lemma LeadsNowhere(points: seq<Point>, p: Pipe)
    requires |p.fl.calls| == |points|
    ensures Leads(points, p, [], p)
  {
  }

  lemma LeadsOne(points: seq<Point>, p: Pipe, step: Step)
    requires |p.fl.calls| == |points| && !(step.Flat? && step.a.Advance?)
    ensures Leads(points, p, [step], Take(points, p, step))
  {
    var none: seq<Step> := [];
    DriveStep(points, p, none, step);
    assert none + [step] == [step];
  }

  lemma LeadsOn(points: seq<Point>, p: Pipe, a: seq<Step>, q: Pipe, b: seq<Step>, r: Pipe)
    requires Leads(points, p, a, q) && Leads(points, q, b, r)
    ensures Leads(points, p, a + b, r)
  {
    DriveMore(points, p, a, b);
  }

  /** The transport's own steps leave the flattener alone. */
  function AsSteps(actions: seq<Transport.Action<Item>>): (r: seq<Step>)
    requires Transport.OwnSteps(actions)
    ensures NoAdds(r)
  {
    if actions == [] then [] else
    AsSteps(actions[..|actions| - 1]) + [if actions[|actions| - 1].Wake? then Wake else Select]
  }

  lemma {:induction false} DriveTransport(points: seq<Point>, p: Pipe, actions: seq<Transport.Action<Item>>)
    requires |p.fl.calls| == |points| && Transport.OwnSteps(actions)
    ensures Leads(points, p, AsSteps(actions), p.(tr := Transport.Run(p.tr, actions)))
  {
    if actions != [] {
      var init, a := actions[..|actions| - 1], actions[|actions| - 1];
      DriveTransport(points, p, init);
      DriveStep(points, p, AsSteps(init), if a.Wake? then Wake else Select);
    }
  }

  /** Hand and channel are empty: everything pushed is in the batches. */
  ghost predicate Drained(p: Pipe) {
    p.tr.points == [] && p.tr.pointChannel == [] && Transport.Concat(p.tr.batches) == p.fl.items
  }

  lemma {:induction false} OwnStepsKeepInv(c: Transport.Core<Item>, actions: seq<Transport.Action<Item>>)
    requires Transport.Inv(c)
    ensures Transport.Inv(Transport.Run(c, actions))
  {
    if actions != [] {
      OwnStepsKeepInv(c, actions[..|actions| - 1]);
      Transport.ApplyKeepsInv(Transport.Run(c, actions[..|actions| - 1]), actions[|actions| - 1]);
    }
  }

  lemma Drain(points: seq<Point>, capacity: nat, p: Pipe) returns (more: seq<Step>, r: Pipe)
    requires |p.fl.calls| == |points| && Paired(p, capacity)
    ensures Leads(points, p, more, r) && r.fl == p.fl && Paired(r, capacity) && Drained(r)
  {
    var actions := Transport.RoundEnds(p.tr);
    DriveTransport(points, p, actions);
    OwnStepsKeepInv(p.tr, actions);
    more, r := AsSteps(actions), p.(tr := Transport.Run(p.tr, actions));
    assert r.tr.enqueued == Transport.Concat(r.tr.batches) + [] + [];
  }

  // ---------- the cycle ends its pass ----------

  /** What the cycle and the loop leave alone. */
  ghost predicate Kept(p: Pipe, r: Pipe, capacity: nat) {
    r.fl.calls == p.fl.calls && r.fl.log == p.fl.log && r.fl.entries == p.fl.entries && Paired(r, capacity)
  }

  lemma TakeOne(points: seq<Point>, capacity: nat, p: Pipe, step: Step) returns (r: Pipe)
    requires |p.fl.calls| == |points| && Paired(p, capacity) && !(step.Flat? && step.a.Advance?)
    ensures r == Take(points, p, step) && Leads(points, p, [step], r) && Kept(p, r, capacity)
  {
    r := Take(points, p, step);
    LeadsOne(points, p, step);
    TakeKeepsPaired(points, p, capacity, step);
  }

  /** With room made in the channel, the item in hand is pushed and its key deleted. */
  lemma PushAndDelete(points: seq<Point>, capacity: nat, p: Pipe) returns (more: seq<Step>, r: Pipe)
    requires capacity > 0 && |p.fl.calls| == |points| && Paired(p, capacity) && p.fl.cycle.Flattened?
    ensures Leads(points, p, more, r) && Kept(p, r, capacity) && r.fl.cycle.Idle?
    ensures r.fl.pointMap == p.fl.pointMap - {p.fl.cycle.key}
  {
    var drain, q := Drain(points, capacity, p);
    var pushed := TakeOne(points, capacity, q, Flat(Push));
    assert pushed.fl.cycle.Pushed? && pushed.fl.cycle.key == p.fl.cycle.key && pushed.fl.pointMap == p.fl.pointMap;
    r := TakeOne(points, capacity, pushed, Flat(Delete));
    LeadsOn(points, p, drain, q, [Flat(Push)], pushed);
    LeadsOn(points, p, drain + [Flat(Push)], pushed, [Flat(Delete)], r);
    more := drain + [Flat(Push)] + [Flat(Delete)];
  }

  /** Wherever the cycle stands, it can come to rest. */
  lemma ComesToRest(points: seq<Point>, capacity: nat, p: Pipe) returns (more: seq<Step>, r: Pipe)
    requires capacity > 0 && |p.fl.calls| == |points| && Paired(p, capacity)
    requires p.fl.cycle.Visiting? ==> p.fl.cycle.e < |p.fl.entries|
    ensures Leads(points, p, more, r) && Kept(p, r, capacity) && r.fl.cycle.Idle?
    ensures r.fl.pointMap == if p.fl.cycle.Idle? then p.fl.pointMap else p.fl.pointMap - {p.fl.cycle.key}
  {
    match p.fl.cycle {
      case Idle =>
        more, r := [], p;
        LeadsNowhere(points, p);
      case Visiting(k, _) =>
        var q := TakeOne(points, capacity, p, Flat(Flatten));
        assert q.fl.cycle.Flattened? && q.fl.cycle.key == k && q.fl.pointMap == p.fl.pointMap;
        var rest;
        rest, r := PushAndDelete(points, capacity, q);
        LeadsOn(points, p, [Flat(Flatten)], q, rest, r);
        more := [Flat(Flatten)] + rest;
      case Flattened(_, _, _) =>
        more, r := PushAndDelete(points, capacity, p);
      case Pushed(_, _) =>
        r := TakeOne(points, capacity, p, Flat(Delete));
        more := [Flat(Delete)];
    }
  }

  /** Every key of the map refers to an entry. */
  ghost predicate Refers(s: State) {
    forall k :: k in s.pointMap ==> s.pointMap[k] < |s.entries|
  }

  /** One key's turn, from rest to rest. */
  lemma OneTurn(points: seq<Point>, capacity: nat, p: Pipe, k: Key) returns (more: seq<Step>, r: Pipe)
    requires capacity > 0 && |p.fl.calls| == |points| && Paired(p, capacity) && p.fl.cycle.Idle?
    requires k in p.fl.pointMap && Refers(p.fl)
    ensures Leads(points, p, more, r) && Kept(p, r, capacity)
    ensures r.fl.cycle.Idle? && r.fl.pointMap == p.fl.pointMap - {k}
  {
    var q := TakeOne(points, capacity, p, Flat(Visit(k)));
    assert q.fl.cycle == Visiting(k, p.fl.pointMap[k]) && q.fl.pointMap == p.fl.pointMap;
    var rest;
    rest, r := ComesToRest(points, capacity, q);
    LeadsOn(points, p, [Flat(Visit(k))], q, rest, r);
    more := [Flat(Visit(k))] + rest;
  }

  /** A cycle at rest can empty the map. */
  lemma {:induction false} Empties(points: seq<Point>, capacity: nat, p: Pipe) returns (more: seq<Step>, r: Pipe)
    requires capacity > 0 && |p.fl.calls| == |points| && Paired(p, capacity) && p.fl.cycle.Idle? && Refers(p.fl)
    ensures Leads(points, p, more, r) && Kept(p, r, capacity) && r.fl.cycle.Idle? && r.fl.pointMap == map[]
    decreases p.fl.pointMap.Keys
  {
    if p.fl.pointMap == map[] {
      more, r := [], p;
      LeadsNowhere(points, p);
    } else {
      var k :| k in p.fl.pointMap;
      var first, q := OneTurn(points, capacity, p, k);
      assert k !in q.fl.pointMap.Keys && q.fl.pointMap.Keys <= p.fl.pointMap.Keys;
      var rest;
      rest, r := Empties(points, capacity, q);
      LeadsOn(points, p, first, q, rest, r);
      more := first + rest;
    }
  }

  /** From every reachable state the cycle and the loop can empty map, channel and hand into batches. */
  lemma Completes(points: seq<Point>, capacity: nat, p: Pipe) returns (more: seq<Step>, r: Pipe)
    requires capacity > 0 && Paired(p, capacity) && Inv(points, p.fl)
    ensures Leads(points, p, more, r) && Kept(p, r, capacity)
    ensures r.fl.cycle.Idle? && r.fl.pointMap == map[] && Drained(r)
  {
    var a, q := ComesToRest(points, capacity, p);
    var b, e := Empties(points, capacity, q);
    var c;
    c, r := Drain(points, capacity, e);
    LeadsOn(points, p, a, q, b, e);
    LeadsOn(points, p, a + b, e, c, r);
    more := a + b + c;
  }

  // ---------- everything arrives ----------

  lemma StaysSafe(points: seq<Point>, capacity: nat, steps: seq<Step>, step: Step, k: Key)
    requires SafeRun(points, Effective(points, capacity, steps), k) && OpsOf(points, k, IsMapped)
    requires !(step.Flat? && step.a.Advance?)
    ensures SafeRun(points, Effective(points, capacity, steps + [step]), k)
  {
    var eff := Effective(points, capacity, steps);
    assert (steps + [step])[..|steps|] == steps;
    FlowSplits(points, capacity, steps);
    EntriesKeepOps(points, eff, k, IsMapped);
    RunKeepsInv(points, eff);
    if step.Flat? && !Blocked(Flow(points, capacity, steps), step.a) {
      assert Effective(points, capacity, steps + [step]) == eff + [step.a] && (eff + [step.a])[..|eff|] == eff;
    } else {
      assert Effective(points, capacity, steps + [step]) == eff;
    }
  }

  lemma {:induction false} StaysSafeThroughout(points: seq<Point>, capacity: nat, steps: seq<Step>,
                                               more: seq<Step>, k: Key)
    requires SafeRun(points, Effective(points, capacity, steps), k) && OpsOf(points, k, IsMapped) && NoAdds(more)
    ensures SafeRun(points, Effective(points, capacity, steps + more), k)
  {
    if more == [] {
      assert steps + more == steps;
    } else {
      var init := more[..|more| - 1];
      StaysSafeThroughout(points, capacity, steps, init, k);
      StaysSafe(points, capacity, steps + init, more[|more| - 1], k);
      assert steps + more == steps + init + [more[|more| - 1]];
    }
  }

  /** After every flow that was safe for a key with mapped operations, the cycle and the loop can go on until every
      value added under it has been handed over, each exactly once and in the order of the additions. */
  lemma EverythingArrives(points: seq<Point>, capacity: nat, steps: seq<Step>, k: Key) returns (more: seq<Step>)
    requires capacity > 0 && SafeRun(points, Effective(points, capacity, steps), k) && OpsOf(points, k, IsMapped)
    ensures NoAdds(more)
    ensures var p, r := Flow(points, capacity, steps), Flow(points, capacity, steps + more);
      && r.fl.log == p.fl.log && InRange(p.fl.log, |points|)
      && Emitted(Transport.Concat(r.tr.batches), k) == Added(points, p.fl.log, k)
  {
    FlowSplits(points, capacity, steps);
    RunKeepsInv(points, Effective(points, capacity, steps));
    var r;
    more, r := Completes(points, capacity, Flow(points, capacity, steps));
    FlowDrives(points, capacity, steps, more);
    StaysSafeThroughout(points, capacity, steps, more, k);
    FlowSplits(points, capacity, steps + more);
    ExactlyOnce(points, Effective(points, capacity, steps + more), k);
    assert Held(r.fl, k) == [] && Pending(r.fl, k) == [];
    assert Emitted(r.fl.items, k) + [] + [] == Emitted(r.fl.items, k);
  }
}
