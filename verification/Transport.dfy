/** The bounded point channel and the loop that drains it into batches (timeline/transport.go).
    Producers, `Close` and the loop interleave freely. */
module Transport {

  datatype Pc = Waiting | Draining | Stopped

  /** `points` is the batch in hand, `batches` what was handed to `TransferData`, in order, and
      `enqueued` everything ever accepted by the channel. */
  datatype Core<T> = Core(capacity: nat, pointChannel: seq<T>, closed: bool, pc: Pc, points: seq<T>,
                          batches: seq<seq<T>>, enqueued: seq<T>)

  /** `Wake`: the interval timer fires. `Select`: one pass of the inner loop. A send on a full channel
      waits, a send on a closed one panics; both leave the channel as it is. */
  datatype Action<T> = Send(item: T) | Close | Wake | Select

  function New<T>(capacity: nat): Core<T> {
    Core(capacity, [], false, Waiting, [], [], [])
  }

  function Apply<T>(c: Core<T>, a: Action<T>): Core<T> {
    match a
    case Send(x) =>
      if c.closed || |c.pointChannel| >= c.capacity then c
      else c.(pointChannel := c.pointChannel + [x], enqueued := c.enqueued + [x])
    case Close => c.(closed := true)
    case Wake => if c.pc.Waiting? then c.(pc := Draining, points := []) else c
    case Select =>
      if !c.pc.Draining? then c
      else if c.pointChannel != [] then
        c.(points := c.points + [c.pointChannel[0]], pointChannel := c.pointChannel[1..])
      else if c.closed then c.(pc := Stopped)
      else if c.points == [] then c.(pc := Waiting)
      else c.(pc := Waiting, points := [], batches := c.batches + [c.points])
  }

  function Run<T>(c: Core<T>, actions: seq<Action<T>>): Core<T> {
    if actions == [] then c else Apply(Run(c, actions[..|actions| - 1]), actions[|actions| - 1])
  }

  function Concat<T>(batches: seq<seq<T>>): seq<T> {
    if batches == [] then [] else Concat(batches[..|batches| - 1]) + batches[|batches| - 1]
  }

  /** Everything past the producers, oldest first. */
  function InFlight<T>(c: Core<T>): seq<T> {
    Concat(c.batches) + c.points + c.pointChannel
  }

  ghost predicate Inv<T>(c: Core<T>) {
    && c.enqueued == InFlight(c)
    && (forall i :: 0 <= i < |c.batches| ==> c.batches[i] != [])
    && (c.pc.Waiting? ==> c.points == [])
    && (c.pc.Stopped? ==> c.closed && c.pointChannel == [])
    && |c.pointChannel| <= c.capacity
  }

  lemma ConcatStep<T>(batches: seq<seq<T>>, b: seq<T>)
    ensures Concat(batches + [b]) == Concat(batches) + b
  {
    assert (batches + [b])[..|batches|] == batches;
  }

  lemma SendKeepsInv<T>(c: Core<T>, x: T)
    requires Inv(c)
    ensures Inv(Apply(c, Send(x)))
  {
    var r := Apply(c, Send(x));
    assert c.closed || |c.pointChannel| >= c.capacity || InFlight(r) == InFlight(c) + [x];
  }

  /** Taking a point from the channel into the hand keeps the order of everything. */
  lemma TakenInOrder<T>(batches: seq<T>, hand: seq<T>, channel: seq<T>)
    requires channel != []
    ensures batches + (hand + [channel[0]]) + channel[1..] == batches + hand + channel
  {
    assert hand + [channel[0]] + channel[1..] == hand + channel;
    assert batches + (hand + [channel[0]]) + channel[1..] == batches + (hand + [channel[0]] + channel[1..]);
  }

  lemma TakeKeepsInv<T>(c: Core<T>)
    requires Inv(c) && c.pc.Draining? && c.pointChannel != []
    ensures Inv(Apply(c, Select))
  {
    TakenInOrder(Concat(c.batches), c.points, c.pointChannel);
  }

  lemma HandedOverInOrder<T>(batches: seq<seq<T>>, hand: seq<T>)
    ensures Concat(batches + [hand]) + [] + [] == Concat(batches) + hand + []
  {
    ConcatStep(batches, hand);
  }

  lemma NoneEmpty<T>(batches: seq<seq<T>>, b: seq<T>)
    requires (forall i :: 0 <= i < |batches| ==> batches[i] != []) && b != []
    ensures forall i :: 0 <= i < |batches + [b]| ==> (batches + [b])[i] != []
  {
  }

  lemma HandOverKeepsInv<T>(c: Core<T>)
    requires Inv(c) && c.pc.Draining? && c.pointChannel == []
    ensures Inv(Apply(c, Select))
  {
    if !c.closed && c.points != [] {
      HandedOverInOrder(c.batches, c.points);
      NoneEmpty(c.batches, c.points);
    }
  }

  lemma SelectKeepsInv<T>(c: Core<T>)
    requires Inv(c) && c.pc.Draining?
    ensures Inv(Apply(c, Select))
  {
    if c.pointChannel != [] { TakeKeepsInv(c); } else { HandOverKeepsInv(c); }
  }

  lemma ApplyKeepsInv<T>(c: Core<T>, a: Action<T>)
    requires Inv(c)
    ensures Inv(Apply(c, a))
  {
    if a.Send? {
      SendKeepsInv(c, a.item);
    } else if a.Select? && c.pc.Draining? {
      SelectKeepsInv(c);
    }
  }

  /** In every run: items enqueued are the batches, then the batch in hand, then the channel, in order;
      no batch is empty; and once the loop has stopped only the batch in hand is missing from the batches. */
  lemma {:induction false} NothingLostNothingReordered<T>(capacity: nat, actions: seq<Action<T>>)
    ensures var c := Run(New(capacity), actions);
      && c.enqueued == Concat(c.batches) + c.points + c.pointChannel
      && (forall i :: 0 <= i < |c.batches| ==> c.batches[i] != [])
      && (c.pc.Stopped? ==> c.enqueued == Concat(c.batches) + c.points)
    ensures Inv(Run(New(capacity), actions))
  {
    if actions != [] {
      NothingLostNothingReordered(capacity, actions[..|actions| - 1]);
      ApplyKeepsInv(Run(New(capacity), actions[..|actions| - 1]), actions[|actions| - 1]);
    }
  }

  /** `r` has handed over and still holds exactly what `c` did, and stays closed. */
  ghost predicate Frozen<T>(c: Core<T>, r: Core<T>) {
    r.closed && r.batches == c.batches && r.enqueued == c.enqueued
    && r.points + r.pointChannel == c.points + c.pointChannel
  }

  lemma ClosedStep<T>(c: Core<T>, a: Action<T>)
    requires Inv(c) && c.closed
    ensures Frozen(c, Apply(c, a))
  {
    if a.Select? && c.pc.Draining? && c.pointChannel != [] {
      assert c.pointChannel == [c.pointChannel[0]] + c.pointChannel[1..];
    }
  }

  /** Closing hands nothing over any more: what was in hand or in the channel stays there for good. */
  lemma {:induction false} CloseFreezes<T>(c: Core<T>, actions: seq<Action<T>>)
    requires Inv(c) && c.closed
    ensures Inv(Run(c, actions)) && Frozen(c, Run(c, actions))
  {
    if actions != [] {
      CloseFreezes(c, actions[..|actions| - 1]);
      ApplyKeepsInv(Run(c, actions[..|actions| - 1]), actions[|actions| - 1]);
      ClosedStep(Run(c, actions[..|actions| - 1]), actions[|actions| - 1]);
    }
  }

  /** A stopped transport has lost items exactly when something was in hand or in the channel at `Close`. */
  lemma CloseLoses<T>(c: Core<T>, actions: seq<Action<T>>)
    requires Inv(c) && Run(Apply(c, Close), actions).pc.Stopped?
    ensures var r := Run(Apply(c, Close), actions);
      && r.points == c.points + c.pointChannel
      && (r.enqueued == Concat(r.batches) <==> c.points == [] && c.pointChannel == [])
  {
    ApplyKeepsInv(c, Close);
    CloseFreezes(Apply(c, Close), actions);
    var r := Run(Apply(c, Close), actions);
    assert r.points + r.pointChannel == r.points;
    assert |r.enqueued| == |Concat(r.batches)| + |r.points|;
  }

  // ---------- what gets through ----------

  lemma RunStep<T>(c: Core<T>, actions: seq<Action<T>>, a: Action<T>)
    ensures Run(c, actions + [a]) == Apply(Run(c, actions), a)
  {
    assert (actions + [a])[..|actions|] == actions;
  }

  lemma {:induction false} RunMore<T>(c: Core<T>, a: seq<Action<T>>, b: seq<Action<T>>)
    ensures Run(c, a + b) == Run(Run(c, a), b)
  {
    if b == [] {
      assert a + b == a;
    } else {
      var init, last := b[..|b| - 1], b[|b| - 1];
      assert a + b == (a + init) + [last] && b == init + [last];
      RunMore(c, a, init);
      RunStep(c, a + init, last);
      RunStep(Run(c, a), init, last);
    }
  }

  /** A send is accepted exactly when the channel is open and has room; else it changes nothing. */
  lemma SendAcceptedIff<T>(c: Core<T>, x: T)
    ensures var r := Apply(c, Send(x));
      if !c.closed && |c.pointChannel| < c.capacity
      then r.enqueued == c.enqueued + [x] && r.pointChannel == c.pointChannel + [x]
      else r == c
  {
  }

  /** Once closed, the channel accepts nothing any more. */
  lemma CloseEndsSends<T>(c: Core<T>, actions: seq<Action<T>>)
    requires Inv(c)
    ensures Run(Apply(c, Close), actions).enqueued == c.enqueued && Run(Apply(c, Close), actions).closed
  {
    ApplyKeepsInv(c, Close);
    CloseFreezes(Apply(c, Close), actions);
  }

  /** Steps the loop takes by itself. */
  predicate OwnSteps<T>(actions: seq<Action<T>>) {
    forall i :: 0 <= i < |actions| ==> actions[i].Wake? || actions[i].Select?
  }

  function Selects<T>(k: nat): (r: seq<Action<T>>)
    ensures forall i :: 0 <= i < |r| ==> r[i].Select?
  {
    if k == 0 then [] else Selects(k - 1) + [Select]
  }

  lemma TakeOne<T>(c: Core<T>, all: seq<T>, hand: seq<T>, k: nat)
    requires k < |all| && c.pc.Draining? && c.points == hand + all[..k] && c.pointChannel == all[k..]
    ensures Apply(c, Select) == c.(points := hand + all[..k + 1], pointChannel := all[k + 1..])
  {
    assert all[k..][0] == all[k] && all[k..][1..] == all[k + 1..];
    assert hand + all[..k] + [all[k]] == hand + all[..k + 1];
  }

  lemma {:induction false} SelectsDrain<T>(c: Core<T>, k: nat)
    requires c.pc.Draining? && k <= |c.pointChannel|
    ensures Run(c, Selects(k)) == c.(points := c.points + c.pointChannel[..k], pointChannel := c.pointChannel[k..])
  {
    if k == 0 {
      assert c.points + c.pointChannel[..0] == c.points && c.pointChannel[0..] == c.pointChannel;
    } else {
      SelectsDrain(c, k - 1);
      RunStep(c, Selects(k - 1), Select);
      TakeOne(Run(c, Selects(k - 1)), c.pointChannel, c.points, k - 1);
    }
  }

  /** A draining loop with nobody sending takes the whole channel in hand, and then stops or hands it over. */
  lemma DrainEnds<T>(c: Core<T>)
    requires c.pc.Draining?
    ensures var r := Run(c, Selects(|c.pointChannel| + 1));
      && r.pointChannel == [] && r.enqueued == c.enqueued && r.closed == c.closed && r.capacity == c.capacity
      && (c.closed ==> r.pc.Stopped? && r.points == c.points + c.pointChannel && r.batches == c.batches)
      && (!c.closed ==> r.pc.Waiting? && r.points == [])
  {
    var n := |c.pointChannel|;
    SelectsDrain(c, n);
    RunStep(c, Selects(n), Select);
    assert c.pointChannel[..n] == c.pointChannel && c.pointChannel[n..] == [];
  }

  /** From every state that is not stopped the loop's own steps end a round. */
  lemma RoundEnds<T>(c: Core<T>) returns (more: seq<Action<T>>)
    requires !c.pc.Stopped?
    ensures OwnSteps(more)
    ensures var r := Run(c, more);
      && r.pointChannel == [] && r.enqueued == c.enqueued && r.closed == c.closed && r.capacity == c.capacity
      && (c.closed ==> r.pc.Stopped?) && (!c.closed ==> r.pc.Waiting? && r.points == [])
  {
    var none: seq<Action<T>> := [];
    var d, before := c, none;
    if c.pc.Waiting? {
      RunStep(c, none, Wake);
      d, before := Apply(c, Wake), none + [Wake];
    }
    DrainEnds(d);
    more := before + Selects(|d.pointChannel| + 1);
    RunMore(c, before, Selects(|d.pointChannel| + 1));
  }

  /** Every item accepted can be handed over: while the transport is open, the loop's own steps lead to a state in which
      the batches are everything enqueued. */
  lemma EverythingIsDelivered<T>(capacity: nat, actions: seq<Action<T>>) returns (more: seq<Action<T>>)
    requires !Run(New(capacity), actions).closed
    ensures OwnSteps(more)
    ensures var c, r := Run(New(capacity), actions), Run(New(capacity), actions + more);
      r.enqueued == c.enqueued == Concat(r.batches) && r.points == [] && r.pointChannel == [] && !r.closed
  {
    NothingLostNothingReordered(capacity, actions);
    more := RoundEnds(Run(New(capacity), actions));
    RunMore(New(capacity), actions, more);
    NothingLostNothingReordered(capacity, actions + more);
  }

  /** After `Close` the loop's own steps stop it. */
  lemma CloseStops<T>(c: Core<T>) returns (more: seq<Action<T>>)
    ensures OwnSteps(more) && Run(Apply(c, Close), more).pc.Stopped?
  {
    more := [];
    if !c.pc.Stopped? { more := RoundEnds(Apply(c, Close)); }
  }

  // ---------- the loop body with nobody else running ----------

  /** What a whole round makes of a waiting transport. */
  function Round<T>(c: Core<T>): Core<T> {
    if c.closed then c.(pc := Stopped, points := c.pointChannel, pointChannel := [])
    else
      c.(points := [], pointChannel := [],
         batches := if c.pointChannel == [] then c.batches else c.batches + [c.pointChannel])
  }

  /** The timer, then `k` passes of the inner loop. */
  function Passes<T>(k: nat): seq<Action<T>> {
    if k == 0 then [Wake] else Passes(k - 1) + [Select]
  }

  lemma SelectTakes<T>(c: Core<T>, k: nat)
    requires k < |c.pointChannel|
    ensures Apply(c.(pc := Draining, points := c.pointChannel[..k], pointChannel := c.pointChannel[k..]), Select)
      == c.(pc := Draining, points := c.pointChannel[..k + 1], pointChannel := c.pointChannel[k + 1..])
  {
    var all := c.pointChannel;
    assert all[k..][0] == all[k] && all[k..][1..] == all[k + 1..] && all[..k] + [all[k]] == all[..k + 1];
  }

  /** After the timer and `k` passes of the inner loop, `k` points are in hand. */
  lemma {:induction false} Drains<T>(c: Core<T>, k: nat)
    requires c.pc.Waiting? && k <= |c.pointChannel|
    ensures Run(c, Passes(k)) == c.(pc := Draining, points := c.pointChannel[..k], pointChannel := c.pointChannel[k..])
  {
    if k == 0 {
      var none: seq<Action<T>> := [];
      RunStep(c, none, Wake);
      assert none + [Wake] == Passes(0);
    } else {
      Drains(c, k - 1);
      RunStep(c, Passes(k - 1), Select);
      SelectTakes(c, k - 1);
    }
  }

  /** A round is the timer followed by one pass per point in the channel and one more. */
  lemma RoundIsSteps<T>(c: Core<T>)
    requires c.pc.Waiting?
    ensures Run(c, Passes(|c.pointChannel| + 1)) == Round(c)
  {
    var n := |c.pointChannel|;
    Drains(c, n);
    RunStep(c, Passes(n), Select);
    assert c.pointChannel[..n] == c.pointChannel && c.pointChannel[n..] == [];
  }

  /** The transport as its own goroutine sees it between two interleavings. */
  class TransportCore<T> {
    const capacity: nat
    var pointChannel: seq<T>
    var closed: bool
    ghost var batches: seq<seq<T>>
    ghost var enqueued: seq<T>

    ghost function Model(pc: Pc, points: seq<T>): Core<T>
      reads this
    {
      Core(capacity, pointChannel, closed, pc, points, batches, enqueued)
    }

    constructor (capacity: nat)
      ensures Model(Waiting, []) == New(capacity)
    {
      this.capacity, pointChannel, closed, batches, enqueued := capacity, [], false, [], [];
    }

    /** The outer loop body: drains the channel, then sends what it drained unless the close is seen. */
    method TransferRound() returns (stop: bool, points: seq<T>)
      modifies this
      ensures stop == closed
      ensures Model(if stop then Stopped else Waiting, if stop then points else []) == Round(old(Model(Waiting, [])))
      ensures points == old(pointChannel)
    {
      points := [];
      assert points + pointChannel == old(pointChannel);
      while true
        invariant points + pointChannel == old(pointChannel)
        invariant closed == old(closed) && batches == old(batches) && enqueued == old(enqueued)
        decreases |pointChannel|
      {
        if pointChannel != [] {
          points := points + [pointChannel[0]];
          pointChannel := pointChannel[1..];
        } else if closed {
          assert points + pointChannel == points;
          return true, points;
        } else {
          break;
        }
      }
      assert points + pointChannel == points;
      if |points| != 0 {
        batches := batches + [points];
      }
      stop := false;
    }

    method Close()
      modifies this
      ensures Model(Waiting, []) == Apply(old(Model(Waiting, [])), Action.Close)
    {
      closed := true;
    }
  }
}
