/** Every `ValueAdd` call gets through (snitch/custom_point.go): alone it takes at most five steps, so every run can go
    on until all calls have returned. */
module CasProgress {
  import opened CasPoint

  lemma RunStep<B, V>(add: (B, V) -> B, args: seq<V>, s: State<B>, schedule: seq<nat>, t: nat)
    requires |args| == |s.pcs|
    ensures Run(add, args, s, schedule + [t]) == Step(add, args, Run(add, args, s, schedule), t)
  {
    assert (schedule + [t])[..|schedule|] == schedule;
  }

  lemma {:induction false} RunMore<B, V>(add: (B, V) -> B, args: seq<V>, s: State<B>, a: seq<nat>, b: seq<nat>)
    requires |args| == |s.pcs|
    ensures Run(add, args, s, a + b) == Run(add, args, Run(add, args, s, a), b)
  {
    if b == [] {
      assert a + b == a;
    } else {
      var init := b[..|b| - 1];
      RunMore(add, args, s, a, init);
      assert a + b == a + init + [b[|b| - 1]];
      RunStep(add, args, s, a + init, b[|b| - 1]);
    }
  }

  /** Steps a call has to take when it runs alone: an overtaken load costs a failed swap and another load. */
  ghost function Left<B>(s: State<B>, t: nat): nat
    requires t < |s.pcs|
  {
    match s.pcs[t]
    case Ready => 4
    case Loaded(ob, _) => if s.value == ob then 3 else 5
    case Swapped => 2
    case Counted => 1
    case Done => 0
  }

  /** What is left of a call that runs alone from `s`: it adds its argument and counts itself unless it has done so. */
  ghost predicate Finished<B, V>(add: (B, V) -> B, args: seq<V>, s: State<B>, t: nat, r: State<B>)
    requires t < |s.pcs| == |args|
  {
    && r.pcs == s.pcs[t := Done]
    && r.value == (if PastSwap(s.pcs[t]) then s.value else add(s.value, args[t]))
    && r.order == (if PastSwap(s.pcs[t]) then s.order else s.order + [t])
    && r.count == s.count + (if PastCount(s.pcs[t]) then 0 else 1)
    && r.valNull == (s.valNull && s.pcs[t].Done?)
    && r.failures == s.failures + (if Left(s, t) == 5 then 1 else 0)
  }

  function Turns(t: nat, k: nat): seq<nat> {
    if k == 0 then [] else [t] + Turns(t, k - 1)
  }

  lemma TurnsStep<B, V>(add: (B, V) -> B, args: seq<V>, s: State<B>, t: nat, k: nat)
    requires |args| == |s.pcs|
    ensures Run(add, args, s, Turns(t, k + 1)) == Run(add, args, Step(add, args, s, t), Turns(t, k))
  {
    var none: seq<nat> := [];
    RunStep(add, args, s, none, t);
    RunMore(add, args, s, none + [t], Turns(t, k));
    assert none + [t] + Turns(t, k) == Turns(t, k + 1);
  }

  lemma LeftStep<B, V>(add: (B, V) -> B, args: seq<V>, s: State<B>, t: nat)
    requires t < |s.pcs| == |args| && Left(s, t) > 0
    ensures var r := Step(add, args, s, t);
      && |r.pcs| == |s.pcs| && Left(r, t) == Left(s, t) - 1
      && r.failures == s.failures + if Left(s, t) == 5 then 1 else 0
  {
  }

  lemma StepAlone<B, V>(add: (B, V) -> B, args: seq<V>, s: State<B>, t: nat, r: State<B>)
    requires t < |s.pcs| == |args| && Left(s, t) > 0
    requires Finished(add, args, Step(add, args, s, t), t, r)
    ensures Finished(add, args, s, t, r)
  {
    LeftStep(add, args, s, t);
    assert s.pcs[t := Step(add, args, s, t).pcs[t]][t := Done] == s.pcs[t := Done];
  }

  /** A call that is done takes no more steps. */
  lemma {:induction false} DoneStays<B, V>(add: (B, V) -> B, args: seq<V>, s: State<B>, t: nat, k: nat)
    requires t < |s.pcs| == |args| && s.pcs[t].Done?
    ensures Run(add, args, s, Turns(t, k)) == s
    decreases k
  {
    if k > 0 {
      TurnsStep(add, args, s, t, k - 1);
      DoneStays(add, args, s, t, k - 1);
    }
  }

  lemma DoneFinished<B, V>(add: (B, V) -> B, args: seq<V>, s: State<B>, t: nat)
    requires t < |s.pcs| == |args| && s.pcs[t].Done?
    ensures Finished(add, args, s, t, s)
  {
    assert s.pcs[t := Done] == s.pcs;
  }

  lemma {:induction false} FinishesIn<B, V>(add: (B, V) -> B, args: seq<V>, s: State<B>, t: nat, k: nat)
    requires t < |s.pcs| == |args| && Left(s, t) <= k
    ensures Finished(add, args, s, t, Run(add, args, s, Turns(t, k)))
    decreases k
  {
    if Left(s, t) == 0 {
      DoneStays(add, args, s, t, k);
      DoneFinished(add, args, s, t);
    } else {
      var s1 := Step(add, args, s, t);
      TurnsStep(add, args, s, t, k - 1);
      LeftStep(add, args, s, t);
      FinishesIn(add, args, s1, t, k - 1);
      StepAlone(add, args, s, t, Run(add, args, s1, Turns(t, k - 1)));
    }
  }

  /** Five steps of a call that runs alone finish it, from every state. */
  lemma FinishesAlone<B, V>(add: (B, V) -> B, args: seq<V>, s: State<B>, t: nat)
    requires t < |s.pcs| == |args|
    ensures Finished(add, args, s, t, Run(add, args, s, Turns(t, 5)))
  {
    FinishesIn(add, args, s, t, 5);
  }

  lemma DoneMore<B>(pcs: seq<Pc<B>>, n: nat, r: seq<Pc<B>>)
    requires n < |pcs| && (forall t :: 0 <= t < n ==> pcs[t].Done?) && r == pcs[n := Done]
    ensures forall t :: 0 <= t < n + 1 ==> r[t].Done?
  {
  }

  /** Any run can go on until the first `n` calls are done. */
  lemma {:induction false} Completes<B, V>(add: (B, V) -> B, args: seq<V>, s: State<B>, n: nat) returns (more: seq<nat>)
    requires n <= |s.pcs| == |args|
    ensures var r := Run(add, args, s, more); |r.pcs| == |s.pcs| && forall t :: 0 <= t < n ==> r.pcs[t].Done?
  {
    more := [];
    if n > 0 {
      var before := Completes(add, args, s, n - 1);
      var q := Run(add, args, s, before);
      more := before + Turns(n - 1, 5);
      RunMore(add, args, s, before, Turns(n - 1, 5));
      FinishesAlone(add, args, q, n - 1);
      DoneMore(q.pcs, n - 1, Run(add, args, s, more).pcs);
    }
  }

  /** Every run has a continuation in which all calls return; then nothing is lost. */
  lemma EveryRunCompletes<B, V>(add: (B, V) -> B, args: seq<V>, value: B, count: int, valNull: bool, schedule: seq<nat>)
      returns (more: seq<nat>)
    ensures var r := Run(add, args, Init(value, count, valNull, |args|), schedule + more);
      && AllDone(r) && r.count == count + |args| && (args != [] ==> !r.valNull)
      && multiset(r.order) == multiset(seq(|args|, i => i))
      && (forall i :: 0 <= i < |r.order| ==> r.order[i] < |args|) && r.value == Fold(add, args, value, r.order)
  {
    var s0 := Init(value, count, valNull, |args|);
    more := Completes(add, args, Run(add, args, s0, schedule), |args|);
    RunMore(add, args, s0, schedule, more);
    NothingLost(add, args, value, count, valNull, schedule + more);
  }
}
