/** Concurrent `CustomPoint.ValueAdd` calls on one point (snitch/custom_point.go), one atomic
    operation per step. `B` is a 64-bit pattern and `add` the float addition on patterns: nothing is
    assumed of either, so the results hold for float64 with its rounding and its NaNs. */
module CasPoint {
  import Sorting

  /** Where a call stands. `seen` records how many swaps had succeeded when `ob` was loaded. */
  datatype Pc<B> = Ready | Loaded(ob: B, seen: nat) | Swapped | Counted | Done

  /** The shared words, the calls, the order of successful swaps and the number of failed ones. */
  datatype State<B> = State(value: B, count: int, valNull: bool, pcs: seq<Pc<B>>, order: seq<nat>, failures: nat)

  /** The next atomic operation of call `t`, which adds `args[t]`. */
  function Step<B(==), V>(add: (B, V) -> B, args: seq<V>, s: State<B>, t: nat): State<B>
    requires |args| == |s.pcs|
  {
    if t >= |s.pcs| then s else
    match s.pcs[t]
    case Ready => s.(pcs := s.pcs[t := Loaded(s.value, |s.order|)])
    case Loaded(ob, _) =>
      if s.value == ob then
        s.(value := add(ob, args[t]), pcs := s.pcs[t := Swapped], order := s.order + [t])
      else
        s.(pcs := s.pcs[t := Ready], failures := s.failures + 1)
    case Swapped => s.(count := s.count + 1, pcs := s.pcs[t := Counted])
    case Counted => s.(valNull := false, pcs := s.pcs[t := Done])
    case Done => s
  }

  function Run<B(==), V>(add: (B, V) -> B, args: seq<V>, s: State<B>, schedule: seq<nat>): (r: State<B>)
    requires |args| == |s.pcs|
    ensures |r.pcs| == |s.pcs|
  {
    if schedule == [] then s
    else Step(add, args, Run(add, args, s, schedule[..|schedule| - 1]), schedule[|schedule| - 1])
  }

  function Init<B>(value: B, count: int, valNull: bool, n: nat): State<B> {
    State(value, count, valNull, seq(n, _ => Ready), [], 0)
  }

  /** The additions of `order` applied one after the other, from the left. */
  function Fold<B, V>(add: (B, V) -> B, args: seq<V>, start: B, order: seq<nat>): B
    requires forall i :: 0 <= i < |order| ==> order[i] < |args|
  {
    if order == [] then start
    else add(Fold(add, args, start, order[..|order| - 1]), args[order[|order| - 1]])
  }

  function Count<B>(p: Pc<B> -> bool, pcs: seq<Pc<B>>): nat {
    if pcs == [] then 0 else Count(p, pcs[..|pcs| - 1]) + if p(pcs[|pcs| - 1]) then 1 else 0
  }

  predicate PastSwap<B>(pc: Pc<B>) {
    pc.Swapped? || pc.Counted? || pc.Done?
  }

  predicate PastCount<B>(pc: Pc<B>) {
    pc.Counted? || pc.Done?
  }

  /** Overtaken since its load, when `k` swaps have succeeded by now: only then can its swap fail. */
  function Overtaken<B>(k: nat): Pc<B> -> bool {
    (pc: Pc<B>) => pc.Loaded? && pc.seen < k
  }

  /** (n-1) + (n-2) + ... + (n-k) */
  function Overtakings(n: nat, k: nat): int {
    if k == 0 then 0 else Overtakings(n, k - 1) + n - k
  }

  /** `order` lists exactly the calls whose swap succeeded, each once. */
  ghost predicate OrderInv<B>(s: State<B>) {
    && Sorting.Distinct(s.order)
    && (forall i :: 0 <= i < |s.order| ==> s.order[i] < |s.pcs|)
    && (forall t :: 0 <= t < |s.pcs| ==> (PastSwap(s.pcs[t]) <==> t in s.order))
    && Count(PastSwap, s.pcs) == |s.order|
  }

  ghost predicate LoadInv<B>(s: State<B>) {
    forall t :: 0 <= t < |s.pcs| && s.pcs[t].Loaded? ==>
      s.pcs[t].seen <= |s.order| && (s.pcs[t].seen == |s.order| ==> s.pcs[t].ob == s.value)
  }

  ghost predicate NullInv<B>(s0: State<B>, s: State<B>) {
    s.valNull <==> s0.valNull && forall t :: 0 <= t < |s.pcs| ==> !s.pcs[t].Done?
  }

  /** The value folds `order`, every count is counted, and failures are paid for by overtakings. */
  ghost predicate Totals<B, V>(add: (B, V) -> B, args: seq<V>, s0: State<B>, s: State<B>)
    requires |args| == |s.pcs| && OrderInv(s)
  {
    && s.value == Fold(add, args, s0.value, s.order)
    && s.count == s0.count + Count(PastCount, s.pcs)
    && s.failures + Count(Overtaken(|s.order|), s.pcs) <= Overtakings(|args|, |s.order|)
  }

  ghost predicate Inv<B, V>(add: (B, V) -> B, args: seq<V>, s0: State<B>, s: State<B>) {
    |s.pcs| == |args| && OrderInv(s) && LoadInv(s) && NullInv(s0, s) && Totals(add, args, s0, s)
  }

  lemma {:induction false} CountUpdate<B>(p: Pc<B> -> bool, pcs: seq<Pc<B>>, t: nat, pc: Pc<B>)
    requires t < |pcs|
    ensures Count(p, pcs[t := pc]) == Count(p, pcs) - (if p(pcs[t]) then 1 else 0) + if p(pc) then 1 else 0
  {
    var init := pcs[..|pcs| - 1];
    if t == |pcs| - 1 {
      assert pcs[t := pc][..t] == init;
    } else {
      CountUpdate(p, init, t, pc);
      assert pcs[t := pc][..|pcs| - 1] == init[t := pc];
    }
  }

  lemma {:induction false} CountNone<B>(p: Pc<B> -> bool, pcs: seq<Pc<B>>)
    requires forall t :: 0 <= t < |pcs| ==> !p(pcs[t])
    ensures Count(p, pcs) == 0
  {
    if pcs != [] { CountNone(p, pcs[..|pcs| - 1]); }
  }

  lemma {:induction false} CountAll<B>(p: Pc<B> -> bool, pcs: seq<Pc<B>>)
    requires forall t :: 0 <= t < |pcs| ==> p(pcs[t])
    ensures Count(p, pcs) == |pcs|
  {
    if pcs != [] { CountAll(p, pcs[..|pcs| - 1]); }
  }

  /** A call is overtaken only before its own swap. */
  lemma {:induction false} OvertakenBound<B>(pcs: seq<Pc<B>>, k: nat)
    ensures Count(Overtaken(k), pcs) + Count(PastSwap, pcs) <= |pcs|
  {
    if pcs != [] { OvertakenBound(pcs[..|pcs| - 1], k); }
  }

  lemma FoldStep<B, V>(add: (B, V) -> B, args: seq<V>, start: B, order: seq<nat>, t: nat)
    requires t < |args| && forall i :: 0 <= i < |order| ==> order[i] < |args|
    ensures Fold(add, args, start, order + [t]) == add(Fold(add, args, start, order), args[t])
  {
    assert (order + [t])[..|order|] == order;
  }

  lemma SwapKeepsOrder<B, V>(add: (B, V) -> B, args: seq<V>, s: State<B>, t: nat)
    requires |args| == |s.pcs| && OrderInv(s) && t < |s.pcs| && s.pcs[t].Loaded? && s.value == s.pcs[t].ob
    ensures OrderInv(Step(add, args, s, t))
  {
    var r := Step(add, args, s, t);
    CountUpdate(PastSwap, s.pcs, t, r.pcs[t]);
    assert !PastSwap(s.pcs[t]) && t !in s.order;
    forall u | 0 <= u < |r.pcs| ensures PastSwap(r.pcs[u]) <==> u in r.order {
      assert PastSwap(s.pcs[u]) <==> u in s.order;
    }
  }

  lemma StepKeepsOrder<B, V>(add: (B, V) -> B, args: seq<V>, s: State<B>, t: nat)
    requires |args| == |s.pcs| && OrderInv(s)
    ensures OrderInv(Step(add, args, s, t))
  {
    if t < |s.pcs| {
      var r := Step(add, args, s, t);
      if s.pcs[t].Loaded? && s.value == s.pcs[t].ob {
        SwapKeepsOrder(add, args, s, t);
      } else {
        CountUpdate(PastSwap, s.pcs, t, r.pcs[t]);
        assert r.order == s.order && (PastSwap(r.pcs[t]) <==> PastSwap(s.pcs[t]));
      }
    }
  }

  lemma StepKeepsLoads<B, V>(add: (B, V) -> B, args: seq<V>, s: State<B>, t: nat)
    requires |args| == |s.pcs| && LoadInv(s)
    ensures LoadInv(Step(add, args, s, t))
  {
  }

  lemma SwapKeepsTotals<B, V>(add: (B, V) -> B, args: seq<V>, s0: State<B>, s: State<B>, t: nat)
    requires |args| == |s.pcs| && OrderInv(s) && Totals(add, args, s0, s)
    requires t < |s.pcs| && s.pcs[t].Loaded? && s.value == s.pcs[t].ob && OrderInv(Step(add, args, s, t))
    ensures Totals(add, args, s0, Step(add, args, s, t))
  {
    var r := Step(add, args, s, t);
    CountUpdate(PastCount, s.pcs, t, Swapped);
    FoldStep(add, args, s0.value, s.order, t);
    OvertakenBound(r.pcs, |r.order|);
  }

  lemma OtherKeepsTotals<B, V>(add: (B, V) -> B, args: seq<V>, s0: State<B>, s: State<B>, t: nat)
    requires |args| == |s.pcs| && OrderInv(s) && LoadInv(s) && Totals(add, args, s0, s)
    requires t < |s.pcs| && (s.pcs[t].Loaded? ==> s.value != s.pcs[t].ob) && OrderInv(Step(add, args, s, t))
    ensures Totals(add, args, s0, Step(add, args, s, t))
  {
    var r := Step(add, args, s, t);
    CountUpdate(PastCount, s.pcs, t, r.pcs[t]);
    CountUpdate(Overtaken(|s.order|), s.pcs, t, r.pcs[t]);
    assert s.pcs[t].Loaded? ==> Overtaken(|s.order|)(s.pcs[t]);
  }

  lemma StepKeepsNull<B, V>(add: (B, V) -> B, args: seq<V>, s0: State<B>, s: State<B>, t: nat)
    requires |args| == |s.pcs| && NullInv(s0, s)
    ensures NullInv(s0, Step(add, args, s, t))
  {
    if t < |s.pcs| {
      var r := Step(add, args, s, t);
      assert forall u :: 0 <= u < |s.pcs| && u != t ==> r.pcs[u] == s.pcs[u];
      assert r.pcs[t].Done? <==> s.pcs[t].Done? || s.pcs[t].Counted?;
      if s.pcs[t].Counted? { assert r.pcs[t].Done?; }
    }
  }

  lemma StepKeepsInv<B, V>(add: (B, V) -> B, args: seq<V>, s0: State<B>, s: State<B>, t: nat)
    requires Inv(add, args, s0, s)
    ensures Inv(add, args, s0, Step(add, args, s, t))
  {
    StepKeepsOrder(add, args, s, t);
    StepKeepsLoads(add, args, s, t);
    StepKeepsNull(add, args, s0, s, t);
    if t < |s.pcs| {
      if s.pcs[t].Loaded? && s.value == s.pcs[t].ob {
        SwapKeepsTotals(add, args, s0, s, t);
      } else {
        OtherKeepsTotals(add, args, s0, s, t);
      }
    }
  }

  lemma {:induction false} RunKeepsInv<B, V>(add: (B, V) -> B, args: seq<V>, s0: State<B>, schedule: seq<nat>)
    requires s0 == Init(s0.value, s0.count, s0.valNull, |args|)
    ensures Inv(add, args, s0, Run(add, args, s0, schedule))
  {
    if schedule == [] {
      CountNone(PastSwap, s0.pcs);
      CountNone(PastCount, s0.pcs);
      CountNone(Overtaken(0), s0.pcs);
    } else {
      RunKeepsInv(add, args, s0, schedule[..|schedule| - 1]);
      StepKeepsInv(add, args, s0, Run(add, args, s0, schedule[..|schedule| - 1]), schedule[|schedule| - 1]);
    }
  }

  lemma Quadratic(n: int, k: int)
    ensures (k - 1) * (2 * n - k) + 2 * (n - k) == k * (2 * n - k - 1)
  {
  }

  lemma {:induction false} OvertakingsSum(n: nat, k: nat)
    ensures 2 * Overtakings(n, k) == k * (2 * n - k - 1)
  {
    if k > 0 {
      OvertakingsSum(n, k - 1);
      Quadratic(n, k);
    }
  }

  lemma {:induction false} OvertakingsGrow(n: nat, k: nat)
    requires k <= n
    ensures Overtakings(n, k) <= Overtakings(n, n)
    decreases n - k
  {
    if k < n {
      OvertakingsGrow(n, k + 1);
      assert Overtakings(n, k + 1) == Overtakings(n, k) + n - (k + 1);
    }
  }

  lemma OvertakingsBound(n: nat, k: nat)
    requires k <= n
    ensures 2 * Overtakings(n, k) <= n * (n - 1)
  {
    OvertakingsGrow(n, k);
    OvertakingsSum(n, n);
  }

  /** In every interleaving the value is the left fold of the additions in the order their swaps
      succeeded, each call at most once, and at most n(n-1)/2 swaps have failed. */
  lemma Linearizable<B, V>(add: (B, V) -> B, args: seq<V>, value: B, count: int, valNull: bool, schedule: seq<nat>)
    ensures var n, r := |args|, Run(add, args, Init(value, count, valNull, |args|), schedule);
      && OrderInv(r)
      && r.value == Fold(add, args, value, r.order)
      && 2 * r.failures <= n * (n - 1)
  {
    var s0 := Init(value, count, valNull, |args|);
    RunKeepsInv(add, args, s0, schedule);
    var r := Run(add, args, s0, schedule);
    OvertakenBound(r.pcs, 0);
    OvertakingsBound(|args|, |r.order|);
  }

  ghost predicate AllDone<B>(s: State<B>) {
    forall t :: 0 <= t < |s.pcs| ==> s.pcs[t].Done?
  }

  /** Once every call has returned, no addition is lost: each is folded in exactly once and counted once. */
  lemma NothingLost<B, V>(add: (B, V) -> B, args: seq<V>, value: B, count: int, valNull: bool, schedule: seq<nat>)
    requires AllDone(Run(add, args, Init(value, count, valNull, |args|), schedule))
    ensures var r := Run(add, args, Init(value, count, valNull, |args|), schedule);
      && multiset(r.order) == multiset(seq(|args|, i => i))
      && (forall i :: 0 <= i < |r.order| ==> r.order[i] < |args|)
      && r.value == Fold(add, args, value, r.order)
      && r.count == count + |args|
      && (args != [] ==> !r.valNull)
  {
    var s0 := Init(value, count, valNull, |args|);
    RunKeepsInv(add, args, s0, schedule);
    var r := Run(add, args, s0, schedule);
    CountAll(PastSwap, r.pcs);
    CountAll(PastCount, r.pcs);
    if args != [] { assert r.pcs[0].Done?; }
    var all := seq(|args|, i => i);
    forall t | t in all ensures t in r.order {
      assert PastSwap(r.pcs[t]);
    }
    Sorting.SameElements(all, r.order);
  }
}
