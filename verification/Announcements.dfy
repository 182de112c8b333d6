/** What managers announce on their feedback channels (election/election.go), read off the log of every run: each call
    that gets through announces exactly one role, the right one. */
module Announcements {
  import opened Options
  import opened Election
  import Sorting

  /** Past its announcement. */
  predicate Announces(pc: Pc) {
    pc.GetOwnSlave? || pc.DeleteOwnSlave? || pc == Done(true)
  }

  /** How often call `i` announces a role. */
  function SignalsOf(log: seq<Event>, i: nat): nat {
    if log == [] then 0 else
    var e := log[|log| - 1];
    SignalsOf(log[..|log| - 1], i) + if e.Signalled? && e.call == i then 1 else 0
  }

  /** How often manager `m` announces a role. */
  function SignalsBy(log: seq<Event>, m: nat): nat {
    if log == [] then 0 else
    var e := log[|log| - 1];
    SignalsBy(log[..|log| - 1], m) + if e.Signalled? && e.manager == m then 1 else 0
  }

  /** How many calls of manager `m` are past their announcement. */
  function PastBy(calls: seq<Call>, m: nat): nat {
    if calls == [] then 0 else
    var k := calls[|calls| - 1];
    PastBy(calls[..|calls| - 1], m) + if k.manager == m && Announces(k.pc) then 1 else 0
  }

  predicate Concerns(e: Event, i: nat) {
    (e.Created? || e.Signalled?) && e.call == i
  }

  /** The log creates the election node in the name of call `i`. */
  ghost predicate CreatedBy(log: seq<Event>, i: nat) {
    exists p :: 0 <= p < |log| && log[p].Created? && log[p].call == i
  }

  /** Call `i` began, and whatever it did it did afterwards. */
  ghost predicate BeganFirst(log: seq<Event>, i: nat, m: nat) {
    exists b :: 0 <= b < |log| && log[b] == Began(i, m) && forall p :: 0 <= p <= b ==> !Concerns(log[p], i)
  }

  ghost predicate SaysRight(c: Cluster, e: Event, i: nat)
    requires i < |c.calls|
  {
    e.Signalled? && e.call == i ==>
      && e.manager == c.calls[i].manager && e.session == c.calls[i].session
      && (e.role.Master? <==> CreatedBy(c.log, i))
  }

  ghost predicate CallInv(c: Cluster, i: nat)
    requires i < |c.calls|
  {
    var k := c.calls[i];
    && BeganFirst(c.log, i, k.manager)
    && SignalsOf(c.log, i) == (if Announces(k.pc) then 1 else 0)
    && (Registering(k.pc) || k.pc.SignalSlave? ==> !CreatedBy(c.log, i))
    && (k.pc.SignalMaster? || k.pc.GetOwnSlave? || k.pc.DeleteOwnSlave? ==> CreatedBy(c.log, i))
    && (forall p :: 0 <= p < |c.log| ==> SaysRight(c, c.log[p], i))
  }

  ghost predicate Inv(c: Cluster) {
    && (forall i :: 0 <= i < |c.calls| ==> CallInv(c, i))
    && (forall p :: 0 <= p < |c.log| && (c.log[p].Created? || c.log[p].Signalled?) ==> c.log[p].call < |c.calls|)
  }

  lemma LogGrows(log: seq<Event>, e: Event, i: nat)
    ensures SignalsOf(log + [e], i) == SignalsOf(log, i) + if e.Signalled? && e.call == i then 1 else 0
    ensures CreatedBy(log + [e], i) <==> CreatedBy(log, i) || (e.Created? && e.call == i)
    ensures forall m :: BeganFirst(log, i, m) ==> BeganFirst(log + [e], i, m)
  {
    var r := log + [e];
    assert r[..|log|] == log;
    if CreatedBy(log, i) {
      var p :| 0 <= p < |log| && log[p].Created? && log[p].call == i;
      assert r[p] == log[p];
    }
    if e.Created? && e.call == i { assert r[|log|] == e; }
    forall m | BeganFirst(log, i, m) ensures BeganFirst(r, i, m) {
      var b :| 0 <= b < |log| && log[b] == Began(i, m) && forall p :: 0 <= p <= b ==> !Concerns(log[p], i);
      assert r[b] == log[b] && forall p :: 0 <= p <= b ==> r[p] == log[p];
    }
  }

  /** An event of another call, or of none, changes nothing about call `i`. */
  lemma OtherEvent(c: Cluster, r: Cluster, e: Event, i: nat)
    requires i < |c.calls| <= |r.calls| && r.calls[i] == c.calls[i] && CallInv(c, i)
    requires r.log == c.log + [e] && !Concerns(e, i)
    ensures CallInv(r, i)
  {
    LogGrows(c.log, e, i);
  }

  lemma SameLog(c: Cluster, r: Cluster, i: nat)
    requires i < |c.calls| <= |r.calls| && r.calls[i] == c.calls[i] && CallInv(c, i) && r.log == c.log
    ensures CallInv(r, i)
  {
  }

  lemma BeginKeeps(c: Cluster, m: nat)
    requires Inv(c)
    ensures Inv(Apply(c, Begin(m)))
  {
    var r, n := Apply(c, Begin(m)), |c.calls|;
    if r != c {
      forall i | 0 <= i < n ensures CallInv(r, i) { OtherEvent(c, r, Began(n, m), i); }
      LogGrows(c.log, Began(n, m), n);
      NoEvents(c.log, n);
      assert r.log[|c.log|] == Began(n, m);
      assert BeganFirst(r.log, n, m);
    }
  }

  lemma {:induction false} NoEvents(log: seq<Event>, n: nat)
    requires forall p :: 0 <= p < |log| ==> !Concerns(log[p], n)
    ensures SignalsOf(log, n) == 0 && !CreatedBy(log, n)
  {
    if log != [] { NoEvents(log[..|log| - 1], n); }
  }

  /** Where a call can go: it announces Master only after its own creation, and Slave only without one. */
  lemma PcStep(c: Cluster, i: nat, reply: Reply)
    requires i < |c.calls| && Valid(c, c.calls[i])
    ensures var k, n, r := c.calls[i].pc, AdvanceCall(c, i, reply).calls[i], AdvanceCall(c, i, reply);
      && (Registering(k) && r.log == c.log ==> Registering(n.pc) || n.pc.SignalSlave? || n.pc == Done(false))
      && (Registering(k) && r.log != c.log ==> n.pc.SignalMaster? || n.pc == Done(false))
      && (k.SignalMaster? ==> n.pc.GetOwnSlave?) && (k.SignalSlave? ==> n.pc == Done(true))
      && (k.GetOwnSlave? ==> n.pc.DeleteOwnSlave? || n.pc == Done(true))
      && (k.DeleteOwnSlave? ==> n.pc == Done(true)) && (k.Done? ==> n.pc == k)
      && (!Registering(k) ==> n.session == c.calls[i].session) && n.manager == c.calls[i].manager
  {
  }

  lemma SilentStep(c: Cluster, r: Cluster, i: nat)
    requires i < |c.calls| == |r.calls| && CallInv(c, i) && r.log == c.log && r.calls[i].manager == c.calls[i].manager
    requires Announces(r.calls[i].pc) <==> Announces(c.calls[i].pc)
    requires Announces(c.calls[i].pc) ==> r.calls[i].session == c.calls[i].session
    requires Registering(r.calls[i].pc) || r.calls[i].pc.SignalSlave? ==> !CreatedBy(c.log, i)
    requires r.calls[i].pc.SignalMaster? || r.calls[i].pc.GetOwnSlave? || r.calls[i].pc.DeleteOwnSlave? ==>
      CreatedBy(c.log, i)
    ensures CallInv(r, i)
  {
    NoSignals(c.log, i);
  }

  lemma SignalStep(c: Cluster, r: Cluster, i: nat, role: Role)
    requires i < |c.calls| == |r.calls| && CallInv(c, i) && !Announces(c.calls[i].pc) && Announces(r.calls[i].pc)
    requires r.calls[i].manager == c.calls[i].manager && r.calls[i].session == c.calls[i].session
    requires r.log == c.log + [Signalled(i, c.calls[i].manager, c.calls[i].session, role)]
    requires role.Master? <==> CreatedBy(c.log, i)
    requires !r.calls[i].pc.Done? ==> role.Master?
    ensures CallInv(r, i)
  {
    LogGrows(c.log, r.log[|c.log|], i);
    NoSignals(c.log, i);
  }

  lemma CreateStep(c: Cluster, r: Cluster, i: nat, s: Session)
    requires i < |c.calls| == |r.calls| && CallInv(c, i) && !Announces(c.calls[i].pc)
    requires r.calls[i].manager == c.calls[i].manager && (r.calls[i].pc.SignalMaster? || r.calls[i].pc == Done(false))
    requires r.log == c.log + [Created(s, i)]
    ensures CallInv(r, i)
  {
    LogGrows(c.log, r.log[|c.log|], i);
    NoSignals(c.log, i);
  }

  lemma OwnStep(c: Cluster, i: nat, reply: Reply)
    requires i < |c.calls| && Valid(c, c.calls[i]) && CallInv(c, i)
    ensures CallInv(AdvanceCall(c, i, reply), i)
  {
    var r, pc := AdvanceCall(c, i, reply), c.calls[i].pc;
    AdvanceFrame(c, i, reply);
    AdvanceLog(c, i, reply);
    PcStep(c, i, reply);
    if pc.SignalMaster? {
      SignalStep(c, r, i, Master);
    } else if pc.SignalSlave? {
      SignalStep(c, r, i, Slave);
    } else if r.log != c.log {
      CreateStep(c, r, i, c.managers[c.calls[i].manager].conn.value);
    } else {
      SilentStep(c, r, i);
    }
  }

  lemma {:induction false} NoSignals(log: seq<Event>, i: nat)
    ensures SignalsOf(log, i) == 0 ==> forall p :: 0 <= p < |log| ==> !(log[p].Signalled? && log[p].call == i)
  {
    if log != [] { NoSignals(log[..|log| - 1], i); }
  }

  lemma AdvanceKeeps(c: Cluster, i: nat, reply: Reply)
    requires i < |c.calls| && Valid(c, c.calls[i]) && Inv(c)
    ensures Inv(AdvanceCall(c, i, reply))
  {
    var r := AdvanceCall(c, i, reply);
    AdvanceFrame(c, i, reply);
    AdvanceLog(c, i, reply);
    forall j | 0 <= j < |r.calls| ensures CallInv(r, j) {
      if j == i {
        OwnStep(c, i, reply);
      } else if r.log == c.log {
        SameLog(c, r, j);
      } else {
        OtherEvent(c, r, r.log[|c.log|], j);
      }
    }
  }

  lemma EndKeeps(c: Cluster, a: Action)
    requires Inv(c) && !a.Advance? && !a.Begin?
    ensures Inv(Apply(c, a))
  {
    var r := Apply(c, a);
    forall i | 0 <= i < |c.calls| ensures CallInv(r, i) {
      if r.log == c.log { SameLog(c, r, i); } else { OtherEvent(c, r, r.log[|c.log|], i); }
    }
  }

  lemma {:induction false} RunKeeps(names: seq<Name>, actions: seq<Action>)
    ensures Inv(Run(names, actions))
  {
    if actions != [] {
      var c, a := Run(names, actions[..|actions| - 1]), actions[|actions| - 1];
      RunKeeps(names, actions[..|actions| - 1]);
      if a.Begin? {
        BeginKeeps(c, a.m);
      } else if !a.Advance? {
        EndKeeps(c, a);
      } else if a.i < |c.calls| && Valid(c, c.calls[a.i]) {
        AdvanceKeeps(c, a.i, a.reply);
      }
    }
  }

  // ---------- what the log tells ----------

  lemma {:induction false} SignalFound(log: seq<Event>, i: nat) returns (p: nat)
    requires SignalsOf(log, i) > 0
    ensures p < |log| && log[p].Signalled? && log[p].call == i
  {
    p := |log| - 1;
    if !(log[p].Signalled? && log[p].call == i) { p := SignalFound(log[..p], i); }
  }

  /** The role call `i` has to announce. */
  ghost function RoleOf(log: seq<Event>, i: nat): Role {
    if CreatedBy(log, i) then Master else Slave
  }

  /** Call `i` announces `e`, and began before. */
  ghost predicate AnnouncedSince(log: seq<Event>, i: nat, m: nat, e: Event) {
    exists b, p :: 0 <= b < p < |log| && log[b] == Began(i, m) && log[p] == e
  }

  lemma AnnouncesOnce(c: Cluster, i: nat)
    requires i < |c.calls| && CallInv(c, i) && Announces(c.calls[i].pc)
    ensures var k := c.calls[i];
      AnnouncedSince(c.log, i, k.manager, Signalled(i, k.manager, k.session, RoleOf(c.log, i)))
  {
    var k := c.calls[i];
    var p := SignalFound(c.log, i);
    var b :| 0 <= b < |c.log| && c.log[b] == Began(i, k.manager) && forall q :: 0 <= q <= b ==> !Concerns(c.log[q], i);
    assert SaysRight(c, c.log[p], i) && Concerns(c.log[p], i) && b < p;
    assert c.log[p] == Signalled(i, k.manager, k.session, RoleOf(c.log, i));
  }

  /** In every run: a call announces exactly one role by the time it has got through, and none if it has not. It
      announces it after it began, for its own manager and in the session it is registered in, and the role is Master
      exactly when the call itself created the election node. */
  lemma EachCallAnnouncesOnce(names: seq<Name>, actions: seq<Action>, i: nat)
    requires i < |Run(names, actions).calls|
    ensures var c, k := Run(names, actions), Run(names, actions).calls[i];
      && SignalsOf(c.log, i) == (if Announces(k.pc) then 1 else 0)
      && (Announces(k.pc) ==>
            AnnouncedSince(c.log, i, k.manager, Signalled(i, k.manager, k.session, RoleOf(c.log, i))))
  {
    RunKeeps(names, actions);
    var c := Run(names, actions);
    assert CallInv(c, i);
    if Announces(c.calls[i].pc) { AnnouncesOnce(c, i); }
  }

  lemma {:induction false} PastUpdate(calls: seq<Call>, i: nat, k: Call, m: nat)
    requires i < |calls| && k.manager == calls[i].manager
    ensures PastBy(calls[i := k], m) == PastBy(calls, m)
      - (if calls[i].manager == m && Announces(calls[i].pc) then 1 else 0)
      + if k.manager == m && Announces(k.pc) then 1 else 0
  {
    var init := calls[..|calls| - 1];
    if i == |calls| - 1 {
      assert calls[i := k][..i] == init;
    } else {
      PastUpdate(init, i, k, m);
      assert calls[i := k][..|calls| - 1] == init[i := k];
    }
  }

  lemma SignalsByStep(log: seq<Event>, e: Event, m: nat)
    ensures SignalsBy(log + [e], m) == SignalsBy(log, m) + if e.Signalled? && e.manager == m then 1 else 0
  {
    assert (log + [e])[..|log|] == log;
  }

  /** One more call past its announcement, and one more announcement of its manager. */
  lemma SayCounts(calls: seq<Call>, i: nat, k: Call, log: seq<Event>, e: Event, m: nat)
    requires SignalsBy(log, m) == PastBy(calls, m) && i < |calls| && k.manager == calls[i].manager
    requires !Announces(calls[i].pc) && Announces(k.pc) && e.Signalled? && e.manager == k.manager
    ensures SignalsBy(log + [e], m) == PastBy(calls[i := k], m)
  {
    SignalsByStep(log, e, m);
    PastUpdate(calls, i, k, m);
  }

  lemma MoveCounts(calls: seq<Call>, i: nat, k: Call, log: seq<Event>, m: nat)
    requires SignalsBy(log, m) == PastBy(calls, m) && i < |calls| && k.manager == calls[i].manager
    requires Announces(calls[i].pc) <==> Announces(k.pc)
    ensures SignalsBy(log, m) == PastBy(calls[i := k], m)
  {
    PastUpdate(calls, i, k, m);
  }

  lemma EventCounts(calls: seq<Call>, log: seq<Event>, e: Event, m: nat)
    requires SignalsBy(log, m) == PastBy(calls, m) && !e.Signalled?
    ensures SignalsBy(log + [e], m) == PastBy(calls, m)
  {
    SignalsByStep(log, e, m);
  }

  lemma BeginCounts(calls: seq<Call>, k: Call, m: nat)
    requires !Announces(k.pc)
    ensures PastBy(calls + [k], m) == PastBy(calls, m)
  {
    assert (calls + [k])[..|calls|] == calls;
  }

  ghost predicate Balanced(calls: seq<Call>, log: seq<Event>, m: nat) {
    SignalsBy(log, m) == PastBy(calls, m)
  }

  /** Event `e` of a step that takes `was` to `k`: an announcement takes the call past it, nothing else does. */
  predicate Tells(was: Call, k: Call, e: Event) {
    if e.Signalled? then e.manager == k.manager && !Announces(was.pc) && Announces(k.pc)
    else Announces(was.pc) <==> Announces(k.pc)
  }

  /** What a step of call `i` makes of calls and log. */
  ghost predicate Stepped(calls: seq<Call>, log: seq<Event>, i: nat, k: Call, after: seq<Event>)
    requires i < |calls|
  {
    && k.manager == calls[i].manager
    && if after == log then Announces(calls[i].pc) <==> Announces(k.pc)
       else |after| == |log| + 1 && after == log + [after[|log|]] && Tells(calls[i], k, after[|log|])
  }

  lemma AdvanceStepped(c: Cluster, i: nat, reply: Reply)
    requires i < |c.calls| && Valid(c, c.calls[i])
    ensures var r := AdvanceCall(c, i, reply);
      r.calls == c.calls[i := r.calls[i]] && Stepped(c.calls, c.log, i, r.calls[i], r.log)
  {
    AdvanceLog(c, i, reply);
    PcStep(c, i, reply);
  }

  lemma SteppedCounts(calls: seq<Call>, log: seq<Event>, i: nat, k: Call, after: seq<Event>, m: nat)
    requires i < |calls| && Stepped(calls, log, i, k, after) && Balanced(calls, log, m)
    ensures Balanced(calls[i := k], after, m)
  {
    if after == log {
      MoveCounts(calls, i, k, log, m);
    } else if after[|log|].Signalled? {
      SayCounts(calls, i, k, log, after[|log|], m);
    } else {
      MoveCounts(calls, i, k, log, m);
      EventCounts(calls[i := k], log, after[|log|], m);
    }
  }

  lemma AdvanceCounts(c: Cluster, i: nat, reply: Reply, m: nat)
    requires i < |c.calls| && Valid(c, c.calls[i]) && Balanced(c.calls, c.log, m)
    ensures Balanced(AdvanceCall(c, i, reply).calls, AdvanceCall(c, i, reply).log, m)
  {
    var r := AdvanceCall(c, i, reply);
    AdvanceStepped(c, i, reply);
    SteppedCounts(c.calls, c.log, i, r.calls[i], r.log, m);
  }

  lemma OtherCounts(c: Cluster, a: Action, m: nat)
    requires !a.Advance? && Balanced(c.calls, c.log, m)
    ensures Balanced(Apply(c, a).calls, Apply(c, a).log, m)
  {
    var r := Apply(c, a);
    if a.Begin? && r != c {
      var k := Call(a.m, GetMaster, c.managers[a.m].conn.value);
      assert r.calls == c.calls + [k] && r.log == c.log + [Began(|c.calls|, a.m)];
      EventCounts(c.calls, c.log, Began(|c.calls|, a.m), m);
      BeginCounts(c.calls, k, m);
    } else if a.End? && r != c {
      assert r.calls == c.calls && r.log == c.log + [Ended(a.s)];
      EventCounts(c.calls, c.log, Ended(a.s), m);
    } else {
      assert r.calls == c.calls && r.log == c.log;
    }
  }

  /** In every run: a manager announces as many roles as calls of its have got through. */
  lemma {:induction false} AnnouncementsCountCalls(names: seq<Name>, actions: seq<Action>, m: nat)
    ensures Balanced(Run(names, actions).calls, Run(names, actions).log, m)
  {
    if actions != [] {
      var c, a := Run(names, actions[..|actions| - 1]), actions[|actions| - 1];
      AnnouncementsCountCalls(names, actions[..|actions| - 1], m);
      if !a.Advance? {
        OtherCounts(c, a, m);
      } else if a.i < |c.calls| && Valid(c, c.calls[a.i]) {
        AdvanceCounts(c, a.i, a.reply, m);
      }
    }
  }

  // ---------- calls that fail ----------

  /** The request of the next step is answered. */
  predicate Answered(c: Cluster, i: nat, reply: Reply)
    requires i < |c.calls| && Valid(c, c.calls[i])
  {
    c.managers[c.calls[i].manager].conn.value in c.live && reply.Delivered?
  }

  /** ZooKeeper refuses the creation of a directory or slave node: it exists already, or its directory does not. */
  predicate Refused(c: Cluster, i: nat)
    requires i < |c.calls| && Valid(c, c.calls[i])
  {
    var name := c.managers[c.calls[i].manager].name;
    || (c.calls[i].pc.CreateDir? && c.tree.slaveDir)
    || (c.calls[i].pc.CreateSlave? && (name in c.tree.slaves || !c.tree.slaveDir))
  }

  /** A call that is still to register fails at a step exactly when its request is not answered or refused. */
  lemma FailsIff(c: Cluster, i: nat, reply: Reply)
    requires i < |c.calls| && Valid(c, c.calls[i]) && Registering(c.calls[i].pc)
    ensures AdvanceCall(c, i, reply).calls[i].pc == Done(false) <==> !Answered(c, i, reply) || Refused(c, i)
  {
  }

  lemma StepKeepsFailed(c: Cluster, a: Action, i: nat)
    requires i < |c.calls| && c.calls[i].pc == Done(false)
    ensures i < |Apply(c, a).calls| && Apply(c, a).calls[i].pc == Done(false)
  {
    if a.Advance? && a.i < |c.calls| && Valid(c, c.calls[a.i]) { AdvanceFrame(c, a.i, a.reply); }
  }

  lemma RunAdd(names: seq<Name>, actions: seq<Action>, a: Action)
    ensures Run(names, actions + [a]) == Apply(Run(names, actions), a)
  {
    assert (actions + [a])[..|actions|] == actions;
  }

  lemma {:induction false} FailedStays(names: seq<Name>, before: seq<Action>, after: seq<Action>, i: nat)
    requires i < |Run(names, before).calls| && Run(names, before).calls[i].pc == Done(false)
    ensures i < |Run(names, before + after).calls| && Run(names, before + after).calls[i].pc == Done(false)
  {
    if after == [] {
      assert before + after == before;
    } else {
      var init, a := after[..|after| - 1], after[|after| - 1];
      assert before + after == (before + init) + [a];
      FailedStays(names, before, init, i);
      RunAdd(names, before + init, a);
      StepKeepsFailed(Run(names, before + init), a, i);
    }
  }

  /** A call one of whose requests to register was not answered or refused has failed for good, and never announces a
      role. */
  lemma FailedCallIsSilent(names: seq<Name>, before: seq<Action>, i: nat, reply: Reply, after: seq<Action>)
    requires var c := Run(names, before); i < |c.calls| && Valid(c, c.calls[i]) && Registering(c.calls[i].pc)
    requires !Answered(Run(names, before), i, reply) || Refused(Run(names, before), i)
    ensures var c := Run(names, before + [Advance(i, reply)] + after);
      i < |c.calls| && c.calls[i].pc == Done(false) && SignalsOf(c.log, i) == 0
  {
    var now := before + [Advance(i, reply)];
    RunAdd(names, before, Advance(i, reply));
    FailsIff(Run(names, before), i, reply);
    AdvanceFrame(Run(names, before), i, reply);
    FailedStays(names, now, after, i);
    EachCallAnnouncesOnce(names, now + after, i);
  }

  // ---------- what a step does besides ----------

  /** A request takes effect whether or not its answer arrives, and one that is not sent has none. */
  lemma LostAnswerSameEffect(c: Cluster, i: nat, reply: Reply)
    requires i < |c.calls| && Valid(c, c.calls[i])
    ensures AdvanceCall(c, i, Lost).tree == AdvanceCall(c, i, Delivered).tree
    ensures reply.Unsent? || c.managers[c.calls[i].manager].conn.value !in c.live ==>
      AdvanceCall(c, i, reply).tree == c.tree
  {
  }

  /** A manager that reads its own name in the election node sets its flag at once. */
  lemma ReadsOwnName(c: Cluster, i: nat)
    requires i < |c.calls| && Valid(c, c.calls[i]) && c.calls[i].pc.GetMaster? && Answered(c, i, Delivered)
    requires c.tree.election.Some? && c.tree.election.value.data == c.managers[c.calls[i].manager].name
    ensures var r := Apply(c, Advance(i, Delivered));
      |r.managers| == |c.managers| && r.managers[c.calls[i].manager].isMaster
  {
  }

  lemma StepKeepsDir(c: Cluster, a: Action)
    requires c.tree.slaveDir
    ensures Apply(c, a).tree.slaveDir
  {
  }

  lemma {:induction false} DirStays(names: seq<Name>, before: seq<Action>, after: seq<Action>)
    requires Run(names, before).tree.slaveDir
    ensures Run(names, before + after).tree.slaveDir
  {
    if after == [] {
      assert before + after == before;
    } else {
      var init, a := after[..|after| - 1], after[|after| - 1];
      assert before + after == (before + init) + [a];
      DirStays(names, before, init);
      RunAdd(names, before + init, a);
      StepKeepsDir(Run(names, before + init), a);
    }
  }

  /** Once a manager has started in a live session the slave directory exists, for good. */
  lemma StartMakesDir(names: seq<Name>, before: seq<Action>, m: nat, after: seq<Action>)
    requires var c := Run(names, before);
      m < |c.managers| && c.managers[m].conn.Some? && c.managers[m].conn.value in c.live
    ensures Run(names, before + [MakeDir(m)] + after).tree.slaveDir
  {
    RunAdd(names, before, MakeDir(m));
    DirStays(names, before + [MakeDir(m)], after);
  }
}
