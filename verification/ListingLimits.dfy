/** What the rules of `Listing` are for (election/election.go): what happens to the cluster list when a manager
    breaks one of them, as runs of the election itself. */
module ListingLimits {
  import opened Options
  import opened Election
  import opened Listing
  import opened Membership
  import Sorting

  // ---------- a call that runs alone ----------

  /** Call `i` runs alone for `k` steps with every request answered. */
  function Deliver(c: Cluster, i: nat, k: nat): Cluster
    decreases k
  {
    if k == 0 then c else Deliver(Apply(c, Advance(i, Delivered)), i, k - 1)
  }

  /** Steps a call can still take. */
  function StepsLeft(pc: Pc): nat {
    match pc
    case GetMaster => 7
    case CreateMaster => 6
    case GetDir => 5
    case CreateDir => 4
    case GetSlave => 3
    case CreateSlave => 2
    case SignalSlave => 1
    case SignalMaster => 3
    case GetOwnSlave => 2
    case DeleteOwnSlave => 1
    case Done(_) => 0
  }

  lemma StepShortens(t: Tree, name: Name, s: Session, live: bool, i: nat, k: Call, reply: Reply)
    ensures StepsLeft(Step(t, name, s, live, i, k, reply).pc) < StepsLeft(k.pc) || StepsLeft(k.pc) == 0
    ensures k.pc.Done? ==> Step(t, name, s, live, i, k, reply).pc == k.pc
  {
  }

  lemma AdvanceShortens(c: Cluster, i: nat)
    requires i < |c.calls| && Valid(c, c.calls[i])
    ensures var b := Apply(c, Advance(i, Delivered));
      Framed(c, b, i) && (StepsLeft(b.calls[i].pc) < StepsLeft(c.calls[i].pc)
        || StepsLeft(c.calls[i].pc) == StepsLeft(b.calls[i].pc) == 0)
  {
    AdvanceFrame(c, i, Delivered);
    var m := c.managers[c.calls[i].manager];
    StepShortens(c.tree, m.name, m.conn.value, m.conn.value in c.live, i, c.calls[i], Delivered);
  }

  lemma FramedTrans(c: Cluster, b: Cluster, r: Cluster, i: nat)
    requires i < |c.calls| && Framed(c, b, i) && Framed(b, r, i)
    ensures Framed(c, r, i)
  {
  }

  lemma {:induction false} DeliverEnds(c: Cluster, i: nat, k: nat)
    requires i < |c.calls| && Valid(c, c.calls[i]) && StepsLeft(c.calls[i].pc) <= k
    ensures Framed(c, Deliver(c, i, k), i) && Deliver(c, i, k).calls[i].pc.Done?
    decreases k
  {
    if k > 0 {
      var b := Apply(c, Advance(i, Delivered));
      AdvanceShortens(c, i);
      DeliverEnds(b, i, k - 1);
      FramedTrans(c, b, Deliver(b, i, k - 1), i);
    }
  }

  lemma {:induction false} DeliverKeepsInv(names: seq<Name>, c: Cluster, i: nat, k: nat)
    requires Inv(names, c) && TwiceInv(c) && Sorting.Distinct(names) && i < |c.calls| && Valid(c, c.calls[i])
    ensures Inv(names, Deliver(c, i, k)) && TwiceInv(Deliver(c, i, k))
    decreases k
  {
    if k > 0 {
      AdvanceFrame(c, i, Delivered);
      AdvanceKeepsInv(names, c, i, Delivered);
      AnsweredStepIsTidy(names, c, Advance(i, Delivered));
      TwiceStepIff(c, Advance(i, Delivered));
      DeliverKeepsInv(names, Apply(c, Advance(i, Delivered)), i, k - 1);
    }
  }

  /** Call `i` belongs to the live master in office and is on its way to registering it as a slave too. */
  ghost predicate Doubling(c: Cluster, i: nat) {
    && i < |c.calls| && Valid(c, c.calls[i])
    && var m, pc := c.managers[c.calls[i].manager], c.calls[i].pc;
       && m.conn.value in c.live && Holds(c, m.name) && !Cleaning(pc)
       && (pc.CreateDir? ==> !c.tree.slaveDir)
       && (pc.GetSlave? || pc.CreateSlave? ==> c.tree.slaveDir)
       && (pc.CreateSlave? ==> m.name !in c.tree.slaves)
       && (pc.SignalSlave? || pc.Done? ==> m.name in c.tree.slaves)
       && (pc.Done? ==> !m.isMaster)
  }

  lemma DoublingStep(c: Cluster, i: nat)
    requires Doubling(c, i)
    ensures Doubling(Apply(c, Advance(i, Delivered)), i)
  {
  }

  lemma {:induction false} DoublingStays(c: Cluster, i: nat, k: nat)
    requires Doubling(c, i)
    ensures Doubling(Deliver(c, i, k), i)
    decreases k
  {
    if k > 0 {
      DoublingStep(c, i);
      DoublingStays(Apply(c, Advance(i, Delivered)), i, k - 1);
    }
  }

  /** The master in office elects itself again: its creation fails, and it registers as a slave of itself. */
  lemma HolderRegistersAsSlave(c: Cluster, i: nat)
    requires Doubling(c, i) && c.calls[i].pc.GetMaster?
    ensures var r, m := Deliver(c, i, 7), c.calls[i].manager;
      && Framed(c, r, i) && r.calls[i].pc.Done? && Holds(r, c.managers[m].name) && c.managers[m].name in r.tree.slaves
      && !r.managers[m].isMaster
  {
    DeliverEnds(c, i, 7);
    DoublingStays(c, i, 7);
  }

  /** From a quiet state a manager with a live session runs one more election alone. It ends listed twice exactly
      when it was the master already: the guard on starting a call is what keeps the list free of duplicates. */
  lemma ReelectionListsTwiceIff(names: seq<Name>, c: Cluster, m: nat)
    requires Inv(names, c) && TwiceInv(c) && Sorting.Distinct(names) && Quiet(c)
    requires m < |names| && c.managers[m].conn.Some? && c.managers[m].conn.value in c.live
    ensures var r := Deliver(Apply(c, Begin(m)), |c.calls|, 7);
      && |r.calls| == |c.calls| + 1 && Quiet(r)
      && (Holds(r, names[m]) && names[m] in r.tree.slaves <==> Holds(c, names[m]))
  {
    var b, i := Apply(c, Begin(m)), |c.calls|;
    DeliverEnds(b, i, 7);
    if Holds(c, names[m]) {
      HolderRegistersAsSlave(b, i);
    } else {
      BeginKeepsInv(names, c, m);
      OtherStepKeepsTwice(c, Begin(m));
      DeliverKeepsInv(names, b, i, 7);
      var r := Deliver(b, i, 7);
      assert Holds(r, names[m]) && names[m] in r.tree.slaves ==> CleaningUp(r, names[m]);
    }
  }

  lemma {:induction false} ElectionStays(c: Cluster, i: nat, k: nat)
    requires i < |c.calls| && Valid(c, c.calls[i]) && c.tree.election.Some?
    ensures Deliver(c, i, k).tree.election == c.tree.election
    decreases k
  {
    if k > 0 {
      AdvanceTree(c, i, Delivered);
      AdvanceFrame(c, i, Delivered);
      ElectionStays(Apply(c, Advance(i, Delivered)), i, k - 1);
    }
  }

  /** Two calls of one manager under way at once: the first makes it master, the second a slave of itself, and
      nobody cleans up. */
  lemma OverlapListsTwice(c: Cluster, i: nat, j: nat)
    requires i < |c.calls| && j < |c.calls| && i != j
    requires Valid(c, c.calls[i]) && c.calls[i].manager == c.calls[j].manager
    requires c.calls[i].pc.CreateMaster? && c.calls[j].pc.CreateMaster? && c.tree.election.None?
    requires c.managers[c.calls[i].manager].conn.value in c.live
    ensures var r, name := Deliver(Deliver(c, i, 6), j, 6), c.managers[c.calls[i].manager].name;
      && |r.calls| == |c.calls| && r.calls[i].pc.Done? && r.calls[j].pc.Done?
      && Holds(r, name) && name in r.tree.slaves
  {
    var b, a := Deliver(c, i, 6), Apply(c, Advance(i, Delivered));
    AdvanceFrame(c, i, Delivered);
    ElectionStays(a, i, 5);
    DeliverEnds(c, i, 6);
    assert Doubling(b, j);
    DeliverEnds(b, j, 6);
    DoublingStays(b, j, 6);
  }

  // ---------- runs from the start ----------

  /** A step by every rule. */
  ghost predicate Proper(c: Cluster, a: Action) {
    TakesTurns(c, a) && KeepsCreation(c, a) && KeepsCleanup(c, a)
  }

  lemma Extend(names: seq<Name>, actions: seq<Action>, a: Action)
    ensures Run(names, actions + [a]) == Apply(Run(names, actions), a)
    ensures Throughout(names, actions, Proper) && Proper(Run(names, actions), a) ==>
      Throughout(names, actions + [a], Proper)
  {
    RunStep(names, actions, a, Proper);
  }

  function Advances(i: nat, k: nat): seq<Action> {
    seq(k, _ => Advance(i, Delivered))
  }

  lemma DeliveredIsProper(c: Cluster, i: nat)
    ensures Proper(c, Advance(i, Delivered))
  {
  }

  lemma {:induction false} ExtendCall(names: seq<Name>, actions: seq<Action>, i: nat, k: nat)
    ensures Run(names, actions + Advances(i, k)) == Deliver(Run(names, actions), i, k)
    ensures Throughout(names, actions, Proper) ==> Throughout(names, actions + Advances(i, k), Proper)
    decreases k
  {
    if k == 0 {
      assert actions + Advances(i, k) == actions;
    } else {
      DeliveredIsProper(Run(names, actions), i);
      Extend(names, actions, Advance(i, Delivered));
      ExtendCall(names, actions + [Advance(i, Delivered)], i, k - 1);
      assert actions + Advances(i, k) == actions + [Advance(i, Delivered)] + Advances(i, k - 1);
    }
  }

  /** Only call `i` has moved since `c`, over its manager's live session; `flag` is what it has made of the flag. */
  ghost predicate Alone(c: Cluster, r: Cluster, i: nat, flag: Option<bool>) {
    && i < |c.calls| && Valid(c, c.calls[i]) && Framed(c, r, i)
    && c.managers[c.calls[i].manager].conn == Some(r.calls[i].session) && r.calls[i].session in c.live
    && (forall m :: 0 <= m < |c.managers| && (m != c.calls[i].manager || flag.None?) ==> r.managers[m] == c.managers[m])
    && (flag.Some? ==> r.managers[c.calls[i].manager].isMaster == flag.value)
  }

  /** A call on its way into the slave list, another manager being in office. */
  ghost predicate Joining(c: Cluster, r: Cluster, i: nat) {
    && i < |r.calls| && Alone(c, r, i, if r.calls[i].pc.Done? then Some(false) else None)
    && var name, s, pc := c.managers[c.calls[i].manager].name, r.calls[i].session, r.calls[i].pc;
       && r.tree.election == c.tree.election && c.tree.election.Some? && !Holds(c, name) && !Cleaning(pc)
       && !pc.CreateMaster? && pc != Done(false)
       && (pc.CreateDir? ==> !r.tree.slaveDir)
       && (pc.GetSlave? || pc.CreateSlave? || pc.SignalSlave? || pc.Done? ==> r.tree.slaveDir)
       && (pc.CreateSlave? ==> name !in c.tree.slaves)
       && r.tree.slaves == if (pc.SignalSlave? || pc.Done?) && name !in c.tree.slaves
         then c.tree.slaves[name := s] else c.tree.slaves
  }

  /** Past setting the flag, on the way into office. */
  predicate HasFlagged(pc: Pc) {
    pc.GetOwnSlave? || pc.DeleteOwnSlave? || pc.Done?
  }

  /** A call on its way into office, nobody being there. */
  ghost predicate Winning(c: Cluster, r: Cluster, i: nat) {
    && i < |r.calls|
    && Alone(c, r, i, if HasFlagged(r.calls[i].pc) then Some(true) else None)
    && var name, s, pc := c.managers[c.calls[i].manager].name, r.calls[i].session, r.calls[i].pc;
       && c.tree.election.None? && r.tree.slaveDir == c.tree.slaveDir
       && (pc.GetMaster? || pc.CreateMaster? || Cleaning(pc) || pc == Done(true))
       && r.tree.election == (if pc.GetMaster? || pc.CreateMaster? then None else Some(Znode(name, s)))
       && (pc == Done(true) ==> name !in r.tree.slaves)
       && (forall n :: n != name ==>
             (n in r.tree.slaves <==> n in c.tree.slaves)
               && (n in r.tree.slaves ==> r.tree.slaves[n] == c.tree.slaves[n]))
  }

  lemma JoiningStep(c: Cluster, r: Cluster, i: nat)
    requires Joining(c, r, i)
    ensures Joining(c, Apply(r, Advance(i, Delivered)), i)
  {
    AdvanceFrame(r, i, Delivered);
    FramedTrans(c, r, Apply(r, Advance(i, Delivered)), i);
  }

  lemma WinningStep(c: Cluster, r: Cluster, i: nat)
    requires Winning(c, r, i)
    ensures Winning(c, Apply(r, Advance(i, Delivered)), i)
  {
    AdvanceFrame(r, i, Delivered);
    FramedTrans(c, r, Apply(r, Advance(i, Delivered)), i);
  }

  lemma {:induction false} Joins(c: Cluster, r: Cluster, i: nat, k: nat)
    requires Joining(c, r, i)
    ensures Joining(c, Deliver(r, i, k), i)
    decreases k
  {
    if k > 0 {
      JoiningStep(c, r, i);
      Joins(c, Apply(r, Advance(i, Delivered)), i, k - 1);
    }
  }

  lemma {:induction false} Wins(c: Cluster, r: Cluster, i: nat, k: nat)
    requires Winning(c, r, i)
    ensures Winning(c, Deliver(r, i, k), i)
    decreases k
  {
    if k > 0 {
      WinningStep(c, r, i);
      Wins(c, Apply(r, Advance(i, Delivered)), i, k - 1);
    }
  }

  ghost predicate MayElect(c: Cluster, m: nat) {
    m < |c.managers| && c.managers[m].conn.Some? && c.managers[m].conn.value in c.live && !Holds(c, c.managers[m].name)
  }

  /** A manager begins a call in its live session and the call runs alone, by every rule if no other is under way. */
  lemma Elects(names: seq<Name>, actions: seq<Action>, m: nat) returns (longer: seq<Action>)
    requires MayElect(Run(names, actions), m)
    ensures var c, r := Apply(Run(names, actions), Begin(m)), Run(names, longer);
      && |c.calls| == |Run(names, actions).calls| + 1
      && (if c.tree.election.Some? then Joining(c, r, |c.calls| - 1) else Winning(c, r, |c.calls| - 1))
      && r.calls[|c.calls| - 1].pc.Done?
    ensures Throughout(names, actions, Proper) && NoCallOf(Run(names, actions), m) ==> Throughout(names, longer, Proper)
  {
    var c := Apply(Run(names, actions), Begin(m));
    var i := |c.calls| - 1;
    Extend(names, actions, Begin(m));
    ExtendCall(names, actions + [Begin(m)], i, 7);
    longer := actions + [Begin(m)] + Advances(i, 7);
    DeliverEnds(c, i, 7);
    if c.tree.election.Some? { Joins(c, c, i, 7); } else { Wins(c, c, i, 7); }
  }

  /** The first manager is master in session 0 and the second slave in session 1; nothing is under way. */
  ghost predicate Settled(c: Cluster, a: Name, b: Name) {
    && c.tree == Tree(Some(Znode(a, 0)), true, map[b := 1]) && c.live == {0, 1} && c.next == 2
    && c.managers == [Manager(a, Some(0), true), Manager(b, Some(1), false)]
    && c.calls == [Call(0, Done(true), 0), Call(1, Done(true), 1)]
  }

  lemma FirstSettles(a: Name, b: Name) returns (actions: seq<Action>)
    ensures var c := Run([a, b], actions);
      && c.tree.election == Some(Znode(a, 0)) && !c.tree.slaveDir && c.tree.slaves == map[] && c.live == {0}
      && c.next == 1
      && c.managers == [Manager(a, Some(0), true), Manager(b, None, false)] && c.calls == [Call(0, Done(true), 0)]
    ensures Throughout([a, b], actions, Proper)
  {
    Extend([a, b], [], Dial(0));
    actions := Elects([a, b], [Dial(0)], 0);
  }

  lemma Settles(a: Name, b: Name) returns (actions: seq<Action>)
    requires a != b
    ensures Settled(Run([a, b], actions), a, b) && Throughout([a, b], actions, Proper)
  {
    actions := FirstSettles(a, b);
    Extend([a, b], actions, Dial(1));
    actions := actions + [Dial(1)];
    var c := Run([a, b], actions);
    assert c.managers == [Manager(a, Some(0), true), Manager(b, Some(1), false)] && c.live == {0, 1};
    actions := Elects([a, b], actions, 1);
  }

  /** The flag is not exclusive: a run by every rule ends with two flags set and one master in office. */
  lemma FlagOutlivesOffice(a: Name, b: Name) returns (actions: seq<Action>)
    requires a != b
    ensures Throughout([a, b], actions, Proper)
    ensures var c := Run([a, b], actions);
      |c.managers| == 2 && c.managers[0].isMaster && c.managers[1].isMaster && Holds(c, b)
  {
    actions := Settles(a, b);
    Extend([a, b], actions, End(0));
    actions := Elects([a, b], actions + [End(0)], 1);
  }

  lemma {:induction false} ProperRules(names: seq<Name>, actions: seq<Action>)
    requires Throughout(names, actions, Proper)
    ensures Throughout(names, actions, TakesTurns)
    ensures Throughout(names, actions, KeepsCreation) && Throughout(names, actions, KeepsCleanup)
  {
    if actions != [] { ProperRules(names, actions[..|actions| - 1]); }
  }

  /** A slave creates the election node and the answer is lost: it stays listed twice, and no call is left to clean
      up. */
  lemma LostCreationListsTwice(a: Name, b: Name) returns (actions: seq<Action>)
    requires a != b
    ensures Throughout([a, b], actions, TakesTurns) && Throughout([a, b], actions, KeepsCleanup)
    ensures var c := Run([a, b], actions); Quiet(c) && Holds(c, b) && b in c.tree.slaves
  {
    actions := Settles(a, b);
    Extend([a, b], actions, End(0));
    actions := actions + [End(0)];
    Extend([a, b], actions, Begin(1));
    actions := actions + [Begin(1)];
    Extend([a, b], actions, Advance(2, Delivered));
    actions := actions + [Advance(2, Delivered)];
    ProperRules([a, b], actions);
    RunStep([a, b], actions, Advance(2, Lost), TakesTurns);
    RunStep([a, b], actions, Advance(2, Lost), KeepsCleanup);
    actions := actions + [Advance(2, Lost)];
  }

  // ---------- three ways out of the list ----------

  /** A manager is not listed although its call has succeeded in a live session, and the last step made it so. */
  ghost predicate Unlisted(names: seq<Name>, actions: seq<Action>, m: nat, i: nat) {
    && actions != [] && m < |names| && Drops(Run(names, actions[..|actions| - 1]), actions[|actions| - 1])
    && var c := Run(names, actions);
       && Quiet(c) && i < |c.calls| && c.calls[i].manager == m && c.calls[i].pc == Done(true)
       && c.calls[i].session in c.live
       && !ListedIn(c.tree, names[m])
  }

  /** A slave dials again while its node is in the old session: its next call finds the node and succeeds, and when
      the old session ends the manager is no longer listed although the call's session lives. */
  lemma RedialLosesListing(a: Name, b: Name) returns (actions: seq<Action>)
    requires a != b
    ensures Unlisted([a, b], actions, 1, 2)
  {
    actions := Settles(a, b);
    Extend([a, b], actions, Dial(1));
    var before := Elects([a, b], actions + [Dial(1)], 1);
    var c := Run([a, b], before);
    assert DroppedWith(c, c.calls[2], 1);
    Extend([a, b], before, End(1));
    actions := before + [End(1)];
    assert actions[..|actions| - 1] == before;
  }

  /** Three steps take a call of a listed slave from its start to its signal. */
  lemma FindsNode(c: Cluster, i: nat)
    requires i < |c.calls| && Valid(c, c.calls[i])
    requires c.calls[i].pc.GetMaster? && c.tree.election.Some? && c.tree.slaveDir
    requires var m := c.managers[c.calls[i].manager];
      m.conn.value in c.live && !Holds(c, m.name) && m.name in c.tree.slaves
    ensures var m := c.calls[i].manager;
      Deliver(c, i, 3) == c.(calls := c.calls[i := Call(m, SignalSlave, c.managers[m].conn.value)])
  {
    var m, s := c.calls[i].manager, c.managers[c.calls[i].manager].conn.value;
    var c1 := Apply(c, Advance(i, Delivered));
    var c2 := Apply(c1, Advance(i, Delivered));
    assert c1 == c.(calls := c.calls[i := Call(m, GetDir, s)]);
    assert c2 == c.(calls := c.calls[i := Call(m, GetSlave, s)]);
    var c3 := Apply(c2, Advance(i, Delivered));
    assert Deliver(c, i, 3) == Deliver(c1, i, 2) == Deliver(c2, i, 1) == Deliver(c3, i, 0);
  }

  /** The second manager has dialled again, and a call of its has found the node of the old session. */
  lemma Finds(a: Name, b: Name) returns (actions: seq<Action>)
    requires a != b
    ensures var c := Run([a, b], actions);
      && c.tree == Tree(Some(Znode(a, 0)), true, map[b := 1]) && c.live == {0, 1, 2}
      && c.managers == [Manager(a, Some(0), true), Manager(b, Some(2), false)]
      && c.calls == [Call(0, Done(true), 0), Call(1, Done(true), 1), Call(1, SignalSlave, 2)]
  {
    var names := [a, b];
    actions := Settles(a, b);
    Extend(names, actions, Dial(1));
    Extend(names, actions + [Dial(1)], Begin(1));
    actions := actions + [Dial(1)] + [Begin(1)];
    FindsNode(Run(names, actions), 2);
    ExtendCall(names, actions, 2, 3);
    actions := actions + Advances(2, 3);
  }

  /** The slave node a call has found goes with its session just before the call reports success. */
  lemma FoundNodeLosesListing(a: Name, b: Name) returns (actions: seq<Action>)
    requires a != b
    ensures Unlisted([a, b], actions, 1, 2)
  {
    actions := Finds(a, b);
    Extend([a, b], actions, End(1));
    var before := actions + [End(1)];
    var c := Run([a, b], before);
    assert c.tree == Tree(Some(Znode(a, 0)), true, map[]) && c.live == {0, 2};
    Extend([a, b], before, Advance(2, Delivered));
    actions := before + [Advance(2, Delivered)];
    assert actions[..|actions| - 1] == before;
  }

  /** Two steps create the election node, and two more set the flag and find the slave node. */
  lemma CreatesNode(c: Cluster, i: nat)
    requires i < |c.calls| && Valid(c, c.calls[i]) && c.calls[i].pc.GetMaster? && c.tree.election.None?
    requires c.managers[c.calls[i].manager].conn.value in c.live
    ensures var m := c.calls[i].manager;
      var s, r := c.managers[m].conn.value, Deliver(c, i, 2);
      r == c.(tree := c.tree.(election := Some(Znode(c.managers[m].name, s))),
              calls := c.calls[i := Call(m, SignalMaster, s)], log := r.log)
  {
    var m, s := c.calls[i].manager, c.managers[c.calls[i].manager].conn.value;
    var c1 := Apply(c, Advance(i, Delivered));
    assert c1 == c.(calls := c.calls[i := Call(m, CreateMaster, s)]);
    assert Deliver(c, i, 2) == Deliver(c1, i, 1) == Deliver(Apply(c1, Advance(i, Delivered)), i, 0);
  }

  lemma FindsOwnSlave(c: Cluster, i: nat)
    requires i < |c.calls| && Valid(c, c.calls[i]) && c.calls[i].pc.SignalMaster?
    requires var m := c.managers[c.calls[i].manager]; m.conn.value in c.live && m.name in c.tree.slaves
    ensures var m, r := c.calls[i].manager, Deliver(c, i, 2);
      r == c.(managers := c.managers[m := c.managers[m].(isMaster := true)],
              calls := c.calls[i := Call(m, DeleteOwnSlave, c.calls[i].session)], log := r.log)
  {
    var m := c.calls[i].manager;
    var c1 := Apply(c, Advance(i, Delivered));
    assert c1 == c.(managers := c.managers[m := c.managers[m].(isMaster := true)],
                    calls := c.calls[i := Call(m, GetOwnSlave, c.calls[i].session)], log := c1.log);
    assert Deliver(c, i, 2) == Deliver(c1, i, 1) == Deliver(Apply(c1, Advance(i, Delivered)), i, 0);
  }

  /** The second manager has become master and is about to delete its slave node. */
  lemma Deletes(a: Name, b: Name) returns (actions: seq<Action>)
    requires a != b
    ensures var c := Run([a, b], actions);
      && c.tree == Tree(Some(Znode(b, 1)), true, map[b := 1]) && c.live == {1} && c.next == 2
      && c.managers == [Manager(a, Some(0), true), Manager(b, Some(1), true)]
      && c.calls == [Call(0, Done(true), 0), Call(1, Done(true), 1), Call(1, DeleteOwnSlave, 1)]
  {
    var names := [a, b];
    actions := Settles(a, b);
    Extend(names, actions, End(0));
    Extend(names, actions + [End(0)], Begin(1));
    actions := actions + [End(0)] + [Begin(1)];
    CreatesNode(Run(names, actions), 2);
    ExtendCall(names, actions, 2, 2);
    actions := actions + Advances(2, 2);
    FindsOwnSlave(Run(names, actions), 2);
    ExtendCall(names, actions, 2, 2);
    actions := actions + Advances(2, 2);
  }

  /** Its session ends, both managers dial again, and the first one wins the election. */
  lemma DeletesLate(a: Name, b: Name) returns (actions: seq<Action>)
    requires a != b
    ensures var c := Run([a, b], actions);
      && c.tree == Tree(Some(Znode(a, 3)), true, map[]) && c.live == {2, 3}
      && c.managers == [Manager(a, Some(3), true), Manager(b, Some(2), true)]
      && c.calls == [Call(0, Done(true), 0), Call(1, Done(true), 1), Call(1, DeleteOwnSlave, 1), Call(0, Done(true), 3)]
  {
    var names := [a, b];
    actions := Deletes(a, b);
    Extend(names, actions, End(1));
    Extend(names, actions + [End(1)], Dial(1));
    Extend(names, actions + [End(1)] + [Dial(1)], Dial(0));
    actions := actions + [End(1)] + [Dial(1)] + [Dial(0)];
    var c := Run(names, actions);
    assert c.tree == Tree(None, true, map[]) && c.live == {2, 3};
    assert c.managers == [Manager(a, Some(3), true), Manager(b, Some(2), true)];
    actions := Elects(names, actions, 0);
  }

  /** The second manager registers as slave in its new session while the old delete is still to come. */
  lemma RegistersBefore(a: Name, b: Name) returns (actions: seq<Action>)
    requires a != b
    ensures var c := Run([a, b], actions);
      && c.tree == Tree(Some(Znode(a, 3)), true, map[b := 2]) && c.live == {2, 3}
      && c.managers == [Manager(a, Some(3), true), Manager(b, Some(2), false)]
      && c.calls == [Call(0, Done(true), 0), Call(1, Done(true), 1), Call(1, DeleteOwnSlave, 1), Call(0, Done(true), 3),
                     Call(1, Done(true), 2)]
  {
    actions := DeletesLate(a, b);
    actions := Elects([a, b], actions, 1);
  }

  /** The delete of a call that has outlived its session goes to the manager's new one: it removes the slave node a
      later call has registered there. */
  lemma StaleDeleteLosesListing(a: Name, b: Name) returns (actions: seq<Action>)
    requires a != b
    ensures Unlisted([a, b], actions, 1, 4)
  {
    var before := RegistersBefore(a, b);
    var c := Run([a, b], before);
    assert Member(c, c.calls[4], b);
    Extend([a, b], before, Advance(2, Delivered));
    actions := before + [Advance(2, Delivered)];
    assert actions[..|actions| - 1] == before;
  }
}
