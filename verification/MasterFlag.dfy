/** When a manager's `isMaster` flag tells the truth (election/election.go): it is set on the way into office and
    cleared on the way into the slave list, and nothing clears it when a session ends. */
module MasterFlag {
  import opened Options
  import opened Election
  import opened Listing
  import Sorting

  /** The newest call of its manager. */
  ghost predicate Newest(c: Cluster, i: nat) {
    i < |c.calls| && forall j :: i < j < |c.calls| ==> c.calls[j].manager != c.calls[i].manager
  }

  ghost predicate NoneSignalling(c: Cluster, m: nat) {
    forall i :: 0 <= i < |c.calls| && c.calls[i].manager == m ==> !c.calls[i].pc.SignalMaster?
  }

  /** A manager in office came there by its newest call. */
  ghost predicate OfficeInv(names: seq<Name>, c: Cluster)
    requires CallsOf(names, c)
  {
    forall i: nat :: Newest(c, i) && Holds(c, names[c.calls[i].manager]) ==>
      c.tree.election.value.owner == c.calls[i].session
  }

  ghost predicate FlagInv(names: seq<Name>, c: Cluster)
    requires CallsOf(names, c)
  {
    forall i :: 0 <= i < |c.calls| ==> FlagOf(names, c, c.calls[i])
  }

  ghost predicate CallsOf(names: seq<Name>, c: Cluster) {
    |c.managers| == |names| && forall i :: 0 <= i < |c.calls| ==> c.calls[i].manager < |names|
  }

  ghost predicate FlagOf(names: seq<Name>, c: Cluster, k: Call)
    requires |c.managers| == |names| && k.manager < |names|
  {
    && (k.pc.GetOwnSlave? || k.pc.DeleteOwnSlave? ==> c.managers[k.manager].isMaster)
    && (k.pc == Done(true) && k.session in c.live && NoneSignalling(c, k.manager) ==>
          (c.managers[k.manager].isMaster <==> Holds(c, names[k.manager])))
  }

  lemma CallsOfInv(names: seq<Name>, c: Cluster)
    requires Inv(names, c)
    ensures CallsOf(names, c)
  {
    forall i | 0 <= i < |c.calls| ensures c.calls[i].manager < |names| { assert CallInv(names, c, c.calls[i]); }
  }

  /** In flight, a call is the newest of its manager in a run where managers take turns. */
  ghost predicate NewestInv(c: Cluster) {
    forall i :: 0 <= i < |c.calls| && InFlight(c.calls[i]) ==> Newest(c, i)
  }

  lemma OtherStepKeepsNewest(c: Cluster, a: Action)
    requires NewestInv(c) && TakesTurns(c, a) && !a.Advance?
    ensures NewestInv(Apply(c, a))
  {
    var r := Apply(c, a);
    forall i | 0 <= i < |r.calls| && InFlight(r.calls[i]) ensures Newest(r, i) {
      if i < |c.calls| { assert Newest(c, i); }
    }
  }

  lemma FramedNewest(c: Cluster, r: Cluster, i: nat, j: nat)
    requires i < |c.calls| && Framed(c, r, i)
    ensures Newest(c, j) <==> Newest(r, j)
  {
    forall x | 0 <= x < |c.calls| ensures r.calls[x].manager == c.calls[x].manager {
      if x != i { assert r.calls[x] == c.calls[x]; }
    }
  }

  lemma AdvanceKeepsNewest(names: seq<Name>, c: Cluster, i: nat, reply: Reply)
    requires i < |c.calls| && Valid(c, c.calls[i]) && NewestInv(c) && |c.managers| == |names| && CallsInv(names, c)
    ensures NewestInv(AdvanceCall(c, i, reply))
  {
    var r := AdvanceCall(c, i, reply);
    AdvanceFrame(c, i, reply);
    AdvanceKeepsTurns(names, c, i, reply);
    forall j | 0 <= j < |r.calls| && InFlight(r.calls[j]) ensures Newest(r, j) {
      assert InFlight(c.calls[j]);
      FramedNewest(c, r, i, j);
    }
  }

  lemma OtherStepKeepsOffice(names: seq<Name>, c: Cluster, a: Action)
    requires CallsOf(names, c) && CallsOf(names, Apply(c, a)) && ManagersInv(names, c)
    requires OfficeInv(names, c) && TakesTurns(c, a) && !a.Advance?
    ensures OfficeInv(names, Apply(c, a))
  {
    var r := Apply(c, a);
    forall i: nat | Newest(r, i) && Holds(r, names[r.calls[i].manager])
      ensures r.tree.election.value.owner == r.calls[i].session
    {
      if i < |c.calls| {
        forall j | i < j < |c.calls| ensures c.calls[j].manager != c.calls[i].manager {
          assert r.calls[j] == c.calls[j];
        }
        assert Newest(c, i) && r.calls[i] == c.calls[i];
        assert Holds(c, names[c.calls[i].manager]);
      }
    }
  }

  lemma AdvanceKeepsOffice(names: seq<Name>, c: Cluster, i: nat, reply: Reply)
    requires i < |c.calls| && Valid(c, c.calls[i]) && Inv(names, c)
    requires Sorting.Distinct(names) && NewestInv(c) && CallsOf(names, c) && OfficeInv(names, c)
    requires CallsOf(names, AdvanceCall(c, i, reply))
    ensures OfficeInv(names, AdvanceCall(c, i, reply))
  {
    var r := AdvanceCall(c, i, reply);
    AdvanceFrame(c, i, reply);
    AdvanceTree(c, i, reply);
    assert CallInv(names, c, c.calls[i]);
    forall j: nat | Newest(r, j) && Holds(r, names[r.calls[j].manager])
      ensures r.tree.election.value.owner == r.calls[j].session
    {
      FramedNewest(c, r, i, j);
      if j == i {
        OwnStepKeepsOffice(c, i, reply, names[c.calls[i].manager]);
      } else {
        assert r.calls[j] == c.calls[j];
        assert c.calls[i].pc.CreateMaster? ==> Newest(c, i) && c.calls[i].manager != c.calls[j].manager;
        assert names[c.calls[i].manager] == names[c.calls[j].manager] ==> c.calls[i].manager == c.calls[j].manager;
      }
    }
  }

  /** The call that creates the election node moves to the session that owns it. */
  lemma OwnStepKeepsOffice(c: Cluster, i: nat, reply: Reply, name: Name)
    requires i < |c.calls| && Valid(c, c.calls[i]) && c.managers[c.calls[i].manager].name == name
    requires Trying(c.calls[i].pc) ==> !Holds(c, name)
    requires Holds(c, name) ==> c.tree.election.value.owner == c.calls[i].session
    ensures Holds(AdvanceCall(c, i, reply), name) ==>
      AdvanceCall(c, i, reply).tree.election.value.owner == AdvanceCall(c, i, reply).calls[i].session
  {
  }

  lemma EndKeepsFlag(names: seq<Name>, c: Cluster, s: Session, i: nat)
    requires Inv(names, c) && CallsOf(names, c) && i < |c.calls| && FlagOf(names, c, c.calls[i])
    ensures FlagOf(names, Apply(c, End(s)), c.calls[i])
  {
    var r, k := Apply(c, End(s)), c.calls[i];
    assert CallInv(names, c, k);
    assert NoneSignalling(r, k.manager) ==> NoneSignalling(c, k.manager);
  }

  lemma OtherStepKeepsFlag(names: seq<Name>, c: Cluster, a: Action, i: nat)
    requires Inv(names, c) && CallsOf(names, c) && !a.Advance?
    requires !a.End? && i < |c.calls| && FlagOf(names, c, c.calls[i])
    ensures var r := Apply(c, a); |r.managers| == |names| && FlagOf(names, r, c.calls[i])
  {
    var r, k := Apply(c, a), c.calls[i];
    assert CallInv(names, c, k);
    if NoneSignalling(r, k.manager) {
      assert forall j :: 0 <= j < |c.calls| ==> r.calls[j] == c.calls[j];
      assert NoneSignalling(c, k.manager);
    }
  }

  /** Steps other than those of calls keep the flag of every call that has it. */
  lemma QuietStepKeepsFlag(names: seq<Name>, c: Cluster, a: Action, i: nat)
    requires Inv(names, c) && CallsOf(names, c) && !a.Advance? && i < |c.calls| && FlagOf(names, c, c.calls[i])
    ensures var r := Apply(c, a); |r.managers| == |names| && |r.calls| >= |c.calls| && r.calls[i] == c.calls[i]
    ensures FlagOf(names, Apply(c, a), c.calls[i])
  {
    if a.End? { EndKeepsFlag(names, c, a.s, i); } else { OtherStepKeepsFlag(names, c, a, i); }
  }

  /** The stepping call itself: finished as master with the flag set, as slave with the flag cleared. */
  lemma OwnStepKeepsFlag(names: seq<Name>, c: Cluster, i: nat, reply: Reply)
    requires i < |c.calls| && Valid(c, c.calls[i]) && Inv(names, c)
    requires InFlight(c.calls[i]) && CallsOf(names, c) && FlagOf(names, c, c.calls[i])
    ensures var r := AdvanceCall(c, i, reply);
      |r.managers| == |names| && r.calls[i].manager < |names| && FlagOf(names, r, r.calls[i])
  {
    AdvanceFrame(c, i, reply);
    assert CallInv(names, c, c.calls[i]);
  }

  /** A call of the same manager, finished in a session still live. */
  lemma SameManagerKeepsFlag(names: seq<Name>, c: Cluster, i: nat, reply: Reply, j: nat)
    requires i < |c.calls| && Valid(c, c.calls[i]) && Inv(names, c)
    requires InFlight(c.calls[i]) && KeepsCreation(c, Advance(i, reply))
    requires j < |c.calls| && j != i
    requires c.calls[j].manager == c.calls[i].manager < |names| && FlagOf(names, c, c.calls[j])
    ensures var r := AdvanceCall(c, i, reply); |r.managers| == |names| && FlagOf(names, r, c.calls[j])
  {
    var r, k, m := AdvanceCall(c, i, reply), c.calls[j], c.calls[i].manager;
    AdvanceFrame(c, i, reply);
    assert CallInv(names, c, k) && CallInv(names, c, c.calls[i]);
    assert !InFlight(k) && k.session <= c.calls[i].session;
    if k.pc == Done(true) && k.session in r.live && NoneSignalling(r, m) {
      assert !r.calls[i].pc.SignalMaster?;
      if !c.calls[i].pc.SignalMaster? {
        assert NoneSignalling(c, m) by {
          forall x | 0 <= x < |c.calls| && c.calls[x].manager == m ensures !c.calls[x].pc.SignalMaster? {
            assert x != i ==> r.calls[x] == c.calls[x];
          }
        }
      }
    }
  }

  lemma OtherManagerKeepsFlag(names: seq<Name>, c: Cluster, i: nat, reply: Reply, j: nat)
    requires i < |c.calls| && Valid(c, c.calls[i]) && Inv(names, c) && Sorting.Distinct(names)
    requires j < |c.calls| && c.calls[j].manager != c.calls[i].manager
    requires c.calls[j].manager < |names| && FlagOf(names, c, c.calls[j])
    ensures var r := AdvanceCall(c, i, reply); |r.managers| == |names| && FlagOf(names, r, c.calls[j])
  {
    var r, m := AdvanceCall(c, i, reply), c.calls[j].manager;
    AdvanceFrame(c, i, reply);
    AdvanceTree(c, i, reply);
    assert names[c.calls[i].manager] != names[m];
    assert r.managers[m] == c.managers[m];
    if NoneSignalling(r, m) {
      assert NoneSignalling(c, m) by {
        forall x | 0 <= x < |c.calls| && c.calls[x].manager == m ensures !c.calls[x].pc.SignalMaster? {
          assert r.calls[x] == c.calls[x];
        }
      }
    }
  }

  lemma AdvanceKeepsFlag(names: seq<Name>, c: Cluster, i: nat, reply: Reply)
    requires i < |c.calls| && Valid(c, c.calls[i]) && Inv(names, c)
    requires Sorting.Distinct(names) && CallsOf(names, c) && FlagInv(names, c)
    requires KeepsCreation(c, Advance(i, reply))
    ensures CallsOf(names, AdvanceCall(c, i, reply)) && FlagInv(names, AdvanceCall(c, i, reply))
  {
    var r := AdvanceCall(c, i, reply);
    AdvanceFrame(c, i, reply);
    if InFlight(c.calls[i]) {
      forall j | 0 <= j < |r.calls| ensures r.calls[j].manager < |names| && FlagOf(names, r, r.calls[j]) {
        if j == i {
          OwnStepKeepsFlag(names, c, i, reply);
        } else if c.calls[j].manager == c.calls[i].manager {
          SameManagerKeepsFlag(names, c, i, reply, j);
        } else {
          OtherManagerKeepsFlag(names, c, i, reply, j);
        }
      }
    } else {
      assert r == c;
    }
  }

  lemma StepKeepsFlag(names: seq<Name>, c: Cluster, a: Action)
    requires Inv(names, c) && Sorting.Distinct(names) && CallsOf(names, c) && FlagInv(names, c) && KeepsCreation(c, a)
    requires CallsOf(names, Apply(c, a))
    ensures FlagInv(names, Apply(c, a))
  {
    var r := Apply(c, a);
    if !a.Advance? {
      forall i | 0 <= i < |r.calls| ensures FlagOf(names, r, r.calls[i]) {
        if i < |c.calls| { QuietStepKeepsFlag(names, c, a, i); }
      }
    } else if a.i < |c.calls| && Valid(c, c.calls[a.i]) {
      AdvanceKeepsFlag(names, c, a.i, a.reply);
    }
  }

  /** The flag of the newest calls, which needs no rule about lost answers. */
  ghost predicate NewestFlagInv(names: seq<Name>, c: Cluster)
    requires CallsOf(names, c)
  {
    forall i: nat :: Newest(c, i) ==> FlagOf(names, c, c.calls[i])
  }

  lemma AdvanceKeepsNewestFlag(names: seq<Name>, c: Cluster, i: nat, reply: Reply)
    requires i < |c.calls| && Valid(c, c.calls[i]) && Inv(names, c) && Sorting.Distinct(names) && CallsOf(names, c)
    requires NewestInv(c) && NewestFlagInv(names, c) && CallsOf(names, AdvanceCall(c, i, reply))
    ensures NewestFlagInv(names, AdvanceCall(c, i, reply))
  {
    var r := AdvanceCall(c, i, reply);
    AdvanceFrame(c, i, reply);
    if InFlight(c.calls[i]) {
      forall j: nat | Newest(r, j) ensures FlagOf(names, r, r.calls[j]) {
        FramedNewest(c, r, i, j);
        if j == i {
          OwnStepKeepsFlag(names, c, i, reply);
        } else {
          assert Newest(c, i) && c.calls[j].manager != c.calls[i].manager;
          OtherManagerKeepsFlag(names, c, i, reply, j);
        }
      }
    } else {
      assert r == c;
    }
  }

  lemma StepKeepsNewestFlag(names: seq<Name>, c: Cluster, a: Action)
    requires Inv(names, c) && Sorting.Distinct(names) && CallsOf(names, c) && NewestInv(c) && NewestFlagInv(names, c)
    requires CallsOf(names, Apply(c, a))
    ensures NewestFlagInv(names, Apply(c, a))
  {
    var r := Apply(c, a);
    if !a.Advance? {
      forall i: nat | Newest(r, i) ensures FlagOf(names, r, r.calls[i]) {
        if i < |c.calls| {
          assert Newest(c, i) by {
            forall j | i < j < |c.calls| ensures c.calls[j].manager != c.calls[i].manager {
              assert r.calls[j] == c.calls[j];
            }
          }
          QuietStepKeepsFlag(names, c, a, i);
        }
      }
    } else if a.i < |c.calls| && Valid(c, c.calls[a.i]) {
      AdvanceKeepsNewestFlag(names, c, a.i, a.reply);
    }
  }

  lemma {:induction false} RunKeepsOffice(names: seq<Name>, actions: seq<Action>)
    requires Sorting.Distinct(names) && Throughout(names, actions, TakesTurns)
    ensures var c := Run(names, actions);
      CallsOf(names, c) && NewestInv(c) && OfficeInv(names, c) && NewestFlagInv(names, c)
  {
    if actions != [] {
      var c, a := Run(names, actions[..|actions| - 1]), actions[|actions| - 1];
      RunKeepsOffice(names, actions[..|actions| - 1]);
      RunKeepsInv(names, actions[..|actions| - 1]);
      RunKeepsInv(names, actions);
      CallsOfInv(names, Apply(c, a));
      StepKeepsNewestFlag(names, c, a);
      if !a.Advance? {
        OtherStepKeepsNewest(c, a);
        OtherStepKeepsOffice(names, c, a);
      } else if a.i < |c.calls| && Valid(c, c.calls[a.i]) {
        AdvanceKeepsNewest(names, c, a.i, a.reply);
        AdvanceKeepsOffice(names, c, a.i, a.reply);
      }
    }
  }

  lemma {:induction false} RunKeepsFlag(names: seq<Name>, actions: seq<Action>)
    requires Sorting.Distinct(names) && Throughout(names, actions, TakesTurns)
    requires Throughout(names, actions, KeepsCreation)
    ensures CallsOf(names, Run(names, actions)) && FlagInv(names, Run(names, actions))
  {
    if actions != [] {
      var c, a := Run(names, actions[..|actions| - 1]), actions[|actions| - 1];
      RunKeepsFlag(names, actions[..|actions| - 1]);
      RunKeepsInv(names, actions[..|actions| - 1]);
      RunKeepsInv(names, actions);
      CallsOfInv(names, Apply(c, a));
      StepKeepsFlag(names, c, a);
    }
  }

  /** With no call of the manager under way, the flag tells whether it is in office as long as the session of some
      successful call of its lives. */
  lemma FlagTellsOffice(names: seq<Name>, actions: seq<Action>, i: nat)
    requires Sorting.Distinct(names) && Throughout(names, actions, TakesTurns)
    requires Throughout(names, actions, KeepsCreation)
    requires var c := Run(names, actions);
      i < |c.calls| && c.calls[i].pc == Done(true) && c.calls[i].session in c.live && NoCallOf(c, c.calls[i].manager)
    ensures var c, m := Run(names, actions), Run(names, actions).calls[i].manager;
      m < |c.managers| == |names| && (c.managers[m].isMaster <==> Holds(c, names[m]))
  {
    RunKeepsFlag(names, actions);
    var c := Run(names, actions);
    assert FlagOf(names, c, c.calls[i]) && NoneSignalling(c, c.calls[i].manager);
  }

  /** Exactly when the flag can be trusted: after the newest call of a manager has succeeded, the flag tells whether
      the manager is in office if and only if the flag is clear or the session of that call is still live, whatever
      answers were lost before. */
  lemma FlagTellsOfficeIff(names: seq<Name>, actions: seq<Action>, i: nat)
    requires Sorting.Distinct(names) && Throughout(names, actions, TakesTurns)
    requires var c := Run(names, actions); Newest(c, i) && c.calls[i].pc == Done(true)
    ensures var c, m := Run(names, actions), Run(names, actions).calls[i].manager;
      && m < |c.managers| == |names|
      && ((c.managers[m].isMaster <==> Holds(c, names[m])) <==>
            (c.managers[m].isMaster ==> c.calls[i].session in c.live))
  {
    RunKeepsOffice(names, actions);
    RunKeepsInv(names, actions);
    var c := Run(names, actions);
    var m := c.calls[i].manager;
    assert FlagOf(names, c, c.calls[i]);
    forall j | 0 <= j < |c.calls| && c.calls[j].manager == m ensures !c.calls[j].pc.SignalMaster? {
      if c.calls[j].pc.SignalMaster? { assert Newest(c, j); }
    }
    assert NoneSignalling(c, m);
  }
}
