/** Nodes in the cluster tree (election/election.go): exactly when a manager is listed both as master and as slave, and
    which session owns which node when managers take turns with their sessions and calls. */
module Listing {
  import opened Options
  import opened Election
  import Sorting

  predicate InFlight(k: Call) {
    !k.pc.Done?
  }

  /** Past its creation of the election node, before its own slave node is known to be gone. */
  predicate Cleaning(pc: Pc) {
    pc.SignalMaster? || pc.GetOwnSlave? || pc.DeleteOwnSlave?
  }

  /** Not past a creation of the election node. */
  predicate Trying(pc: Pc) {
    !Cleaning(pc) && !pc.Done?
  }

  /** Has found or created its node. */
  predicate Placed(pc: Pc) {
    Cleaning(pc) || pc.SignalSlave? || pc == Done(true)
  }

  predicate Holds(c: Cluster, name: Name) {
    c.tree.election.Some? && c.tree.election.value.data == name
  }

  ghost predicate NoCallOf(c: Cluster, m: nat) {
    forall i :: 0 <= i < |c.calls| && c.calls[i].manager == m ==> !InFlight(c.calls[i])
  }

  predicate OwnsNothing(t: Tree, s: Session) {
    (t.election.Some? ==> t.election.value.owner != s) && forall n :: n in t.slaves ==> t.slaves[n] != s
  }

  /** Managers take turns with their sessions and calls: a manager leaves a session only when no node is left in it,
      makes one election call at a time, and none while it is the master in office. It may dial again while the old
      session is live or a call is under way, and any request may fail or lose its answer. */
  ghost predicate TakesTurns(c: Cluster, a: Action) {
    match a
    case Dial(m) => m < |c.managers| && c.managers[m].conn.Some? ==> OwnsNothing(c.tree, c.managers[m].conn.value)
    case Begin(m) => m < |c.managers| ==> NoCallOf(c, m) && !Holds(c, c.managers[m].name)
    case _ => true
  }

  /** The answer to a creation of the election node is not lost by a manager listed as slave. */
  ghost predicate KeepsCreation(c: Cluster, a: Action) {
    a.Advance? && a.i < |c.calls| && Valid(c, c.calls[a.i]) && c.calls[a.i].pc.CreateMaster? ==>
      c.managers[c.calls[a.i].manager].name in c.tree.slaves ==> !a.reply.Lost?
  }

  /** The requests that clean up are answered. */
  ghost predicate KeepsCleanup(c: Cluster, a: Action) {
    a.Advance? && a.i < |c.calls| && (c.calls[a.i].pc.GetOwnSlave? || c.calls[a.i].pc.DeleteOwnSlave?) ==>
      a.reply.Delivered?
  }

  /** Every step of the run satisfies `ok` in the state it is taken in. */
  ghost predicate Throughout(names: seq<Name>, actions: seq<Action>, ok: (Cluster, Action) -> bool) {
    actions == [] || (Throughout(names, actions[..|actions| - 1], ok)
      && ok(Run(names, actions[..|actions| - 1]), actions[|actions| - 1]))
  }

  lemma RunStep(names: seq<Name>, actions: seq<Action>, a: Action, ok: (Cluster, Action) -> bool)
    ensures Run(names, actions + [a]) == Apply(Run(names, actions), a)
    ensures Throughout(names, actions + [a], ok) <==> Throughout(names, actions, ok) && ok(Run(names, actions), a)
  {
    assert (actions + [a])[..|actions|] == actions;
  }

  // ---------- the invariant ----------

  ghost predicate ManagersInv(names: seq<Name>, c: Cluster) {
    && |c.managers| == |names| && (forall m :: 0 <= m < |names| ==> c.managers[m].name == names[m])
    && (forall s :: s in c.live ==> s < c.next)
    && (forall m :: 0 <= m < |names| && c.managers[m].conn.Some? ==> c.managers[m].conn.value < c.next)
    && (forall m, n :: 0 <= m < n < |names| && c.managers[m].conn.Some? ==> c.managers[m].conn != c.managers[n].conn)
  }

  /** Every node belongs to the live session of the manager it names. */
  ghost predicate NodesInv(names: seq<Name>, c: Cluster)
    requires |c.managers| == |names|
  {
    && (forall n :: n in c.tree.slaves ==> n in names && c.tree.slaves[n] in c.live)
    && (forall m :: 0 <= m < |names| && names[m] in c.tree.slaves ==>
          c.managers[m].conn == Some(c.tree.slaves[names[m]]))
    && (c.tree.election.Some? ==> c.tree.election.value.data in names && c.tree.election.value.owner in c.live)
    && (forall m :: 0 <= m < |names| && Holds(c, names[m]) ==> c.managers[m].conn == Some(c.tree.election.value.owner))
  }

  predicate ListedAsMaster(c: Cluster, name: Name, s: Session) {
    c.tree.election == Some(Znode(name, s))
  }

  predicate ListedAsSlave(c: Cluster, name: Name, s: Session) {
    name in c.tree.slaves && c.tree.slaves[name] == s
  }

  /** A call that holds a node in a live session holds it in the manager's own. */
  ghost predicate CallInv(names: seq<Name>, c: Cluster, k: Call)
    requires |c.managers| == |names|
  {
    && k.manager < |names| && c.managers[k.manager].conn.Some? && k.session <= c.managers[k.manager].conn.value
    && (Trying(k.pc) ==> !Holds(c, names[k.manager]))
    && (k.session in c.live && Placed(k.pc) ==>
          && c.managers[k.manager].conn == Some(k.session)
          && (Cleaning(k.pc) ==> ListedAsMaster(c, names[k.manager], k.session))
          && (k.pc.SignalSlave? ==> ListedAsSlave(c, names[k.manager], k.session))
          && (ListedAsMaster(c, names[k.manager], k.session) || ListedAsSlave(c, names[k.manager], k.session)))
  }

  /** One call of a manager at a time, in the newest session of all its calls. */
  ghost predicate InOrder(c: Cluster) {
    forall i, j :: 0 <= i < |c.calls| && 0 <= j < |c.calls| && i != j && InFlight(c.calls[i]) ==>
      c.calls[i].manager == c.calls[j].manager ==>
      !InFlight(c.calls[j]) && c.calls[j].session <= c.calls[i].session
  }

  ghost predicate CallsInv(names: seq<Name>, c: Cluster)
    requires |c.managers| == |names|
  {
    (forall i :: 0 <= i < |c.calls| ==> CallInv(names, c, c.calls[i])) && InOrder(c)
  }

  ghost predicate Inv(names: seq<Name>, c: Cluster) {
    ManagersInv(names, c) && NodesInv(names, c) && CallsInv(names, c)
  }

  // ---------- kept by every step ----------

  lemma DialKeepsInv(names: seq<Name>, c: Cluster, m: nat)
    requires Inv(names, c) && TakesTurns(c, Dial(m))
    ensures Inv(names, Apply(c, Dial(m)))
  {
    var r := Apply(c, Dial(m));
    if m < |c.managers| {
      forall i | 0 <= i < |c.calls| ensures CallInv(names, r, c.calls[i]) {
        assert CallInv(names, c, c.calls[i]);
      }
    }
  }

  lemma EndKeepsInv(names: seq<Name>, c: Cluster, s: Session)
    requires Inv(names, c)
    ensures Inv(names, Apply(c, End(s)))
  {
    var r := Apply(c, End(s));
    forall i | 0 <= i < |c.calls| ensures CallInv(names, r, c.calls[i]) {
      assert CallInv(names, c, c.calls[i]);
    }
  }

  lemma BeginKeepsInv(names: seq<Name>, c: Cluster, m: nat)
    requires Inv(names, c) && TakesTurns(c, Begin(m))
    ensures Inv(names, Apply(c, Begin(m)))
  {
    var r := Apply(c, Begin(m));
    forall i | 0 <= i < |r.calls| ensures CallInv(names, r, r.calls[i]) {
      if i < |c.calls| { assert CallInv(names, c, c.calls[i]); }
    }
  }

  lemma MakeDirKeepsInv(names: seq<Name>, c: Cluster, m: nat)
    requires Inv(names, c)
    ensures Inv(names, Apply(c, MakeDir(m)))
  {
    var r := Apply(c, MakeDir(m));
    forall i | 0 <= i < |c.calls| ensures CallInv(names, r, c.calls[i]) {
      assert CallInv(names, c, c.calls[i]);
    }
  }

  lemma AdvanceKeepsManagers(names: seq<Name>, c: Cluster, i: nat, reply: Reply)
    requires i < |c.calls| && Valid(c, c.calls[i]) && ManagersInv(names, c)
    ensures ManagersInv(names, AdvanceCall(c, i, reply))
  {
    AdvanceFrame(c, i, reply);
  }

  /** How the tree moves in one step of call `i`. */
  ghost predicate Moved(c: Cluster, i: nat, u: Tree)
    requires i < |c.calls| && Valid(c, c.calls[i])
  {
    var t, pc, name, s := c.tree, c.calls[i].pc, c.managers[c.calls[i].manager].name,
      c.managers[c.calls[i].manager].conn.value;
    && (u.election == t.election
          || (pc.CreateMaster? && t.election.None? && u.election == Some(Znode(name, s)) && s in c.live))
    && (u.slaves == t.slaves
        || (pc.CreateSlave? && name !in t.slaves && u.slaves == t.slaves[name := s] && s in c.live)
        || (pc.DeleteOwnSlave? && u.slaves == t.slaves - {name} && s in c.live))
  }

  lemma AdvanceTree(c: Cluster, i: nat, reply: Reply)
    requires i < |c.calls| && Valid(c, c.calls[i])
    ensures Moved(c, i, AdvanceCall(c, i, reply).tree)
  {
  }

  lemma MoveKeepsNodes(names: seq<Name>, c: Cluster, i: nat, r: Cluster)
    requires i < |c.calls| && Valid(c, c.calls[i]) && ManagersInv(names, c)
    requires NodesInv(names, c) && Sorting.Distinct(names)
    requires Framed(c, r, i) && Moved(c, i, r.tree)
    ensures NodesInv(names, r)
  {
    var m := c.calls[i].manager;
    assert names[m] in names;
    assert forall n :: 0 <= n < |names| && names[n] == names[m] ==> n == m;
  }

  lemma AdvanceKeepsOther(names: seq<Name>, c: Cluster, i: nat, reply: Reply, j: nat)
    requires i < |c.calls| && Valid(c, c.calls[i]) && Inv(names, c)
    requires Sorting.Distinct(names) && j < |c.calls| && j != i
    ensures |AdvanceCall(c, i, reply).managers| == |names| && CallInv(names, AdvanceCall(c, i, reply), c.calls[j])
  {
    AdvanceFrame(c, i, reply);
    AdvanceTree(c, i, reply);
    var a, b := c.calls[i], c.calls[j];
    assert CallInv(names, c, a) && CallInv(names, c, b);
    assert a.manager == b.manager ==> !(InFlight(a) && InFlight(b));
    assert names[a.manager] == names[b.manager] ==> a.manager == b.manager;
  }

  lemma MasterTryKeepsOwn(names: seq<Name>, c: Cluster, i: nat, reply: Reply)
    requires i < |c.calls| && Valid(c, c.calls[i]) && (c.calls[i].pc.GetMaster? || c.calls[i].pc.CreateMaster?)
    requires ManagersInv(names, c) && CallInv(names, c, c.calls[i])
    ensures |AdvanceCall(c, i, reply).managers| == |names|
    ensures CallInv(names, AdvanceCall(c, i, reply), AdvanceCall(c, i, reply).calls[i])
  {
    AdvanceFrame(c, i, reply);
  }

  lemma DirTryKeepsOwn(names: seq<Name>, c: Cluster, i: nat, reply: Reply)
    requires i < |c.calls| && Valid(c, c.calls[i]) && (c.calls[i].pc.GetDir? || c.calls[i].pc.CreateDir?)
    requires ManagersInv(names, c) && CallInv(names, c, c.calls[i])
    ensures |AdvanceCall(c, i, reply).managers| == |names|
    ensures CallInv(names, AdvanceCall(c, i, reply), AdvanceCall(c, i, reply).calls[i])
  {
    AdvanceFrame(c, i, reply);
  }

  lemma SlaveTryKeepsOwn(names: seq<Name>, c: Cluster, i: nat, reply: Reply)
    requires i < |c.calls| && Valid(c, c.calls[i])
    requires c.calls[i].pc.GetSlave? || c.calls[i].pc.CreateSlave? || c.calls[i].pc.SignalSlave?
    requires ManagersInv(names, c) && NodesInv(names, c) && CallInv(names, c, c.calls[i])
    ensures |AdvanceCall(c, i, reply).managers| == |names|
    ensures CallInv(names, AdvanceCall(c, i, reply), AdvanceCall(c, i, reply).calls[i])
  {
    AdvanceFrame(c, i, reply);
  }

  lemma TryingKeepsOwn(names: seq<Name>, c: Cluster, i: nat, reply: Reply)
    requires i < |c.calls| && Valid(c, c.calls[i]) && Trying(c.calls[i].pc)
    requires ManagersInv(names, c) && NodesInv(names, c) && CallInv(names, c, c.calls[i])
    ensures |AdvanceCall(c, i, reply).managers| == |names|
    ensures CallInv(names, AdvanceCall(c, i, reply), AdvanceCall(c, i, reply).calls[i])
  {
    if c.calls[i].pc.GetMaster? || c.calls[i].pc.CreateMaster? {
      MasterTryKeepsOwn(names, c, i, reply);
    } else if c.calls[i].pc.GetDir? || c.calls[i].pc.CreateDir? {
      DirTryKeepsOwn(names, c, i, reply);
    } else {
      SlaveTryKeepsOwn(names, c, i, reply);
    }
  }

  lemma CleaningKeepsOwn(names: seq<Name>, c: Cluster, i: nat, reply: Reply)
    requires i < |c.calls| && Valid(c, c.calls[i]) && !Trying(c.calls[i].pc)
    requires ManagersInv(names, c) && CallInv(names, c, c.calls[i])
    ensures |AdvanceCall(c, i, reply).managers| == |names|
    ensures CallInv(names, AdvanceCall(c, i, reply), AdvanceCall(c, i, reply).calls[i])
  {
    AdvanceFrame(c, i, reply);
  }

  /** A step takes a call of a manager no further back than its session, and wakes no finished call. */
  lemma AdvanceKeepsTurns(names: seq<Name>, c: Cluster, i: nat, reply: Reply)
    requires i < |c.calls| && Valid(c, c.calls[i]) && |c.managers| == |names| && CallsInv(names, c)
    ensures var r := AdvanceCall(c, i, reply).calls;
      (InFlight(r[i]) ==> InFlight(c.calls[i])) && r[i].session >= c.calls[i].session
    ensures var r := AdvanceCall(c, i, reply).calls; !InFlight(c.calls[i]) ==> r[i] == c.calls[i]
  {
    assert CallInv(names, c, c.calls[i]);
  }

  lemma AdvanceKeepsCallInvs(names: seq<Name>, c: Cluster, i: nat, reply: Reply)
    requires i < |c.calls| && Valid(c, c.calls[i]) && Inv(names, c) && Sorting.Distinct(names)
    ensures var r := AdvanceCall(c, i, reply);
      |r.managers| == |names| && forall j :: 0 <= j < |r.calls| ==> CallInv(names, r, r.calls[j])
  {
    var r := AdvanceCall(c, i, reply);
    AdvanceFrame(c, i, reply);
    forall j | 0 <= j < |r.calls| ensures CallInv(names, r, r.calls[j]) {
      if j != i {
        AdvanceKeepsOther(names, c, i, reply, j);
      } else if Trying(c.calls[i].pc) {
        TryingKeepsOwn(names, c, i, reply);
      } else {
        CleaningKeepsOwn(names, c, i, reply);
      }
    }
  }

  lemma AdvanceKeepsOrder(c: Cluster, i: nat, r: Cluster)
    requires i < |c.calls| && Framed(c, r, i)
    requires InFlight(r.calls[i]) ==> InFlight(c.calls[i])
    requires r.calls[i].session >= c.calls[i].session && (!InFlight(c.calls[i]) ==> r.calls[i] == c.calls[i])
    requires InOrder(c)
    ensures InOrder(r)
  {
    forall a, b | 0 <= a < |r.calls| && 0 <= b < |r.calls| && a != b && r.calls[a].manager == r.calls[b].manager
      && InFlight(r.calls[a])
      ensures !InFlight(r.calls[b]) && r.calls[b].session <= r.calls[a].session
    {
      assert InFlight(c.calls[a]) && !InFlight(c.calls[b]) && c.calls[b].session <= c.calls[a].session;
    }
  }

  lemma AdvanceKeepsInv(names: seq<Name>, c: Cluster, i: nat, reply: Reply)
    requires i < |c.calls| && Valid(c, c.calls[i]) && Inv(names, c) && Sorting.Distinct(names)
    ensures Inv(names, AdvanceCall(c, i, reply))
  {
    AdvanceFrame(c, i, reply);
    AdvanceKeepsManagers(names, c, i, reply);
    AdvanceTree(c, i, reply);
    MoveKeepsNodes(names, c, i, AdvanceCall(c, i, reply));
    AdvanceKeepsCallInvs(names, c, i, reply);
    AdvanceKeepsTurns(names, c, i, reply);
    AdvanceKeepsOrder(c, i, AdvanceCall(c, i, reply));
  }

  lemma {:induction false} RunKeepsInv(names: seq<Name>, actions: seq<Action>)
    requires Sorting.Distinct(names) && Throughout(names, actions, TakesTurns)
    ensures Inv(names, Run(names, actions))
  {
    if actions != [] {
      RunKeepsInv(names, actions[..|actions| - 1]);
      var c, a := Run(names, actions[..|actions| - 1]), actions[|actions| - 1];
      match a {
        case Dial(m) => DialKeepsInv(names, c, m);
        case End(s) => EndKeepsInv(names, c, s);
        case MakeDir(m) => MakeDirKeepsInv(names, c, m);
        case Begin(m) => BeginKeepsInv(names, c, m);
        case Advance(i, reply) => if i < |c.calls| && Valid(c, c.calls[i]) { AdvanceKeepsInv(names, c, i, reply); }
      }
    }
  }

  // ---------- listed twice, in every run ----------

  /** Some call of this manager is between creating the election node and deleting the slave node. */
  ghost predicate CleaningUp(c: Cluster, name: Name) {
    exists i :: 0 <= i < |c.calls| && c.calls[i].manager < |c.managers|
      && c.managers[c.calls[i].manager].name == name && Cleaning(c.calls[i].pc)
  }

  ghost predicate TwiceInv(c: Cluster) {
    forall n :: Holds(c, n) && n in c.tree.slaves ==> CleaningUp(c, n)
  }

  ghost predicate OthersClean(c: Cluster, i: nat, name: Name) {
    exists j :: 0 <= j < |c.calls| && j != i && c.calls[j].manager < |c.managers|
      && c.managers[c.calls[j].manager].name == name && Cleaning(c.calls[j].pc)
  }

  /** The step lists a name a second time without starting to clean it up: a slave node is created under the
      master's own name, or the answer to the creation of the election node is lost by a slave. */
  predicate Doubles(c: Cluster, i: nat, reply: Reply)
    requires i < |c.calls| && Valid(c, c.calls[i])
  {
    var m, pc := c.managers[c.calls[i].manager], c.calls[i].pc;
    && m.conn.value in c.live && !reply.Unsent?
    && ((pc.CreateSlave? && c.tree.slaveDir && Holds(c, m.name) && m.name !in c.tree.slaves)
        || (pc.CreateMaster? && reply.Lost? && c.tree.election.None? && m.name in c.tree.slaves))
  }

  /** The step gives up cleaning a name that is still listed twice. */
  predicate GivesUp(c: Cluster, i: nat, reply: Reply)
    requires i < |c.calls| && Valid(c, c.calls[i])
  {
    var m, pc := c.managers[c.calls[i].manager], c.calls[i].pc;
    && Holds(c, m.name) && m.name in c.tree.slaves
    && ((pc.GetOwnSlave? && !(m.conn.value in c.live && reply.Delivered?))
        || (pc.DeleteOwnSlave? && !(m.conn.value in c.live && !reply.Unsent?)))
  }

  ghost predicate TidyStep(c: Cluster, a: Action) {
    a.Advance? && a.i < |c.calls| && Valid(c, c.calls[a.i]) ==>
      var name := c.managers[c.calls[a.i].manager].name;
      && (Doubles(c, a.i, a.reply) ==> CleaningUp(c, name))
      && (GivesUp(c, a.i, a.reply) ==> OthersClean(c, a.i, name))
  }

  lemma StepKeepsCleaner(c: Cluster, r: Cluster, i: nat, n: Name)
    requires i < |c.calls| && Framed(c, r, i)
    ensures OthersClean(c, i, n) ==> CleaningUp(r, n)
    ensures CleaningUp(r, n) ==> OthersClean(c, i, n) || Cleaning(r.calls[i].pc)
    ensures CleaningUp(c, n) && (!Cleaning(c.calls[i].pc) || Cleaning(r.calls[i].pc)) ==> CleaningUp(r, n)
  {
    if OthersClean(c, i, n) {
      var j :| 0 <= j < |c.calls| && j != i && c.calls[j].manager < |c.managers|
        && c.managers[c.calls[j].manager].name == n && Cleaning(c.calls[j].pc);
      assert r.calls[j] == c.calls[j] && r.managers[r.calls[j].manager].name == n;
    }
    if CleaningUp(r, n) && !Cleaning(r.calls[i].pc) {
      var j :| 0 <= j < |r.calls| && r.calls[j].manager < |r.managers| && r.managers[r.calls[j].manager].name == n
        && Cleaning(r.calls[j].pc);
      assert c.calls[j] == r.calls[j] && c.managers[c.calls[j].manager].name == n;
    }
    if CleaningUp(c, n) && (!Cleaning(c.calls[i].pc) || Cleaning(r.calls[i].pc)) {
      var j :| 0 <= j < |c.calls| && c.calls[j].manager < |c.managers| && c.managers[c.calls[j].manager].name == n
        && Cleaning(c.calls[j].pc);
      assert r.calls[j].manager == c.calls[j].manager && r.managers[r.calls[j].manager].name == n
        && Cleaning(r.calls[j].pc);
    }
  }

  /** A name of another manager is listed as before, and cleaned up as before. */
  lemma OtherNameKeepsTwice(c: Cluster, i: nat, reply: Reply, n: Name)
    requires i < |c.calls| && Valid(c, c.calls[i]) && TwiceInv(c) && n != c.managers[c.calls[i].manager].name
    requires Holds(AdvanceCall(c, i, reply), n) && n in AdvanceCall(c, i, reply).tree.slaves
    ensures CleaningUp(AdvanceCall(c, i, reply), n)
  {
    AdvanceFrame(c, i, reply);
    AdvanceTree(c, i, reply);
    assert CleaningUp(c, n);
    assert OthersClean(c, i, n);
    StepKeepsCleaner(c, AdvanceCall(c, i, reply), i, n);
  }

  lemma OwnNameTwiceIff(c: Cluster, i: nat, reply: Reply)
    requires i < |c.calls| && Valid(c, c.calls[i]) && TwiceInv(c)
    ensures var r, n := AdvanceCall(c, i, reply), c.managers[c.calls[i].manager].name;
      (Holds(r, n) && n in r.tree.slaves ==> CleaningUp(r, n)) <==> TidyStep(c, Advance(i, reply))
  {
    var r, n := AdvanceCall(c, i, reply), c.managers[c.calls[i].manager].name;
    AdvanceFrame(c, i, reply);
    StepKeepsCleaner(c, r, i, n);
    if Cleaning(r.calls[i].pc) {
      assert r.managers[r.calls[i].manager].name == n;
    }
  }

  lemma AdvanceTwiceIff(c: Cluster, i: nat, reply: Reply)
    requires i < |c.calls| && Valid(c, c.calls[i]) && TwiceInv(c)
    ensures TwiceInv(AdvanceCall(c, i, reply)) <==> TidyStep(c, Advance(i, reply))
  {
    var r, name := AdvanceCall(c, i, reply), c.managers[c.calls[i].manager].name;
    OwnNameTwiceIff(c, i, reply);
    forall n | n != name && Holds(r, n) && n in r.tree.slaves ensures CleaningUp(r, n) {
      OtherNameKeepsTwice(c, i, reply, n);
    }
  }

  lemma OtherStepKeepsTwice(c: Cluster, a: Action)
    requires TwiceInv(c) && !a.Advance?
    ensures TwiceInv(Apply(c, a))
  {
    var r := Apply(c, a);
    forall n | Holds(r, n) && n in r.tree.slaves ensures CleaningUp(r, n) {
      assert CleaningUp(c, n);
      var i :| 0 <= i < |c.calls| && c.calls[i].manager < |c.managers| && c.managers[c.calls[i].manager].name == n
        && Cleaning(c.calls[i].pc);
      assert r.calls[i] == c.calls[i] && r.managers[c.calls[i].manager].name == n;
    }
  }

  lemma TwiceStepIff(c: Cluster, a: Action)
    requires TwiceInv(c)
    ensures TwiceInv(Apply(c, a)) <==> TidyStep(c, a)
  {
    if !a.Advance? {
      OtherStepKeepsTwice(c, a);
    } else if a.i < |c.calls| && Valid(c, c.calls[a.i]) {
      AdvanceTwiceIff(c, a.i, a.reply);
    }
  }

  /** At no moment is a name listed twice without a call of that manager cleaning it up. */
  ghost predicate NeverLeftTwice(names: seq<Name>, actions: seq<Action>) {
    TwiceInv(Run(names, actions)) && (actions == [] || NeverLeftTwice(names, actions[..|actions| - 1]))
  }

  /** In every run of any managers, whatever their names, sessions and calls: a manager is listed both as master
      and as slave only while its own call is between create and delete, if and only if every step is tidy. */
  lemma {:induction false} TwiceOnlyWhileCleaningIff(names: seq<Name>, actions: seq<Action>)
    ensures NeverLeftTwice(names, actions) <==> Throughout(names, actions, TidyStep)
  {
    if actions != [] {
      var before := actions[..|actions| - 1];
      TwiceOnlyWhileCleaningIff(names, before);
      if TwiceInv(Run(names, before)) { TwiceStepIff(Run(names, before), actions[|actions| - 1]); }
      assert NeverLeftTwice(names, before) ==> TwiceInv(Run(names, before));
    }
  }

  // ---------- what the cluster list shows ----------

  /** `GetClusterInfo`: the master first, then the children of the slave directory in any order. */
  function ClusterNodes(t: Tree, children: seq<Name>): seq<Name> {
    (if t.election.Some? then [t.election.value.data] else []) + children
  }

  ghost predicate Children(t: Tree, children: seq<Name>) {
    Sorting.Distinct(children) && forall n :: n in children <==> n in t.slaves
  }

  ghost predicate Quiet(c: Cluster) {
    forall i :: 0 <= i < |c.calls| ==> !InFlight(c.calls[i])
  }

  lemma AnsweredStepIsTidy(names: seq<Name>, c: Cluster, a: Action)
    requires Inv(names, c) && KeepsCreation(c, a) && KeepsCleanup(c, a)
    ensures TidyStep(c, a)
  {
    if a.Advance? && a.i < |c.calls| && Valid(c, c.calls[a.i]) {
      var k := c.calls[a.i];
      assert CallInv(names, c, k);
      assert c.managers[k.manager].name == names[k.manager];
    }
  }

  lemma {:induction false} AnsweredIsTidy(names: seq<Name>, actions: seq<Action>)
    requires Sorting.Distinct(names) && Throughout(names, actions, TakesTurns)
    requires Throughout(names, actions, KeepsCreation) && Throughout(names, actions, KeepsCleanup)
    ensures Throughout(names, actions, TidyStep)
  {
    if actions != [] {
      AnsweredIsTidy(names, actions[..|actions| - 1]);
      RunKeepsInv(names, actions[..|actions| - 1]);
      AnsweredStepIsTidy(names, Run(names, actions[..|actions| - 1]), actions[|actions| - 1]);
    }
  }

  /** Turns and answered cleanups are enough: a manager is listed both as master and as slave only while its own
      call is between create and delete, at every moment of the run. */
  lemma TwiceOnlyWhileCleaning(names: seq<Name>, actions: seq<Action>)
    requires Sorting.Distinct(names) && Throughout(names, actions, TakesTurns)
    requires Throughout(names, actions, KeepsCreation) && Throughout(names, actions, KeepsCleanup)
    ensures NeverLeftTwice(names, actions)
  {
    AnsweredIsTidy(names, actions);
    TwiceOnlyWhileCleaningIff(names, actions);
  }

  /** With no call under way, only the election node can repeat a name in the list. */
  lemma QuietDuplicates(c: Cluster, children: seq<Name>)
    requires Quiet(c) && Children(c.tree, children)
    ensures Sorting.Distinct(ClusterNodes(c.tree, children)) <==> TwiceInv(c)
  {
    var nodes := ClusterNodes(c.tree, children);
    assert forall n :: !CleaningUp(c, n);
    if c.tree.election.Some? {
      assert nodes[0] == c.tree.election.value.data && nodes[1..] == children;
      assert Holds(c, nodes[0]);
      if nodes[0] in children {
        var i :| 0 <= i < |children| && children[i] == nodes[0];
        assert nodes[i + 1] == nodes[0];
      }
    }
  }
}
