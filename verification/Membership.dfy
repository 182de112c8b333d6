/** Who is in the cluster list (election/election.go, GetClusterInfo): exactly when a manager whose call succeeded
    drops out of it, in every run, and what the list holds when managers take turns. */
module Membership {
  import opened Options
  import opened Election
  import opened Listing
  import Sorting

  // ---------- what holds in every run ----------

  /** Sessions are numbered as they are dialled, nodes live in live sessions, and a call that cleans up in a live
      session is in office there. */
  ghost predicate BaseInv(c: Cluster) {
    && (forall s :: s in c.live ==> s < c.next)
    && (forall m :: 0 <= m < |c.managers| && c.managers[m].conn.Some? ==> c.managers[m].conn.value < c.next)
    && (c.tree.election.Some? ==> c.tree.election.value.owner in c.live)
    && (forall n :: n in c.tree.slaves ==> c.tree.slaves[n] in c.live)
    && (forall i :: 0 <= i < |c.calls| ==> BaseCall(c, c.calls[i]))
  }

  ghost predicate BaseCall(c: Cluster, k: Call) {
    && k.manager < |c.managers| && k.session < c.next
    && (Cleaning(k.pc) && k.session in c.live ==> ListedAsMaster(c, c.managers[k.manager].name, k.session))
  }

  lemma OtherStepKeepsBase(c: Cluster, a: Action)
    requires BaseInv(c) && !a.Advance?
    ensures BaseInv(Apply(c, a))
  {
    var r := Apply(c, a);
    forall i | 0 <= i < |r.calls| ensures BaseCall(r, r.calls[i]) {
      if i < |c.calls| { assert BaseCall(c, c.calls[i]); }
    }
  }

  lemma AdvanceKeepsBase(c: Cluster, i: nat, reply: Reply)
    requires i < |c.calls| && Valid(c, c.calls[i]) && BaseInv(c)
    ensures BaseInv(AdvanceCall(c, i, reply))
  {
    var r := AdvanceCall(c, i, reply);
    AdvanceFrame(c, i, reply);
    AdvanceTree(c, i, reply);
    forall j | 0 <= j < |r.calls| ensures BaseCall(r, r.calls[j]) {
      assert BaseCall(c, c.calls[j]);
      if j == i { OwnStepKeepsBase(c, i, reply); }
    }
  }

  lemma OwnStepKeepsBase(c: Cluster, i: nat, reply: Reply)
    requires i < |c.calls| && Valid(c, c.calls[i]) && BaseCall(c, c.calls[i])
    requires c.managers[c.calls[i].manager].conn.value < c.next
    ensures BaseCall(AdvanceCall(c, i, reply), AdvanceCall(c, i, reply).calls[i])
  {
    AdvanceFrame(c, i, reply);
  }

  lemma {:induction false} RunKeepsBase(names: seq<Name>, actions: seq<Action>)
    ensures BaseInv(Run(names, actions))
  {
    if actions != [] {
      var c, a := Run(names, actions[..|actions| - 1]), actions[|actions| - 1];
      RunKeepsBase(names, actions[..|actions| - 1]);
      if !a.Advance? {
        OtherStepKeepsBase(c, a);
      } else if a.i < |c.calls| && Valid(c, c.calls[a.i]) {
        AdvanceKeepsBase(c, a.i, a.reply);
      }
    }
  }

  // ---------- dropped from the list ----------

  /** Listed in a node that survives session `gone`. */
  predicate ListedBeside(t: Tree, name: Name, gone: Session) {
    || (t.election.Some? && t.election.value.data == name && t.election.value.owner != gone)
    || (name in t.slaves && t.slaves[name] != gone)
  }

  predicate ListedIn(t: Tree, name: Name) {
    (t.election.Some? && t.election.value.data == name) || name in t.slaves
  }

  /** Call `k` succeeded for a manager called `name`, in a session still live. */
  predicate Member(c: Cluster, k: Call, name: Name) {
    && k.manager < |c.managers| && c.managers[k.manager].name == name
    && k.pc == Done(true) && k.session in c.live
  }

  ghost predicate MembersListed(c: Cluster) {
    forall i :: 0 <= i < |c.calls| ==> MemberListed(c, c.calls[i])
  }

  ghost predicate MemberListed(c: Cluster, k: Call) {
    k.manager < |c.managers| && k.pc == Done(true) && k.session in c.live ==>
      ListedIn(c.tree, c.managers[k.manager].name)
  }

  /** A member is listed only in nodes of session `s`, and its own session is another one. */
  ghost predicate EndDrops(c: Cluster, s: Session) {
    s in c.live && exists i :: 0 <= i < |c.calls| && DroppedWith(c, c.calls[i], s)
  }

  ghost predicate DroppedWith(c: Cluster, k: Call, s: Session) {
    && k.manager < |c.managers| && k.pc == Done(true) && k.session in c.live && k.session != s
    && !ListedBeside(c.tree, c.managers[k.manager].name, s)
  }

  /** The call is about to succeed in a live session, and the slave node it found is gone. */
  predicate SignalDrops(c: Cluster, i: nat)
    requires i < |c.calls| && Valid(c, c.calls[i])
  {
    && c.calls[i].pc.SignalSlave? && c.calls[i].session in c.live
    && !ListedIn(c.tree, c.managers[c.calls[i].manager].name)
  }

  /** The call deletes the slave node of its name after it has lost office, and a member of that name has no other. */
  ghost predicate DeleteDrops(c: Cluster, i: nat, reply: Reply)
    requires i < |c.calls| && Valid(c, c.calls[i])
  {
    var m := c.managers[c.calls[i].manager];
    && c.calls[i].pc.DeleteOwnSlave? && m.conn.value in c.live && !reply.Unsent? && !Holds(c, m.name)
    && exists j :: 0 <= j < |c.calls| && Member(c, c.calls[j], m.name)
  }

  ghost predicate Drops(c: Cluster, a: Action) {
    match a
    case End(s) => EndDrops(c, s)
    case Advance(i, reply) => i < |c.calls| && Valid(c, c.calls[i]) && (SignalDrops(c, i) || DeleteDrops(c, i, reply))
    case _ => false
  }

  ghost predicate Keeps(c: Cluster, a: Action) {
    !Drops(c, a)
  }

  lemma EndKeepsMembersIff(c: Cluster, s: Session)
    requires MembersListed(c) && s in c.live
    ensures MembersListed(Apply(c, End(s))) <==> !EndDrops(c, s)
  {
    var r := Apply(c, End(s));
    forall i | 0 <= i < |c.calls| ensures MemberListed(r, r.calls[i]) <==> !DroppedWith(c, c.calls[i], s) {
      assert MemberListed(c, c.calls[i]);
      if c.calls[i].manager < |c.managers| {
        var n := c.managers[c.calls[i].manager].name;
        assert ListedIn(r.tree, n) <==> ListedBeside(c.tree, n, s);
      }
    }
  }

  lemma OtherStepKeepsMembers(c: Cluster, a: Action)
    requires MembersListed(c) && BaseInv(c) && !a.Advance? && !a.End?
    ensures MembersListed(Apply(c, a))
  {
    var r := Apply(c, a);
    forall i | 0 <= i < |r.calls| ensures MemberListed(r, r.calls[i]) {
      if i < |c.calls| { assert MemberListed(c, c.calls[i]) && BaseCall(c, c.calls[i]); }
    }
  }

  /** A step that deletes nothing keeps every name in the list. */
  lemma AdvanceLists(c: Cluster, i: nat, reply: Reply, n: Name)
    requires i < |c.calls| && Valid(c, c.calls[i]) && ListedIn(c.tree, n)
    ensures var m, r := c.managers[c.calls[i].manager], AdvanceCall(c, i, reply).tree;
      || ListedIn(r, n)
      || (n == m.name && !Holds(c, n) && c.calls[i].pc.DeleteOwnSlave? && m.conn.value in c.live && !reply.Unsent?)
  {
    AdvanceTree(c, i, reply);
  }

  lemma SafeAdvanceKeepsMember(c: Cluster, i: nat, reply: Reply, j: nat)
    requires i < |c.calls| && Valid(c, c.calls[i]) && MembersListed(c) && BaseInv(c) && j < |c.calls|
    requires !SignalDrops(c, i) && !DeleteDrops(c, i, reply)
    ensures MemberListed(AdvanceCall(c, i, reply), AdvanceCall(c, i, reply).calls[j])
  {
    var r := AdvanceCall(c, i, reply);
    AdvanceFrame(c, i, reply);
    var k := c.calls[j];
    assert BaseCall(c, k) && MemberListed(c, k);
    if r.calls[j].pc == Done(true) && r.calls[j].session in c.live {
      var n := c.managers[k.manager].name;
      if j != i || k.pc == Done(true) {
        assert r.calls[j] == k && Member(c, k, n);
        AdvanceLists(c, i, reply, n);
      } else {
        assert r.calls[i].session == k.session;
        AdvanceLists(c, i, reply, n);
      }
    }
  }

  lemma DroppingAdvance(c: Cluster, i: nat, reply: Reply)
    requires i < |c.calls| && Valid(c, c.calls[i]) && BaseInv(c)
    requires SignalDrops(c, i) || DeleteDrops(c, i, reply)
    ensures !MembersListed(AdvanceCall(c, i, reply))
  {
    var r, name := AdvanceCall(c, i, reply), c.managers[c.calls[i].manager].name;
    AdvanceFrame(c, i, reply);
    if SignalDrops(c, i) {
      assert !MemberListed(r, r.calls[i]);
    } else {
      var j :| 0 <= j < |c.calls| && Member(c, c.calls[j], name);
      assert r.calls[j] == c.calls[j] && !ListedIn(r.tree, name);
      assert !MemberListed(r, r.calls[j]);
    }
  }

  lemma MemberStepIff(c: Cluster, a: Action)
    requires MembersListed(c) && BaseInv(c)
    ensures MembersListed(Apply(c, a)) <==> Keeps(c, a)
  {
    if a.End? {
      if a.s in c.live { EndKeepsMembersIff(c, a.s); }
    } else if !a.Advance? {
      OtherStepKeepsMembers(c, a);
    } else if a.i < |c.calls| && Valid(c, c.calls[a.i]) {
      if Drops(c, a) {
        DroppingAdvance(c, a.i, a.reply);
      } else {
        AdvanceFrame(c, a.i, a.reply);
        forall j | 0 <= j < |c.calls|
          ensures MemberListed(AdvanceCall(c, a.i, a.reply), AdvanceCall(c, a.i, a.reply).calls[j])
        {
          SafeAdvanceKeepsMember(c, a.i, a.reply, j);
        }
      }
    }
  }

  /** At no moment is a manager missing from the list whose call succeeded in a session still live. */
  ghost predicate NeverDropped(names: seq<Name>, actions: seq<Action>) {
    MembersListed(Run(names, actions)) && (actions == [] || NeverDropped(names, actions[..|actions| - 1]))
  }

  /** In every run of any managers, whatever their names, sessions and calls: every manager whose call succeeded in a
      session still live is listed, at every moment, if and only if no step drops one. */
  lemma {:induction false} NeverDroppedIff(names: seq<Name>, actions: seq<Action>)
    ensures NeverDropped(names, actions) <==> Throughout(names, actions, Keeps)
  {
    if actions != [] {
      var before := actions[..|actions| - 1];
      NeverDroppedIff(names, before);
      RunKeepsBase(names, before);
      if MembersListed(Run(names, before)) { MemberStepIff(Run(names, before), actions[|actions| - 1]); }
      assert NeverDropped(names, before) ==> MembersListed(Run(names, before));
    }
  }

  // ---------- the list itself ----------

  /** Managers keep their names, and every node carries one. */
  ghost predicate NamesInv(names: seq<Name>, c: Cluster) {
    && |c.managers| == |names| && (forall m :: 0 <= m < |names| ==> c.managers[m].name == names[m])
    && (c.tree.election.Some? ==> c.tree.election.value.data in names)
    && (forall n :: n in c.tree.slaves ==> n in names)
  }

  lemma {:induction false} RunKeepsNames(names: seq<Name>, actions: seq<Action>)
    ensures NamesInv(names, Run(names, actions))
  {
    if actions != [] {
      var c, a := Run(names, actions[..|actions| - 1]), actions[|actions| - 1];
      RunKeepsNames(names, actions[..|actions| - 1]);
      if a.Advance? && a.i < |c.calls| && Valid(c, c.calls[a.i]) {
        AdvanceFrame(c, a.i, a.reply);
        AdvanceTree(c, a.i, a.reply);
        assert names[c.calls[a.i].manager] in names;
      }
    }
  }

  /** In every run the node list names managers only, by nodes in live sessions; it holds every manager whose call
      succeeded in a session still live if no step drops one; and with no call under way it has no duplicates if every
      step is tidy. */
  lemma QuietListing(names: seq<Name>, actions: seq<Action>, children: seq<Name>)
    requires Children(Run(names, actions).tree, children)
    ensures var c := Run(names, actions);
      && |c.managers| == |names| && (forall n :: n in ClusterNodes(c.tree, children) ==> n in names)
      && (c.tree.election.Some? ==> c.tree.election.value.owner in c.live)
      && (forall n :: n in children ==> n in c.tree.slaves && c.tree.slaves[n] in c.live)
      && (Throughout(names, actions, Keeps) ==>
            forall i :: 0 <= i < |c.calls| && c.calls[i].pc == Done(true) && c.calls[i].session in c.live ==>
              c.calls[i].manager < |names| && names[c.calls[i].manager] in ClusterNodes(c.tree, children))
      && (Quiet(c) && Throughout(names, actions, TidyStep) ==> Sorting.Distinct(ClusterNodes(c.tree, children)))
  {
    var c := Run(names, actions);
    RunKeepsNames(names, actions);
    RunKeepsBase(names, actions);
    NeverDroppedIff(names, actions);
    TwiceOnlyWhileCleaningIff(names, actions);
    if Quiet(c) && Throughout(names, actions, TidyStep) { QuietDuplicates(c, children); }
    if Throughout(names, actions, Keeps) { ListsMembers(names, c, children); }
  }

  lemma ListsMembers(names: seq<Name>, c: Cluster, children: seq<Name>)
    requires NamesInv(names, c) && BaseInv(c) && MembersListed(c) && Children(c.tree, children)
    ensures forall i :: 0 <= i < |c.calls| && c.calls[i].pc == Done(true) && c.calls[i].session in c.live ==>
      c.calls[i].manager < |names| && names[c.calls[i].manager] in ClusterNodes(c.tree, children)
  {
    forall i | 0 <= i < |c.calls| && c.calls[i].pc == Done(true) && c.calls[i].session in c.live
      ensures c.calls[i].manager < |names| && names[c.calls[i].manager] in ClusterNodes(c.tree, children)
    {
      assert BaseCall(c, c.calls[i]) && MemberListed(c, c.calls[i]);
    }
  }

  // ---------- managers that take turns ----------

  lemma TurnsStepKeeps(names: seq<Name>, c: Cluster, a: Action)
    requires Inv(names, c) && Sorting.Distinct(names)
    ensures Keeps(c, a)
  {
    match a {
      case End(s) =>
        forall i | 0 <= i < |c.calls| ensures !DroppedWith(c, c.calls[i], s) { assert CallInv(names, c, c.calls[i]); }
      case Advance(i, reply) =>
        if i < |c.calls| && Valid(c, c.calls[i]) {
          assert CallInv(names, c, c.calls[i]);
          forall j | 0 <= j < |c.calls| && DeleteDrops(c, i, reply)
            ensures !Member(c, c.calls[j], names[c.calls[i].manager])
          {
            assert CallInv(names, c, c.calls[j]);
            assert names[c.calls[i].manager] == names[c.calls[j].manager] ==> c.calls[i].manager == c.calls[j].manager;
          }
        }
      case _ =>
    }
  }

  /** Managers that take turns never drop out of the list. */
  lemma {:induction false} TurnsKeepMembers(names: seq<Name>, actions: seq<Action>)
    requires Sorting.Distinct(names) && Throughout(names, actions, TakesTurns)
    ensures Throughout(names, actions, Keeps)
  {
    if actions != [] {
      TurnsKeepMembers(names, actions[..|actions| - 1]);
      RunKeepsInv(names, actions[..|actions| - 1]);
      TurnsStepKeeps(names, Run(names, actions[..|actions| - 1]), actions[|actions| - 1]);
    }
  }

  /** When managers take turns, the node list holds every manager whose call succeeded in a session still live, and
      names only managers whose own session is live. */
  lemma TurnsListing(names: seq<Name>, actions: seq<Action>, children: seq<Name>)
    requires Sorting.Distinct(names) && Throughout(names, actions, TakesTurns)
    requires Children(Run(names, actions).tree, children)
    ensures var c := Run(names, actions);
      && |c.managers| == |names|
      && (forall i :: 0 <= i < |c.calls| && c.calls[i].pc == Done(true) && c.calls[i].session in c.live ==>
            c.calls[i].manager < |names| && names[c.calls[i].manager] in ClusterNodes(c.tree, children))
      && (forall m :: 0 <= m < |names| && names[m] in ClusterNodes(c.tree, children) ==>
            c.managers[m].conn.Some? && c.managers[m].conn.value in c.live)
  {
    var c := Run(names, actions);
    TurnsKeepMembers(names, actions);
    QuietListing(names, actions, children);
    RunKeepsInv(names, actions);
    forall m | 0 <= m < |names| && names[m] in ClusterNodes(c.tree, children)
      ensures c.managers[m].conn.Some? && c.managers[m].conn.value in c.live
    {
      assert Holds(c, names[m]) || names[m] in c.tree.slaves;
    }
  }

  /** The reconnect loop dials in `connect` and once more in `Start`, while the first new session is live. It is entered
      when the session has ended, and also when the connection is merely lost and the old session lives on: the two
      dials are within the rules if and only if the old session owns no node. */
  lemma ReconnectTakesTurnsIff(names: seq<Name>, actions: seq<Action>, m: nat)
    requires Throughout(names, actions, TakesTurns)
    requires m < |Run(names, actions).managers| && Run(names, actions).managers[m].conn.Some?
    ensures var c := Run(names, actions);
      Throughout(names, actions + [Dial(m)] + [Dial(m)], TakesTurns) <==> OwnsNothing(c.tree, c.managers[m].conn.value)
  {
    var c, once := Run(names, actions), actions + [Dial(m)];
    RunKeepsBase(names, actions);
    RunStep(names, actions, Dial(m), TakesTurns);
    RunStep(names, once, Dial(m), TakesTurns);
    var r := Run(names, once);
    assert r.tree == c.tree && r.managers[m].conn == Some(c.next) && OwnsNothing(r.tree, c.next);
  }

  /** A session that has ended owns no node, so a redial after it is always within the rules. */
  lemma EndedOwnsNothing(names: seq<Name>, actions: seq<Action>, s: Session)
    requires s !in Run(names, actions).live
    ensures OwnsNothing(Run(names, actions).tree, s)
  {
    RunKeepsBase(names, actions);
  }
}
