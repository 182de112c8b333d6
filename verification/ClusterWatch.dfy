/** The node change detector (election/election.go, listenForNodeEvents): it polls the cluster list and
    signals when the list differs from the recorded node set. */
module ClusterWatch {
  import opened Options
  import Sorting

  type Name = string

  function Members(nodes: seq<Name>): set<Name> {
    set n | n in nodes
  }

  /** The check: length first, then membership. */
  predicate Changed(recorded: set<Name>, nodes: seq<Name>) {
    |nodes| != |recorded| || exists i :: 0 <= i < |nodes| && nodes[i] !in recorded
  }

  function After(recorded: set<Name>, nodes: seq<Name>): set<Name> {
    if Changed(recorded, nodes) then Members(nodes) else recorded
  }

  class Watcher {
    var clusterNodes: set<Name>
    var signals: nat  // ClusterChanged messages put on the feedback channel

    constructor ()
      ensures clusterNodes == {} && signals == 0
    {
      clusterNodes, signals := {}, 0;
    }

    method Store(nodes: seq<Name>)
      modifies this`clusterNodes
      ensures clusterNodes == old(clusterNodes) + Members(nodes)
    {
      for i := 0 to |nodes|
        invariant clusterNodes == old(clusterNodes) + Members(nodes[..i])
      {
        assert Members(nodes[..i + 1]) == Members(nodes[..i]) + {nodes[i]};
        clusterNodes := clusterNodes + {nodes[i]};
      }
      assert nodes[..|nodes|] == nodes;
    }

    /** One poll. `None` is a list that could not be read. */
    method Poll(snapshot: Option<seq<Name>>)
      modifies this
      ensures snapshot.None? ==> clusterNodes == old(clusterNodes) && signals == old(signals)
      ensures snapshot.Some? ==> clusterNodes == After(old(clusterNodes), snapshot.value)
      ensures snapshot.Some? ==> signals == old(signals) + if Changed(old(clusterNodes), snapshot.value) then 1 else 0
    {
      if snapshot.None? {
        return;
      }
      var nodes := snapshot.value;
      var changed := false;
      if |nodes| != |clusterNodes| {
        changed := true;
      } else {
        for i := 0 to |nodes|
          invariant !changed && forall k :: 0 <= k < i ==> nodes[k] in clusterNodes
        {
          if nodes[i] !in clusterNodes {
            changed := true;
            break;
          }
        }
      }
      if changed {
        clusterNodes := {};
        Store(nodes);
        signals := signals + 1;
      }
    }

    /** The polling loop over any snapshots. */
    method Watch(snapshots: seq<Option<seq<Name>>>)
      modifies this
      ensures clusterNodes == Last(old(clusterNodes), snapshots)
      ensures signals == old(signals) + Signals(old(clusterNodes), snapshots)
    {
      for i := 0 to |snapshots|
        invariant clusterNodes == Last(old(clusterNodes), snapshots[..i])
        invariant signals == old(signals) + Signals(old(clusterNodes), snapshots[..i])
      {
        assert snapshots[..i + 1][..i] == snapshots[..i];
        Poll(snapshots[i]);
      }
      assert snapshots[..|snapshots|] == snapshots;
    }
  }

  /** What is recorded after the snapshots. */
  function Last(recorded: set<Name>, snapshots: seq<Option<seq<Name>>>): set<Name> {
    if snapshots == [] then recorded else
    var before, s := Last(recorded, snapshots[..|snapshots| - 1]), snapshots[|snapshots| - 1];
    if s.Some? then After(before, s.value) else before
  }

  /** How often ClusterChanged is signalled. */
  function Signals(recorded: set<Name>, snapshots: seq<Option<seq<Name>>>): nat {
    if snapshots == [] then 0 else
    var before, s := snapshots[..|snapshots| - 1], snapshots[|snapshots| - 1];
    Signals(recorded, before) + if s.Some? && Changed(Last(recorded, before), s.value) then 1 else 0
  }

  // ---------- the cluster as it really changes ----------

  /** The node set last seen. */
  function Seen(recorded: set<Name>, snapshots: seq<Option<seq<Name>>>): set<Name> {
    if snapshots == [] then recorded
    else if snapshots[|snapshots| - 1].Some? then Members(snapshots[|snapshots| - 1].value)
    else Seen(recorded, snapshots[..|snapshots| - 1])
  }

  /** How often the node set differs from the one seen before. */
  function SetChanges(recorded: set<Name>, snapshots: seq<Option<seq<Name>>>): nat {
    if snapshots == [] then 0 else
    var before := snapshots[..|snapshots| - 1];
    SetChanges(recorded, before) + if Seen(recorded, snapshots) != Seen(recorded, before) then 1 else 0
  }

  lemma {:induction false} MembersSize(nodes: seq<Name>)
    ensures |Members(nodes)| <= |nodes|
    ensures |Members(nodes)| == |nodes| <==> Sorting.Distinct(nodes)
  {
    if nodes != [] {
      var p, l := nodes[..|nodes| - 1], nodes[|nodes| - 1];
      MembersSize(p);
      assert Members(nodes) == Members(p) + {l};
      if l in p {
        var i :| 0 <= i < |p| && p[i] == l;
        assert nodes[i] == nodes[|nodes| - 1];
        assert Members(nodes) == Members(p);
      } else {
        assert forall i :: 0 <= i < |p| ==> nodes[i] == p[i];
      }
    }
  }

  lemma {:induction false} SubsetEqual(a: set<Name>, b: set<Name>)
    requires a <= b
    ensures |a| <= |b| && (|a| == |b| ==> a == b)
  {
    assert b == a + (b - a);
    assert |b| == |a| + |b - a|;
  }

  /** For a duplicate-free list the check is exact. */
  lemma ExactWithoutDuplicates(recorded: set<Name>, nodes: seq<Name>)
    requires Sorting.Distinct(nodes)
    ensures Changed(recorded, nodes) <==> Members(nodes) != recorded
    ensures After(recorded, nodes) == Members(nodes)
  {
    MembersSize(nodes);
    if !Changed(recorded, nodes) {
      assert Members(nodes) <= recorded;
      SubsetEqual(Members(nodes), recorded);
    }
  }

  /** Over any duplicate-free snapshots the recorded set is the one last seen and every set change is signalled once. */
  lemma {:induction false} SignalsCountChanges(recorded: set<Name>, snapshots: seq<Option<seq<Name>>>)
    requires forall i :: 0 <= i < |snapshots| && snapshots[i].Some? ==> Sorting.Distinct(snapshots[i].value)
    ensures Last(recorded, snapshots) == Seen(recorded, snapshots)
    ensures Signals(recorded, snapshots) == SetChanges(recorded, snapshots)
  {
    if snapshots != [] {
      var before, s := snapshots[..|snapshots| - 1], snapshots[|snapshots| - 1];
      SignalsCountChanges(recorded, before);
      if s.Some? { ExactWithoutDuplicates(Seen(recorded, before), s.value); }
    }
  }

  /** A cluster that does not change is left alone exactly when its list has no duplicates; a manager listed as
      master and as slave makes every poll signal a change. */
  lemma SteadyIsSilentIff(nodes: seq<Name>)
    ensures !Changed(Members(nodes), nodes) <==> Sorting.Distinct(nodes)
  {
    MembersSize(nodes);
  }

  /** Exactly when a poll is wrong. It misses a change if and only if the list is as long as the record, with a
      duplicate in place of a node that was lost; it raises a false alarm if and only if an unchanged list has a
      duplicate. */
  lemma PollWrongIff(recorded: set<Name>, nodes: seq<Name>)
    ensures Members(nodes) != recorded && !Changed(recorded, nodes)
      <==> |nodes| == |recorded| && Members(nodes) < recorded
    ensures Members(nodes) == recorded && Changed(recorded, nodes)
      <==> Members(nodes) == recorded && !Sorting.Distinct(nodes)
  {
    MembersSize(nodes);
  }
}
