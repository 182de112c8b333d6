/** Master election over ZooKeeper (election/election.go). ZooKeeper is a linearizable tree with ephemeral
    nodes; any number of managers, each with any number of election calls under way, take one
    ZooKeeper request or one local step at a time, while sessions end and managers redial. */
module Election {
  import opened Options

  type Name = string
  type Session = nat

  datatype Znode = Znode(data: Name, owner: Session)

  /** The election node, the slave directory and the slave nodes (name and owning session). */
  datatype Tree = Tree(election: Option<Znode>, slaveDir: bool, slaves: map<Name, Session>)

  datatype Role = Master | Slave

  /** What happened: a call began, a call created the election node, a session ended, a call put a role on its
      manager's feedback channel. */
  datatype Event =
    | Began(call: nat, manager: nat)
    | Created(session: Session, call: nat)
    | Ended(session: Session)
    | Signalled(call: nat, manager: nat, session: Session, role: Role)

  /** The next step of an `electForMaster` call. */
  datatype Pc =
    | GetMaster | CreateMaster | SignalMaster | GetOwnSlave | DeleteOwnSlave
    | GetDir | CreateDir | GetSlave | CreateSlave | SignalSlave
    | Done(ok: bool)

  datatype Manager = Manager(name: Name, conn: Option<Session>, isMaster: bool)

  /** `session` carried the call's last request to find or create its node: the session it is registered in. */
  datatype Call = Call(manager: nat, pc: Pc, session: Session)

  datatype Cluster = Cluster(tree: Tree, live: set<Session>, next: Session, managers: seq<Manager>,
                             calls: seq<Call>, log: seq<Event>)

  /** A request is answered, or applied with its answer lost, or never applied; the last two return an error. */
  datatype Reply = Delivered | Lost | Unsent

  datatype Action =
    | Dial(m: nat)                   // zk.Connect
    | End(s: Session)                // expiry, or Disconnect closing the connection
    | MakeDir(m: nat)                // createSlaveDir called by Start
    | Begin(m: nat)                  // electForMaster is called
    | Advance(i: nat, reply: Reply)  // the next step of call i

  function Init(names: seq<Name>): Cluster {
    var managers := seq(|names|, i requires 0 <= i < |names| => Manager(names[i], None, false));
    Cluster(Tree(None, false, map[]), {}, 0, managers, [], [])
  }

  /** The ephemeral nodes of an ended session disappear with it. */
  function WithoutSession(t: Tree, s: Session): Tree {
    t.(election := if t.election.Some? && t.election.value.owner == s then None else t.election,
       slaves := map n | n in t.slaves && t.slaves[n] != s :: t.slaves[n])
  }

  predicate Valid(c: Cluster, k: Call) {
    k.manager < |c.managers| && c.managers[k.manager].conn.Some?
  }

  /** What one step of a call does: the tree, where the call goes, the isMaster flag if it is set, the events. */
  datatype Outcome = Outcome(tree: Tree, pc: Pc, session: Session, isMaster: Option<bool>, events: seq<Event>)

  /** Still to find or create a node of its own. */
  predicate Registering(pc: Pc) {
    pc.GetMaster? || pc.CreateMaster? || pc.GetDir? || pc.CreateDir? || pc.GetSlave? || pc.CreateSlave?
  }

  /** One step of call `k`, number `i`, of a manager called `name` over session `s`, as `electForMaster` and
      `registerAsSlave` take it. */
  function Step(t: Tree, name: Name, s: Session, live: bool, i: nat, k: Call, reply: Reply): Outcome {
    var applied := live && reply != Unsent;
    var answered := live && reply == Delivered;
    var goto := (pc: Pc) => Outcome(t, pc, if Registering(k.pc) then s else k.session, None, []);
    match k.pc
    case GetMaster =>
      if !answered then goto(Done(false))
      else if t.election.None? then goto(CreateMaster)
      else if t.election.value.data == name then goto(CreateMaster).(isMaster := Some(true))
      else goto(GetDir)
    case CreateMaster =>
      if !applied then goto(Done(false))
      else if t.election.Some? then goto(if answered then GetDir else Done(false))
      else
        var next := if answered then SignalMaster else Done(false);
        Outcome(t.(election := Some(Znode(name, s))), next, s, None, [Created(s, i)])
    case SignalMaster => Outcome(t, GetOwnSlave, k.session, Some(true), [Signalled(i, k.manager, k.session, Master)])
    case GetOwnSlave => goto(if answered && name in t.slaves then DeleteOwnSlave else Done(true))
    case DeleteOwnSlave => goto(Done(true)).(tree := if applied then t.(slaves := t.slaves - {name}) else t)
    case GetDir => goto(if !answered then Done(false) else if t.slaveDir then GetSlave else CreateDir)
    case CreateDir =>
      if !applied || t.slaveDir then goto(Done(false))
      else goto(if answered then GetSlave else Done(false)).(tree := t.(slaveDir := true))
    case GetSlave => goto(if !answered then Done(false) else if name in t.slaves then SignalSlave else CreateSlave)
    case CreateSlave =>
      if !applied || name in t.slaves || !t.slaveDir then goto(Done(false))
      else goto(if answered then SignalSlave else Done(false)).(tree := t.(slaves := t.slaves[name := s]))
    case SignalSlave => Outcome(t, Done(true), k.session, Some(false), [Signalled(i, k.manager, k.session, Slave)])
    case Done(_) => goto(k.pc)
  }

  function OutcomeOf(c: Cluster, i: nat, reply: Reply): Outcome
    requires i < |c.calls| && Valid(c, c.calls[i])
  {
    var k := c.calls[i];
    var m := c.managers[k.manager];
    Step(c.tree, m.name, m.conn.value, m.conn.value in c.live, i, k, reply)
  }

  function AdvanceCall(c: Cluster, i: nat, reply: Reply): Cluster
    requires i < |c.calls| && Valid(c, c.calls[i])
  {
    var o, k := OutcomeOf(c, i, reply), c.calls[i];
    c.(tree := o.tree,
       calls := c.calls[i := Call(k.manager, o.pc, o.session)],
       managers := if o.isMaster.None? then c.managers
                   else c.managers[k.manager := c.managers[k.manager].(isMaster := o.isMaster.value)],
       log := c.log + o.events)
  }

  function Apply(c: Cluster, a: Action): Cluster {
    match a
    case Dial(m) =>
      if m >= |c.managers| then c else
      c.(managers := c.managers[m := c.managers[m].(conn := Some(c.next))],
         live := c.live + {c.next}, next := c.next + 1)
    case End(s) =>
      if s !in c.live then c else c.(live := c.live - {s}, tree := WithoutSession(c.tree, s), log := c.log + [Ended(s)])
    case MakeDir(m) =>
      if m < |c.managers| && c.managers[m].conn.Some? && c.managers[m].conn.value in c.live
      then c.(tree := c.tree.(slaveDir := true)) else c
    case Begin(m) =>
      if m < |c.managers| && c.managers[m].conn.Some?
      then c.(calls := c.calls + [Call(m, GetMaster, c.managers[m].conn.value)], log := c.log + [Began(|c.calls|, m)])
      else c
    case Advance(i, reply) =>
      if i < |c.calls| && Valid(c, c.calls[i]) then AdvanceCall(c, i, reply) else c
  }

  function Run(names: seq<Name>, actions: seq<Action>): Cluster {
    if actions == [] then Init(names) else Apply(Run(names, actions[..|actions| - 1]), actions[|actions| - 1])
  }

  /** What a step of call `i` leaves alone. */
  ghost predicate Framed(c: Cluster, r: Cluster, i: nat)
    requires i < |c.calls|
  {
    && r.live == c.live && r.next == c.next && |r.managers| == |c.managers| && |r.calls| == |c.calls|
    && (forall m :: 0 <= m < |c.managers| ==>
          r.managers[m].name == c.managers[m].name && r.managers[m].conn == c.managers[m].conn)
    && (forall j :: 0 <= j < |c.calls| && j != i ==> r.calls[j] == c.calls[j])
    && r.calls[i].manager == c.calls[i].manager
  }

  lemma AdvanceFrame(c: Cluster, i: nat, reply: Reply)
    requires i < |c.calls| && Valid(c, c.calls[i])
    ensures Framed(c, AdvanceCall(c, i, reply), i)
  {
  }

  // ---------- tenures never overlap ----------

  /** Who holds office, read off the log alone: the last creator whose session has not ended since. */
  function Holder(log: seq<Event>): Option<Session> {
    if log == [] then None else
    var before := Holder(log[..|log| - 1]);
    match log[|log| - 1]
    case Created(s, _) => Some(s)
    case Ended(s) => if before == Some(s) then None else before
    case _ => before
  }

  /** The election node is created only while nobody holds office. */
  ghost predicate Orderly(log: seq<Event>) {
    log == [] || (Orderly(log[..|log| - 1]) && (log[|log| - 1].Created? ==> Holder(log[..|log| - 1]).None?))
  }

  /** Every announced mastership was created before it was announced. */
  ghost predicate Announced(log: seq<Event>) {
    log == [] || (Announced(log[..|log| - 1])
      && (log[|log| - 1].Signalled? && log[|log| - 1].role.Master? ==>
            Created(log[|log| - 1].session, log[|log| - 1].call) in log[..|log| - 1]))
  }

  ghost predicate SessionInv(c: Cluster) {
    && (forall s :: s in c.live ==> s < c.next && Ended(s) !in c.log)
    && (forall s: Session :: Ended(s) in c.log ==> s < c.next)
    && (c.tree.election.Some? ==> c.tree.election.value.owner in c.live)
    && Holder(c.log) == (if c.tree.election.Some? then Some(c.tree.election.value.owner) else None)
    && Orderly(c.log)
  }

  ghost predicate SignalInv(c: Cluster) {
    Announced(c.log) && forall i :: 0 <= i < |c.calls| && c.calls[i].pc.SignalMaster? ==>
      Created(c.calls[i].session, i) in c.log
  }

  lemma LogStep(log: seq<Event>, e: Event)
    ensures (log + [e])[..|log|] == log && (log + [e])[|log|] == e
    ensures forall x :: x in log + [e] <==> x in log || x == e
  {
  }

  /** A step of a call changes the log by a creation in a free office or by an announcement, and the announcing steps
      always announce. */
  lemma AdvanceLog(c: Cluster, i: nat, reply: Reply)
    requires i < |c.calls| && Valid(c, c.calls[i])
    ensures var r, k, s := AdvanceCall(c, i, reply), c.calls[i], c.managers[c.calls[i].manager].conn.value;
      if k.pc.SignalMaster? then
        && r.log == c.log + [Signalled(i, k.manager, k.session, Master)] && r.tree.election == c.tree.election
        && !r.calls[i].pc.SignalMaster?
      else if k.pc.SignalSlave? then
        && r.log == c.log + [Signalled(i, k.manager, k.session, Slave)] && r.tree.election == c.tree.election
        && !r.calls[i].pc.SignalMaster?
      else
        || (r.log == c.log && r.tree.election == c.tree.election && !r.calls[i].pc.SignalMaster?)
        || (k.pc.CreateMaster? && s in c.live && c.tree.election.None? && r.log == c.log + [Created(s, i)]
            && r.tree.election.Some? && r.tree.election.value.owner == s && r.calls[i].session == s)
  {
  }

  lemma AdvanceKeepsSessions(c: Cluster, i: nat, reply: Reply)
    requires i < |c.calls| && Valid(c, c.calls[i]) && SessionInv(c)
    ensures SessionInv(AdvanceCall(c, i, reply))
  {
    var r := AdvanceCall(c, i, reply);
    AdvanceFrame(c, i, reply);
    AdvanceLog(c, i, reply);
    if r.log != c.log { LogStep(c.log, r.log[|c.log|]); }
  }

  lemma AnnouncedStep(log: seq<Event>, e: Event)
    requires Announced(log) && (e.Signalled? && e.role.Master? ==> Created(e.session, e.call) in log)
    ensures Announced(log + [e])
  {
    LogStep(log, e);
  }

  lemma AdvanceKeepsSignals(c: Cluster, i: nat, reply: Reply)
    requires i < |c.calls| && Valid(c, c.calls[i]) && SignalInv(c)
    ensures SignalInv(AdvanceCall(c, i, reply))
  {
    var r := AdvanceCall(c, i, reply);
    AdvanceFrame(c, i, reply);
    AdvanceLog(c, i, reply);
    if r.log != c.log {
      var e := r.log[|c.log|];
      assert r.log == c.log + [e];
      AnnouncedStep(c.log, e);
    }
    forall j | 0 <= j < |r.calls| && r.calls[j].pc.SignalMaster? ensures Created(r.calls[j].session, j) in r.log {
      if j == i {
        assert r.log[|c.log|] == Created(r.calls[i].session, i);
      } else {
        assert r.calls[j] == c.calls[j] && Created(c.calls[j].session, j) in c.log;
      }
    }
  }

  lemma EndKeepsSessions(c: Cluster, s: Session)
    requires SessionInv(c)
    ensures SessionInv(Apply(c, End(s)))
  {
    LogStep(c.log, Ended(s));
  }

  lemma BeginKeepsTenure(c: Cluster, m: nat)
    requires SessionInv(c) && SignalInv(c)
    ensures SessionInv(Apply(c, Begin(m))) && SignalInv(Apply(c, Begin(m)))
  {
    LogStep(c.log, Began(|c.calls|, m));
  }

  lemma EndKeepsSignals(c: Cluster, s: Session)
    requires SignalInv(c)
    ensures SignalInv(Apply(c, End(s)))
  {
    LogStep(c.log, Ended(s));
  }

  lemma ApplyKeepsTenure(c: Cluster, a: Action)
    requires SessionInv(c) && SignalInv(c)
    ensures SessionInv(Apply(c, a)) && SignalInv(Apply(c, a))
  {
    if a.Advance? {
      if a.i < |c.calls| && Valid(c, c.calls[a.i]) {
        AdvanceKeepsSessions(c, a.i, a.reply);
        AdvanceKeepsSignals(c, a.i, a.reply);
      }
    } else if a.End? {
      EndKeepsSessions(c, a.s);
      EndKeepsSignals(c, a.s);
    } else if a.Begin? {
      BeginKeepsTenure(c, a.m);
    }
  }

  lemma {:induction false} RunKeepsTenure(names: seq<Name>, actions: seq<Action>)
    ensures SessionInv(Run(names, actions)) && SignalInv(Run(names, actions))
  {
    if actions != [] {
      RunKeepsTenure(names, actions[..|actions| - 1]);
      ApplyKeepsTenure(Run(names, actions[..|actions| - 1]), actions[|actions| - 1]);
    }
  }

  /** A creator still holds office, or its session has ended since. */
  lemma {:induction false} TenureEnds(log: seq<Event>, i: nat)
    requires Orderly(log) && i < |log| && log[i].Created?
    ensures Holder(log) == Some(log[i].session) || exists k :: i < k < |log| && log[k] == Ended(log[i].session)
  {
    var last := |log| - 1;
    if i < last {
      TenureEnds(log[..last], i);
      if k :| i < k < last && log[..last][k] == Ended(log[i].session) {
        assert log[k] == Ended(log[i].session);
      }
    }
  }

  lemma {:induction false} OrderlyPrefix(log: seq<Event>, j: nat)
    requires Orderly(log) && j < |log|
    ensures Orderly(log[..j]) && (log[j].Created? ==> Holder(log[..j]).None?)
  {
    if j < |log| - 1 {
      OrderlyPrefix(log[..|log| - 1], j);
      assert log[..|log| - 1][..j] == log[..j];
    }
  }

  /** In every run: between two creations of the election node the earlier creator's session has ended. */
  lemma TenuresNeverOverlap(names: seq<Name>, actions: seq<Action>, i: nat, j: nat)
    requires i < j < |Run(names, actions).log|
    requires Run(names, actions).log[i].Created? && Run(names, actions).log[j].Created?
    ensures var log := Run(names, actions).log; exists k :: i < k < j && log[k] == Ended(log[i].session)
  {
    RunKeepsTenure(names, actions);
    var log := Run(names, actions).log;
    OrderlyPrefix(log, j);
    TenureEnds(log[..j], i);
    var k :| i < k < j && log[..j][k] == Ended(log[i].session);
    assert log[k] == Ended(log[i].session);
  }

  /** In every reachable state at most one live session has created the election node, so at most one is in office. */
  lemma OneMaster(names: seq<Name>, actions: seq<Action>, i: nat, j: nat)
    requires IsLiveCreation(Run(names, actions), i) && IsLiveCreation(Run(names, actions), j)
    ensures var c := Run(names, actions);
      && c.log[i].session == c.log[j].session
      && c.tree.election.Some? && c.tree.election.value.owner == c.log[i].session
  {
    RunKeepsTenure(names, actions);
    TenureEnds(Run(names, actions).log, i);
    TenureEnds(Run(names, actions).log, j);
  }

  predicate IsLiveCreation(c: Cluster, i: nat) {
    i < |c.log| && c.log[i].Created? && c.log[i].session in c.live
  }

  lemma {:induction false} AnnouncedAfter(log: seq<Event>, i: nat)
    requires Announced(log) && i < |log| && log[i].Signalled? && log[i].role.Master?
    ensures Created(log[i].session, log[i].call) in log[..i]
  {
    if i < |log| - 1 {
      AnnouncedAfter(log[..|log| - 1], i);
      assert log[..|log| - 1][..i] == log[..i];
    }
  }

  /** At most one live session has announced itself as master, and it owns the election node. */
  lemma OneAnnouncedMaster(names: seq<Name>, actions: seq<Action>, i: nat, j: nat)
    requires IsMasterSignal(Run(names, actions), i) && IsMasterSignal(Run(names, actions), j)
    requires Run(names, actions).log[i].session in Run(names, actions).live
    requires Run(names, actions).log[j].session in Run(names, actions).live
    ensures Run(names, actions).log[i].session == Run(names, actions).log[j].session
    ensures Run(names, actions).tree.election.Some?
    ensures Run(names, actions).tree.election.value.owner == Run(names, actions).log[i].session
  {
    MasterWasCreated(names, actions, i);
    MasterWasCreated(names, actions, j);
    var log := Run(names, actions).log;
    var p :| 0 <= p < i && log[..i][p] == Created(log[i].session, log[i].call);
    var q :| 0 <= q < j && log[..j][q] == Created(log[j].session, log[j].call);
    assert log[p] == log[..i][p] && log[q] == log[..j][q];
    OneMaster(names, actions, p, q);
  }

  predicate IsMasterSignal(c: Cluster, i: nat) {
    i < |c.log| && c.log[i].Signalled? && c.log[i].role.Master?
  }

  /** A Master announcement always follows a creation by the announced session. */
  lemma MasterWasCreated(names: seq<Name>, actions: seq<Action>, i: nat)
    requires IsMasterSignal(Run(names, actions), i)
    ensures var log := Run(names, actions).log; Created(log[i].session, log[i].call) in log[..i]
  {
    RunKeepsTenure(names, actions);
    AnnouncedAfter(Run(names, actions).log, i);
  }
}
