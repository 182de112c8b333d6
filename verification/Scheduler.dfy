/** Repeating tasks (scheduler/task.go, scheduler/scheduler.go): every start spawns a loop that polls the
    shared `running` flag. */
module Scheduler {

  // ---------- the loops of one task, interleaved with starts and stops ----------

  /** A loop sleeps, then checks the flag; between a passed check and `Execute` anything can happen. */
  datatype Loop = Sleeping | Checked | Executing | Ended

  datatype State = State(running: bool, loops: seq<Loop>)

  datatype Action = Start | Stop | Wake(l: nat)

  predicate Alive(l: Loop) {
    !l.Ended?
  }

  function NumAlive(loops: seq<Loop>): nat {
    if loops == [] then 0 else NumAlive(loops[..|loops| - 1]) + if Alive(loops[|loops| - 1]) then 1 else 0
  }

  /** The next step of a loop. */
  function Next(running: bool, l: Loop): Loop {
    match l
    case Sleeping => if running then Checked else Ended
    case Checked => Executing
    case Executing => Sleeping
    case Ended => Ended
  }

  function Apply(s: State, a: Action): State {
    match a
    case Start => if s.running then s else State(true, s.loops + [Sleeping])
    case Stop => s.(running := false)
    case Wake(l) => if l < |s.loops| then s.(loops := s.loops[l := Next(s.running, s.loops[l])]) else s
  }

  function RunFrom(s: State, actions: seq<Action>): State {
    if actions == [] then s else Apply(RunFrom(s, actions[..|actions| - 1]), actions[|actions| - 1])
  }

  const New := State(false, [])

  /** The starts of a run that spawned a loop while an older one was still alive. */
  function Overlaps(actions: seq<Action>): nat {
    if actions == [] then 0 else
    var before := actions[..|actions| - 1];
    var s := RunFrom(New, before);
    Overlaps(before) + if actions[|actions| - 1].Start? && !s.running && NumAlive(s.loops) > 0 then 1 else 0
  }

  /** How often loop `l` begins an `Execute` during the actions. */
  function Executions(s: State, actions: seq<Action>, l: nat): nat {
    if actions == [] then 0 else
    var before, a := actions[..|actions| - 1], actions[|actions| - 1];
    var b := RunFrom(s, before);
    Executions(s, before, l) + if a == Wake(l) && l < |b.loops| && b.loops[l].Checked? then 1 else 0
  }

  lemma {:induction false} NumAliveUpdate(loops: seq<Loop>, l: nat, x: Loop)
    requires l < |loops|
    ensures NumAlive(loops[l := x]) == NumAlive(loops) - (if Alive(loops[l]) then 1 else 0) + if Alive(x) then 1 else 0
  {
    var init := loops[..|loops| - 1];
    if l == |loops| - 1 {
      assert loops[l := x][..l] == init;
    } else {
      NumAliveUpdate(init, l, x);
      assert loops[l := x][..|loops| - 1] == init[l := x];
    }
  }

  /** One action changes the number of live loops: a spawning start adds one, nothing else adds any. */
  lemma AliveStep(s: State, a: Action)
    ensures a.Start? && !s.running ==> NumAlive(Apply(s, a).loops) == NumAlive(s.loops) + 1
    ensures !(a.Start? && !s.running) ==> NumAlive(Apply(s, a).loops) <= NumAlive(s.loops)
  {
    if a.Start? && !s.running {
      assert (s.loops + [Sleeping])[..|s.loops|] == s.loops;
    } else if a.Wake? && a.l < |s.loops| {
      NumAliveUpdate(s.loops, a.l, Next(s.running, s.loops[a.l]));
    }
  }

  /** Live loops never exceed one plus the number of starts made while an older loop was still alive. */
  lemma {:induction false} LiveLoopsBounded(actions: seq<Action>)
    ensures NumAlive(RunFrom(New, actions).loops) <= 1 + Overlaps(actions)
  {
    if actions != [] {
      LiveLoopsBounded(actions[..|actions| - 1]);
      AliveStep(RunFrom(New, actions[..|actions| - 1]), actions[|actions| - 1]);
    }
  }

  /** No moment of the run sees two live loops. */
  ghost predicate NeverTwo(actions: seq<Action>) {
    NumAlive(RunFrom(New, actions).loops) <= 1 && (actions == [] || NeverTwo(actions[..|actions| - 1]))
  }

  /** A task runs one loop at a time exactly when no start comes while an older loop is still alive. */
  lemma {:induction false} OneLoopIff(actions: seq<Action>)
    ensures NeverTwo(actions) <==> Overlaps(actions) == 0
  {
    if actions != [] {
      var before := actions[..|actions| - 1];
      OneLoopIff(before);
      LiveLoopsBounded(actions);
      AliveStep(RunFrom(New, before), actions[|actions| - 1]);
    }
  }

  ghost predicate NoStart(actions: seq<Action>) {
    forall i :: 0 <= i < |actions| ==> !actions[i].Start?
  }

  lemma {:induction false} StoppedExecutions(s: State, actions: seq<Action>, l: nat)
    requires !s.running && NoStart(actions) && l < |s.loops|
    ensures var r := RunFrom(s, actions);
      && !r.running && |r.loops| == |s.loops|
      && Executions(s, actions, l) + (if r.loops[l].Checked? then 1 else 0) == (if s.loops[l].Checked? then 1 else 0)
  {
    if actions != [] { StoppedExecutions(s, actions[..|actions| - 1], l); }
  }

  /** After a stop, and until the next start, a loop begins at most one further `Execute`: exactly the one whose
      check had passed before the stop. */
  lemma AfterStopAtMostOnce(s: State, actions: seq<Action>, l: nat)
    requires NoStart(actions) && l < |s.loops|
    ensures Executions(Apply(s, Stop), actions, l) <= (if s.loops[l].Checked? then 1 else 0)
  {
    StoppedExecutions(Apply(s, Stop), actions, l);
  }

  /** Stopping and starting again before the old loop wakes leaves both loops running. */
  lemma QuickRestartDoubles(s: State)
    requires s.running
    ensures NumAlive(Apply(Apply(s, Stop), Start).loops) == NumAlive(s.loops) + 1
  {
    AliveStep(Apply(s, Stop), Start);
  }

  // ---------- what a running loop does ----------

  ghost predicate NoStop(actions: seq<Action>) {
    forall i :: 0 <= i < |actions| ==> !actions[i].Stop?
  }

  /** How often loop `l` is stepped. */
  function Wakes(actions: seq<Action>, l: nat): nat {
    if actions == [] then 0 else Wakes(actions[..|actions| - 1], l) + if actions[|actions| - 1] == Wake(l) then 1 else 0
  }

  /** Where a live loop stands in its round: sleep, check the flag, execute. */
  function Phase(l: Loop): nat {
    match l
    case Sleeping => 0
    case Checked => 1
    case _ => 2
  }

  /** Rounds a loop has gone through, from its executions: one that is under way at the end, but not at the start,
      belongs to a round that is not over. */
  function Rounds(start: Loop, end: Loop, executions: nat): int {
    executions + (if start.Executing? then 1 else 0) - if end.Executing? then 1 else 0
  }

  /** As long as the task is not stopped, a live loop stays alive and goes round: of every three steps one is the sleep,
      one the check and one an `Execute`. */
  lemma {:induction false} RunningLoopGoesRound(s: State, actions: seq<Action>, l: nat)
    requires s.running && NoStop(actions) && l < |s.loops| && Alive(s.loops[l])
    ensures var r := RunFrom(s, actions);
      && r.running && l < |r.loops| && Alive(r.loops[l])
      && 3 * Rounds(s.loops[l], r.loops[l], Executions(s, actions, l)) + Phase(r.loops[l])
         == Wakes(actions, l) + Phase(s.loops[l])
  {
    if actions != [] { RunningLoopGoesRound(s, actions[..|actions| - 1], l); }
  }

  /** A loop of a stopped task ends after at most three more steps. */
  lemma {:induction false} StoppedLoopEnds(s: State, actions: seq<Action>, l: nat)
    requires !s.running && NoStart(actions) && l < |s.loops|
    ensures var r := RunFrom(s, actions);
      && !r.running && |r.loops| == |s.loops|
      && (Wakes(actions, l) >= StepsToEnd(s.loops[l]) ==> r.loops[l].Ended?)
      && (Wakes(actions, l) < StepsToEnd(s.loops[l]) ==>
            StepsToEnd(r.loops[l]) == StepsToEnd(s.loops[l]) - Wakes(actions, l))
  {
    if actions != [] { StoppedLoopEnds(s, actions[..|actions| - 1], l); }
  }

  function StepsToEnd(l: Loop): nat {
    match l
    case Checked => 3
    case Executing => 2
    case Sleeping => 1
    case Ended => 0
  }

  lemma RunStep(s: State, actions: seq<Action>, a: Action)
    ensures RunFrom(s, actions + [a]) == Apply(RunFrom(s, actions), a)
  {
    assert (actions + [a])[..|actions|] == actions;
  }

  /** A start of a task that is not running gives it one more live loop, and the task runs from then on; a start of a
      running task does nothing. */
  lemma StartRuns(s: State)
    ensures var r := RunFrom(s, [Start]);
      r.running && (if s.running then r == s else |r.loops| == |s.loops| + 1 && Alive(r.loops[|s.loops|]))
    ensures forall l :: 0 <= l < |s.loops| ==> RunFrom(s, [Start]).loops[l] == s.loops[l]
  {
    var none: seq<Action> := [];
    RunStep(s, none, Start);
    assert none + [Start] == [Start];
  }

  // ---------- the objects ----------

  class Task {
    const id: string
    var running: bool
    ghost var loops: seq<Loop>  // the goroutines spawned so far

    ghost function Model(): State
      reads this
    {
      State(running, loops)
    }

    constructor (id: string)
      ensures this.id == id && Model() == New
    {
      this.id, running, loops := id, false, [];
    }

    method Start()
      modifies this
      ensures Model() == Apply(old(Model()), Action.Start)
    {
      if running {
        return;
      }
      loops := loops + [Sleeping];
      running := true;
    }

    method Stop()
      modifies this
      ensures Model() == Apply(old(Model()), Action.Stop)
    {
      running := false;
    }
  }

  class Manager {
    var taskMap: map<string, Task>

    ghost predicate Valid()
      reads this
    {
      forall id :: id in taskMap ==> taskMap[id].id == id
    }

    constructor ()
      ensures Valid() && taskMap == map[]
    {
      taskMap := map[];
    }

    /** A task with a fresh id is stored even when starting it is refused because it runs already. */
    method AddTask(task: Task, autoStart: bool) returns (ok: bool)
      requires Valid()
      modifies this, task
      ensures Valid()
      ensures ok <==> task.id !in old(taskMap) && !(autoStart && old(task.running))
      ensures taskMap == if task.id in old(taskMap) then old(taskMap) else old(taskMap)[task.id := task]
      ensures task.Model() == if ok && autoStart then Apply(old(task.Model()), Start) else old(task.Model())
    {
      if task.id in taskMap {
        return false;
      }
      taskMap := taskMap[task.id := task];
      if autoStart {
        if task.running {
          return false;
        }
        task.Start();
      }
      ok := true;
    }

    method StartTask(id: string) returns (ok: bool)
      requires Valid()
      modifies if id in taskMap then {taskMap[id]} else {}
      ensures ok <==> id in taskMap && !old(taskMap[id].running)
      ensures id in taskMap ==> taskMap[id].Model() == Apply(old(taskMap[id].Model()), Start)
    {
      if id !in taskMap || taskMap[id].running {
        return false;
      }
      taskMap[id].Start();
      ok := true;
    }

    method StopTask(id: string) returns (ok: bool)
      requires Valid()
      modifies if id in taskMap then {taskMap[id]} else {}
      ensures ok <==> id in taskMap && old(taskMap[id].running)
      ensures id in taskMap ==> taskMap[id].Model() == Apply(old(taskMap[id].Model()), Stop)
    {
      if id !in taskMap || !taskMap[id].running {
        return false;
      }
      taskMap[id].Stop();
      ok := true;
    }

    method RemoveTask(id: string) returns (removed: bool)
      requires Valid()
      modifies this, if id in taskMap then {taskMap[id]} else {}
      ensures Valid() && taskMap == old(taskMap) - {id} && (removed <==> id in old(taskMap))
      ensures removed ==> old(taskMap)[id].Model() == Apply(old(taskMap[id].Model()), Stop)
    {
      if id in taskMap {
        taskMap[id].Stop();
        taskMap := taskMap - {id};
        return true;
      }
      assert taskMap == taskMap - {id};
      removed := false;
    }

    method RemoveAllTasks()
      requires Valid()
      modifies this, set id | id in taskMap :: taskMap[id]
      ensures taskMap == map[]
      ensures forall id :: id in old(taskMap) ==> old(taskMap)[id].Model() == Apply(old(taskMap[id].Model()), Stop)
    {
      ghost var all := taskMap;
      while taskMap != map[]
        invariant forall id :: id in taskMap ==> id in all && taskMap[id] == all[id]
        invariant forall id :: id in all ==> all[id].loops == old(all[id].loops)
        invariant forall id :: id in all && id !in taskMap ==> !all[id].running
        decreases taskMap.Keys
      {
        var k :| k in taskMap;
        taskMap[k].Stop();
        assert k !in (taskMap - {k}).Keys;
        taskMap := taskMap - {k};
      }
    }
  }
}
