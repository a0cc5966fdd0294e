/** The round-robin scheduler (kernel/src/scheduling/round_robin.rs): a
  * queue of processes, the running one at the front.  Scheduling out moves
  * the current process to the back; scheduling in moves the first process
  * that can run to the front; a dying process leaves the queue and its
  * parent is told.  The queue updates are those of kernel/src/process/
  * scheduler.rs (`Scheduling`), with errors in place of booleans. */
module RoundRobin {
  import opened Common
  import opened Processes
  import opened Scheduling

  /** `SchedulerError`. */
  datatype SchedulerError = FailedToAllocateProcessId | ProcessNotFound | NoRunnableProcess

  /** `SwitchTrigger`. */
  datatype SwitchTrigger = Force | Yield | Timer

  /** `schedule_out`. */
  function ScheduledOut(ps: seq<Process>, tf: TrapFrame, state: State): (r: Result<seq<Process>, SchedulerError>)
    ensures r.Err? <==> tf.tpidr !in Ids(ps)
    ensures r.Ok? ==> |r.value| == |ps| && multiset(Ids(r.value)) == multiset(Ids(ps))
    ensures r.Ok? ==> r.value[|ps| - 1].state == state && r.value[|ps| - 1].context == tf
  {
    ScheduleOutSpec(ps, state, tf);
    var (found, after) := ScheduleOutStep(ps, state, tf);
    if found then Ok(after) else Err(ProcessNotFound)
  }

  /** `schedule_in`: the id of the process put to the front, the queue and
    * the restored frame. */
  function ScheduledIn(ps: seq<Process>, arrived: set<nat>, tf: TrapFrame): (r: (Result<u64, SchedulerError>, seq<Process>, TrapFrame))
    ensures r.0.Err? <==> forall j :: 0 <= j < |ps| ==> !CanRun(ps[j], arrived).0
    ensures r.0.Err? ==> r.1 == ps && r.2 == tf
    ensures |r.1| == |ps| && multiset(Ids(r.1)) == multiset(Ids(ps))
    ensures r.0.Ok? ==> r.1[0].state == Running && Id(r.1[0]) == r.0.value && r.2 == r.1[0].context
  {
    SwitchToSpec(ps, arrived, tf);
    var (id, after, tf') := SwitchToStep(ps, arrived, tf);
    if id.None? then (Err(NoRunnableProcess), ps, tf) else (Ok(id.value), after, tf')
  }

  /** The parent's notification as written: every process with the
    * parent's id appends ITS OWN id to its dead children. */
  function NotifyParentAsWritten(ps: seq<Process>, parent: u64): (r: seq<Process>)
    ensures |r| == |ps| && Ids(r) == Ids(ps)
    ensures forall i :: 0 <= i < |ps| ==> r[i].deadChildren == ps[i].deadChildren + (if Id(ps[i]) == parent then [parent] else [])
  {
    var r := seq(|ps|, i requires 0 <= i < |ps| =>
      if Id(ps[i]) == parent then ps[i].(deadChildren := ps[i].deadChildren + [Id(ps[i])]) else ps[i]);
    assert Ids(r) == Ids(ps);
    r
  }

  /** The notification as intended: every process with the parent's id
    * records the dead child, and nothing else changes. */
  function NotifyParent(ps: seq<Process>, parent: u64, child: u64): (r: seq<Process>)
    ensures |r| == |ps| && Ids(r) == Ids(ps)
    ensures forall i :: 0 <= i < |ps| ==> r[i] == ps[i].(deadChildren := r[i].deadChildren)
    ensures forall i :: 0 <= i < |ps| ==> r[i].deadChildren == ps[i].deadChildren + (if Id(ps[i]) == parent then [child] else [])
  {
    var r := seq(|ps|, i requires 0 <= i < |ps| =>
      if Id(ps[i]) == parent then ps[i].(deadChildren := ps[i].deadChildren + [child]) else ps[i]);
    assert Ids(r) == Ids(ps);
    r
  }

  /** As written, the parent never learns the child's id: it records its
    * own. */
  lemma NotifyParentAsWrittenLosesChild()
    ensures var parent := Process(TrapFrame(1, 0, 0), Ready, None, []);
      NotifyParentAsWritten([parent], 1)[0].deadChildren == [1]
      && NotifyParent([parent], 1, 2)[0].deadChildren == [2]
  {
  }

  /** The notification agrees with the intended one only when a process
    * would be its own parent. */
  lemma NotifyParentAgrees(ps: seq<Process>, parent: u64, child: u64)
    ensures NotifyParentAsWritten(ps, parent) == NotifyParent(ps, parent, child) <==> child == parent || parent !in Ids(ps)
  {
    if parent in Ids(ps) && child != parent {
      var i :| 0 <= i < |ps| && Ids(ps)[i] == parent;
      assert NotifyParentAsWritten(ps, parent)[i].deadChildren[|ps[i].deadChildren|] == parent;
      assert NotifyParent(ps, parent, child)[i].deadChildren[|ps[i].deadChildren|] == child;
    }
  }

  /** A dying process, just scheduled out to the back, is taken off the
    * queue and its parent told, as written: the parent records its own id. */
  function Bury(ps: seq<Process>): (r: seq<Process>)
    requires ps != []
  {
    var dead := ps[|ps| - 1];
    var rest := ps[..|ps| - 1];
    match dead.parent
    case None => rest
    case Some(parent) => NotifyParentAsWritten(rest, parent)
  }

  /** The burial as intended: the parent records the dead child's id. */
  function BuryFixed(ps: seq<Process>): (r: seq<Process>)
    requires ps != []
  {
    var dead := ps[|ps| - 1];
    var rest := ps[..|ps| - 1];
    match dead.parent
    case None => rest
    case Some(parent) => NotifyParent(rest, parent, Id(dead))
  }

  /** `switch`: only a forced or timer switch does anything; it schedules
    * the current process out with the new state (burying it when dead) and
    * schedules the first runnable process in. */
  function Switched(ps: seq<Process>, tf: TrapFrame, trigger: SwitchTrigger, state: State, arrived: set<nat>): (r: (Result<(), SchedulerError>, seq<Process>, TrapFrame))
  {
    if trigger == Yield then (Ok(()), ps, tf)
    else
      match ScheduledOut(ps, tf, state)
      case Err(e) => (Err(e), ps, tf)
      case Ok(out) =>
        var queued := if state == Dead then Bury(out) else out;
        var (r, after, tf') := ScheduledIn(queued, arrived, tf);
        (if r.Ok? then Ok(()) else Err(r.error), after, tf')
  }

  /** A yield leaves everything as it is; any other switch keeps the same
    * processes unless the current one dies, which removes exactly it. */
  lemma SwitchSpec(ps: seq<Process>, tf: TrapFrame, trigger: SwitchTrigger, state: State, arrived: set<nat>)
    ensures trigger == Yield ==> Switched(ps, tf, trigger, state, arrived) == (Ok(()), ps, tf)
    ensures trigger != Yield && tf.tpidr !in Ids(ps) ==> Switched(ps, tf, trigger, state, arrived) == (Err(ProcessNotFound), ps, tf)
    ensures trigger != Yield && tf.tpidr in Ids(ps) && state != Dead ==>
      multiset(Ids(Switched(ps, tf, trigger, state, arrived).1)) == multiset(Ids(ps))
    ensures trigger != Yield && tf.tpidr in Ids(ps) && state == Dead ==>
      multiset(Ids(Switched(ps, tf, trigger, state, arrived).1)) + multiset{tf.tpidr} == multiset(Ids(ps))
  {
    if trigger != Yield && tf.tpidr in Ids(ps) && state == Dead {
      var out := ScheduledOut(ps, tf, state).value;
      var n := |out| - 1;
      assert out == out[..n] + [out[n]];
      assert Ids(out) == Ids(out[..n]) + [Id(out[n])];
      assert Ids(Bury(out)) == Ids(out[..n]);
    }
  }

  /** As written, a dying process's parent, when queued, records its own id
    * among its dead children. */
  lemma SwitchDeadTellsParent(ps: seq<Process>, tf: TrapFrame, parent: u64)
    requires tf.tpidr in Ids(ps)
    requires ps[FindId(ps, tf.tpidr).value].parent == Some(parent)
    ensures var out := ScheduledOut(ps, tf, Dead).value;
      forall i :: 0 <= i < |out| - 1 && Id(out[i]) == parent ==>
        Bury(out)[i].deadChildren == out[i].deadChildren + [parent]
  {
  }

  /** With the corrected burial, a dying process's parent, when queued,
    * records the dead child. */
  lemma SwitchDeadTellsParentFixed(ps: seq<Process>, tf: TrapFrame, parent: u64)
    requires tf.tpidr in Ids(ps)
    requires ps[FindId(ps, tf.tpidr).value].parent == Some(parent)
    ensures var out := ScheduledOut(ps, tf, Dead).value;
      forall i :: 0 <= i < |out| - 1 && Id(out[i]) == parent ==>
        BuryFixed(out)[i].deadChildren == out[i].deadChildren + [tf.tpidr]
  {
  }

  /** `remove`: schedule the current process out as ready, take it off the
    * back, and schedule another in.  When nothing else can run the error is
    * returned, but the process has already left the queue. */
  function Removed(ps: seq<Process>, tf: TrapFrame, arrived: set<nat>): (r: (Result<Process, SchedulerError>, seq<Process>, TrapFrame))
  {
    match ScheduledOut(ps, tf, Ready)
    case Err(e) => (Err(e), ps, tf)
    case Ok(out) =>
      var p := out[|out| - 1];
      var (r, after, tf') := ScheduledIn(out[..|out| - 1], arrived, tf);
      (if r.Ok? then Ok(p) else Err(r.error), after, tf')
  }

  lemma RemovedSpec(ps: seq<Process>, tf: TrapFrame, arrived: set<nat>)
    requires tf.tpidr in Ids(ps)
    ensures var (r, after, tf') := Removed(ps, tf, arrived);
      multiset(Ids(after)) + multiset{tf.tpidr} == multiset(Ids(ps))
      && (r.Ok? ==> Id(r.value) == tf.tpidr && r.value.state == Ready)
  {
    var out := ScheduledOut(ps, tf, Ready).value;
    var n := |out| - 1;
    assert out == out[..n] + [out[n]];
    assert Ids(out) == Ids(out[..n]) + [Id(out[n])];
  }

  /** `on_process`: the process with the frame's id gets the frame saved,
    * `f` runs on it, and the frame is reloaded from it. */
  function OnProcessStep<R>(ps: seq<Process>, tf: TrapFrame, f: Process -> (Process, R)): (r: (Result<R, SchedulerError>, seq<Process>, TrapFrame))
    ensures r.0.Err? <==> tf.tpidr !in Ids(ps)
    ensures r.0.Err? ==> r.1 == ps && r.2 == tf
    ensures r.0.Ok? ==> |r.1| == |ps|
  {
    match FindId(ps, tf.tpidr)
    case None => (Err(ProcessNotFound), ps, tf)
    case Some(i) =>
      var (p, result) := f(ps[i].(context := tf));
      (Ok(result), ps[i := p], p.context)
  }

  /** `RoundRobinScheduler`. */
  class RoundRobinScheduler {
    var processes: seq<Process>

    constructor()
      ensures processes == []
    {
      processes := [];
    }

    method Add(p: Process) returns (r: Result<(), SchedulerError>)
      modifies this
      ensures r == Ok(()) && processes == old(processes) + [p]
    {
      processes := processes + [p];
      r := Ok(());
    }

    method ScheduleOut(tf: TrapFrame, state: State) returns (r: Result<(), SchedulerError>)
      modifies this
      ensures ScheduledOut(old(processes), tf, state) == if r.Ok? then Ok(processes) else Err(ProcessNotFound)
      ensures r.Err? ==> processes == old(processes) && r.error == ProcessNotFound
    {
      var i := 0;
      while i < |processes| && processes[i].context.tpidr != tf.tpidr
        invariant 0 <= i <= |processes|
        invariant forall j :: 0 <= j < i ==> Id(processes[j]) != tf.tpidr
      {
        i := i + 1;
      }
      FindIdAt(processes, tf.tpidr, i);
      if i == |processes| {
        return Err(ProcessNotFound);
      }
      var p := processes[i].(state := state, context := tf);
      processes := processes[..i] + processes[i + 1..] + [p];
      r := Ok(());
    }

    method ScheduleIn(arrived: set<nat>, tf: TrapFrame) returns (r: Result<u64, SchedulerError>, tf': TrapFrame)
      modifies this
      ensures (r, processes, tf') == ScheduledIn(old(processes), arrived, tf)
    {
      var i := 0;
      while i < |processes| && !CanRun(processes[i], arrived).0
        invariant 0 <= i <= |processes|
        invariant forall k :: 0 <= k < i ==> !CanRun(processes[k], arrived).0
      {
        i := i + 1;
      }
      FirstRunnableAt(processes, arrived, i);
      if i == |processes| {
        return Err(NoRunnableProcess), tf;
      }
      var p := processes[i].(state := Running);
      tf' := p.context;
      processes := [p] + processes[..i] + processes[i + 1..];
      r := Ok(p.context.tpidr);
    }

    /** The `for_each` over the processes with the parent's id, as written:
      * each pushes its own id. */
    method TellParent(parent: u64)
      modifies this
      ensures processes == NotifyParentAsWritten(old(processes), parent)
    {
      ghost var before := processes;
      var i := 0;
      while i < |processes|
        invariant 0 <= i <= |processes| == |before|
        invariant processes[..i] == NotifyParentAsWritten(before, parent)[..i]
        invariant processes[i..] == before[i..]
      {
        var p := processes[i];
        assert p == before[i];
        if p.context.tpidr == parent {
          processes := processes[i := p.(deadChildren := p.deadChildren + [p.context.tpidr])];
        }
        i := i + 1;
        assert processes[..i] == processes[..i - 1] + [processes[i - 1]];
      }
    }

    method Switch(tf: TrapFrame, trigger: SwitchTrigger, state: State, arrived: set<nat>) returns (r: Result<(), SchedulerError>, tf': TrapFrame)
      modifies this
      ensures (r, processes, tf') == Switched(old(processes), tf, trigger, state, arrived)
    {
      if trigger == Yield {
        return Ok(()), tf;
      }
      var out := ScheduleOut(tf, state);
      if out.Err? {
        return Err(out.error), tf;
      }
      if state == Dead {
        BuryLast();
      }
      var id;
      id, tf' := ScheduleIn(arrived, tf);
      r := if id.Ok? then Ok(()) else Err(id.error);
    }

    /** The dead process, just moved to the back, leaves the queue and its
      * parent is told. */
    method BuryLast()
      requires processes != []
      modifies this
      ensures processes == Bury(old(processes))
    {
      var dead := processes[|processes| - 1];
      processes := processes[..|processes| - 1];
      if dead.parent.Some? {
        TellParent(dead.parent.value);
      }
    }

    /** Takes the process at the back off the queue. */
    method PopLast() returns (p: Process)
      requires processes != []
      modifies this
      ensures p == old(processes)[|old(processes)| - 1] && processes == old(processes)[..|old(processes)| - 1]
    {
      p := processes[|processes| - 1];
      processes := processes[..|processes| - 1];
    }

    method Remove(tf: TrapFrame, arrived: set<nat>) returns (r: Result<Process, SchedulerError>, tf': TrapFrame)
      modifies this
      ensures (r, processes, tf') == Removed(old(processes), tf, arrived)
    {
      var out := ScheduleOut(tf, Ready);
      if out.Err? {
        return Err(out.error), tf;
      }
      var p := PopLast();
      var id;
      id, tf' := ScheduleIn(arrived, tf);
      r := if id.Ok? then Ok(p) else Err(id.error);
    }

    method OnProcess<R>(tf: TrapFrame, f: Process -> (Process, R)) returns (r: Result<R, SchedulerError>, tf': TrapFrame)
      modifies this
      ensures (r, processes, tf') == OnProcessStep(old(processes), tf, f)
    {
      var i := 0;
      while i < |processes| && processes[i].context.tpidr != tf.tpidr
        invariant 0 <= i <= |processes|
        invariant forall j :: 0 <= j < i ==> Id(processes[j]) != tf.tpidr
      {
        i := i + 1;
      }
      FindIdAt(processes, tf.tpidr, i);
      if i == |processes| {
        return Err(ProcessNotFound), tf;
      }
      var (p, result) := f(processes[i].(context := tf));
      processes := processes[i := p];
      r, tf' := Ok(result), p.context;
    }
  }
}
