/** The process scheduler's queue (kernel/src/process/scheduler.rs): process
  * ids handed out in increasing order, processes appended at the back,
  * scheduled out to the back, switched to at the front, and killed from the
  * back with a note to the parent. */
module Scheduling {
  import opened Common
  import opened Processes

  const U64Max: nat := 0xFFFF_FFFF_FFFF_FFFF

  /** `new_pid`: 0 first, then one more than the last id; at `u64::MAX` it
    * fails and leaves the last id as it was.  The pair is the id handed out
    * and the new last id. */
  function NextPid(last: Option<u64>): (r: (Option<u64>, Option<u64>))
    ensures last.None? ==> r == (Some(0), Some(0))
    ensures last.Some? && last.value < U64Max ==> r.0 == r.1 == Some(last.value + 1)
    ensures r.0.None? <==> last == Some(U64Max)
    ensures r.0.None? ==> r.1 == last
  {
    match last
    case None => (Some(0), Some(0))
    case Some(pid) =>
      if pid == U64Max then (None, last)
      else (Some(pid + 1), Some(pid + 1))
  }

  /** The answers of `n` calls to `new_pid` in a row. */
  function PidRun(last: Option<u64>, n: nat): (r: seq<Option<u64>>)
    ensures |r| == n
    decreases n
  {
    if n == 0 then []
    else [NextPid(last).0] + PidRun(NextPid(last).1, n - 1)
  }

  /** After id `k`, the next `n` calls hand out `k + 1 .. k + n`. */
  lemma {:induction false} PidRunAfter(k: u64, n: nat)
    requires k + n <= U64Max
    ensures forall i :: 0 <= i < n ==> PidRun(Some(k), n)[i] == Some(k + 1 + i)
    decreases n
  {
    if n > 0 {
      PidRunAfter(k + 1, n - 1);
    }
  }

  /** A fresh scheduler hands out `0, 1, 2, ...`: the ids strictly
    * increase, so no two processes share one. */
  lemma PidsIncrease(n: nat)
    requires n <= U64Max + 1
    ensures forall i :: 0 <= i < n ==> PidRun(None, n)[i] == Some(i)
    ensures forall i, j :: 0 <= i < j < n ==> PidRun(None, n)[i].value < PidRun(None, n)[j].value
  {
    if n > 0 {
      PidRunAfter(0, n - 1);
      assert PidRun(None, n) == [Some(0)] + PidRun(Some(0), n - 1);
    }
  }

  /** Once the last id is `u64::MAX`, every call fails. */
  lemma {:induction false} PidsExhausted(n: nat)
    ensures forall i :: 0 <= i < n ==> PidRun(Some(U64Max), n)[i].None?
    decreases n
  {
    if n > 0 {
      PidsExhausted(n - 1);
    }
  }

  /** `schedule_out`: the process whose id is in the frame goes to the back
    * with the new state and the frame saved; false when there is none. */
  function ScheduleOutStep(ps: seq<Process>, state: State, tf: TrapFrame): (r: (bool, seq<Process>))
  {
    match FindId(ps, tf.tpidr)
    case None => (false, ps)
    case Some(i) => (true, MoveToBack(ps, i, state, tf))
  }

  lemma ScheduleOutSpec(ps: seq<Process>, state: State, tf: TrapFrame)
    ensures !ScheduleOutStep(ps, state, tf).0 <==> tf.tpidr !in Ids(ps)
    ensures !ScheduleOutStep(ps, state, tf).0 ==> ScheduleOutStep(ps, state, tf).1 == ps
    ensures var after := ScheduleOutStep(ps, state, tf).1;
      |after| == |ps| && multiset(Ids(after)) == multiset(Ids(ps))
    ensures ScheduleOutStep(ps, state, tf).0 ==>
      var after := ScheduleOutStep(ps, state, tf).1;
      after[|ps| - 1] == Process(tf, state, after[|ps| - 1].parent, after[|ps| - 1].deadChildren)
  {
    match FindId(ps, tf.tpidr)
    case None =>
    case Some(i) => MoveToBackSpec(ps, i, state, tf);
  }

  /** `switch_to`: the first process that can run goes to the front as
    * running and its frame is restored; `None` when no process can run. */
  function SwitchToStep(ps: seq<Process>, arrived: set<nat>, tf: TrapFrame): (r: (Option<u64>, seq<Process>, TrapFrame))
  {
    match FirstRunnable(ps, arrived)
    case None => (None, ps, tf)
    case Some(j) => (Some(Id(ps[j])), Promote(ps, j), ps[j].context)
  }

  lemma SwitchToSpec(ps: seq<Process>, arrived: set<nat>, tf: TrapFrame)
    ensures SwitchToStep(ps, arrived, tf).0.None? <==> forall j :: 0 <= j < |ps| ==> !CanRun(ps[j], arrived).0
    ensures SwitchToStep(ps, arrived, tf).0.None? ==> SwitchToStep(ps, arrived, tf).1 == ps
    ensures var (r, after, tf') := SwitchToStep(ps, arrived, tf);
      |after| == |ps| && multiset(Ids(after)) == multiset(Ids(ps))
    ensures var (r, after, tf') := SwitchToStep(ps, arrived, tf);
      r.Some? ==> after[0].state == Running && Id(after[0]) == r.value && tf' == after[0].context
  {
    match FirstRunnable(ps, arrived)
    case None =>
    case Some(j) => PromoteSpec(ps, j);
  }

  /** `find_process` then `dead_children.push`: the first process with the
    * parent's id records the dead child. */
  function RecordDeadChild(ps: seq<Process>, parent: u64, child: u64): (r: seq<Process>)
    ensures |r| == |ps| && Ids(r) == Ids(ps)
  {
    match FindId(ps, parent)
    case None => ps
    case Some(k) =>
      var r := ps[k := ps[k].(deadChildren := ps[k].deadChildren + [child])];
      assert Ids(r) == Ids(ps);
      r
  }

  /** `kill`: schedule the process in the frame out as dead, then take the
    * back process off the queue and tell its parent. */
  function KillStep(ps: seq<Process>, tf: TrapFrame): (r: (Option<u64>, seq<Process>))
  {
    var queued := ScheduleOutStep(ps, Dead, tf).1;
    if queued == [] then (None, queued)
    else
      var dead := queued[|queued| - 1];
      var rest := queued[..|queued| - 1];
      match dead.parent
      case None => (Some(Id(dead)), rest)
      case Some(parent) => (Some(Id(dead)), RecordDeadChild(rest, parent, Id(dead)))
  }

  /** Killing the current process removes exactly that process and keeps
    * the others in order (its parent, when queued, records it). */
  lemma KillCurrent(ps: seq<Process>, tf: TrapFrame)
    requires tf.tpidr in Ids(ps)
    ensures var i := FindId(ps, tf.tpidr).value;
      KillStep(ps, tf).0 == Some(tf.tpidr) && Ids(KillStep(ps, tf).1) == Ids(ps[..i] + ps[i + 1..])
    ensures multiset(Ids(KillStep(ps, tf).1)) + multiset{tf.tpidr} == multiset(Ids(ps))
  {
    var i := FindId(ps, tf.tpidr).value;
    MoveToBackSpec(ps, i, Dead, tf);
    RemoveOneIds(ps, i);
    var queued := MoveToBack(ps, i, Dead, tf);
    assert KillStep(ps, tf).0 == Some(Id(queued[|ps| - 1]));
    assert Ids(KillStep(ps, tf).1) == Ids(queued[..|ps| - 1]);
  }

  /** When the frame's id is not queued, `kill` takes the back process
    * instead; on an empty queue it returns `None`. */
  lemma KillWithoutCurrent(ps: seq<Process>, tf: TrapFrame)
    requires tf.tpidr !in Ids(ps)
    ensures ps == [] ==> KillStep(ps, tf).0.None?
    ensures ps != [] ==> KillStep(ps, tf).0 == Some(Id(ps[|ps| - 1])) && Ids(KillStep(ps, tf).1) == Ids(ps[..|ps| - 1])
  {
  }

  /** The parent learns of the child: its list of dead children grows by
    * the child's id and nothing else changes. */
  lemma RecordDeadChildSpec(ps: seq<Process>, parent: u64, child: u64)
    requires parent in Ids(ps)
    ensures var k := FindId(ps, parent).value;
      RecordDeadChild(ps, parent, child)[k].deadChildren == ps[k].deadChildren + [child]
      && forall j :: 0 <= j < |ps| && j != k ==> RecordDeadChild(ps, parent, child)[j] == ps[j]
  {
  }

  /** `Scheduler`: the queue and the last id handed out. */
  class Scheduler {
    var processes: seq<Process>
    var lastId: Option<u64>

    constructor()
      ensures processes == [] && lastId == None
    {
      processes := [];
      lastId := None;
    }

    method NewPid() returns (pid: Option<u64>)
      modifies this
      ensures (pid, lastId) == NextPid(old(lastId))
      ensures processes == old(processes)
    {
      if lastId.None? {
        lastId := Some(0);
      } else {
        if lastId.value == U64Max {
          return None;
        }
        lastId := Some(lastId.value + 1);
      }
      pid := lastId;
    }

    /** `add`: give the process a new id and queue it at the back. */
    method Add(p: Process) returns (r: Option<u64>)
      modifies this
      ensures (r, lastId) == NextPid(old(lastId))
      ensures r.None? ==> processes == old(processes)
      ensures r.Some? ==> processes == old(processes) + [p.(context := p.context.(tpidr := r.value))]
    {
      r := NewPid();
      if r.None? {
        return;
      }
      var q := p.(context := p.context.(tpidr := r.value));
      processes := processes + [q];
      lastId := r;
    }

    method ScheduleOut(state: State, tf: TrapFrame) returns (b: bool)
      modifies this
      ensures (b, processes) == ScheduleOutStep(old(processes), state, tf)
      ensures lastId == old(lastId)
    {
      var i := 0;
      while i < |processes|
        invariant 0 <= i <= |processes|
        invariant forall j :: 0 <= j < i ==> Id(processes[j]) != tf.tpidr
      {
        if processes[i].context.tpidr == tf.tpidr {
          FindIdAt(processes, tf.tpidr, i);
          var p := processes[i].(state := state, context := tf);
          processes := processes[..i] + processes[i + 1..] + [p];
          return true;
        }
        i := i + 1;
      }
      FindIdAt(processes, tf.tpidr, i);
      b := false;
    }

    method SwitchTo(arrived: set<nat>, tf: TrapFrame) returns (r: Option<u64>, tf': TrapFrame)
      modifies this
      ensures (r, processes, tf') == SwitchToStep(old(processes), arrived, tf)
      ensures lastId == old(lastId)
    {
      var j := |processes|;
      var i := 0;
      while i < |processes|
        invariant 0 <= i <= |processes|
        invariant forall k :: 0 <= k < i ==> !CanRun(processes[k], arrived).0
      {
        var (ready, _) := CanRun(processes[i], arrived);
        if ready {
          j := i;
          break;
        }
        i := i + 1;
      }
      FirstRunnableAt(processes, arrived, i);
      if j == |processes| {
        r, tf' := None, tf;
      } else {
        var p := processes[j].(state := Running);
        var id := p.context.tpidr;
        tf' := p.context;
        processes := [p] + processes[..j] + processes[j + 1..];
        r := Some(id);
      }
    }

    method Kill(tf: TrapFrame) returns (r: Option<u64>)
      modifies this
      ensures (r, processes) == KillStep(old(processes), tf)
      ensures lastId == old(lastId)
    {
      var _ := ScheduleOut(Dead, tf);
      if processes == [] {
        return None;
      }
      var dead := processes[|processes| - 1];
      processes := processes[..|processes| - 1];
      var pid := dead.context.tpidr;
      if dead.parent.Some? {
        var k := FindProcess(dead.parent.value);
        if k.Some? {
          processes := processes[k.value := processes[k.value].(deadChildren := processes[k.value].deadChildren + [pid])];
        }
      }
      r := Some(pid);
    }

    /** `find_process`: the position of the first process with the id. */
    method FindProcess(id: u64) returns (k: Option<nat>)
      ensures k == FindId(processes, id)
    {
      var i := 0;
      while i < |processes|
        invariant 0 <= i <= |processes|
        invariant forall j :: 0 <= j < i ==> Id(processes[j]) != id
      {
        if processes[i].context.tpidr == id {
          FindIdAt(processes, id, i);
          return Some(i);
        }
        i := i + 1;
      }
      FindIdAt(processes, id, i);
      k := None;
    }
  }
}
