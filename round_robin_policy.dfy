/** The round-robin scheduling policy (kernel/src/scheduling/round_robin_policy.rs):
  * a queue of process ids and the set of those waiting; the advice is the
  * first queued id that is not waiting, for one quantum. */
module RoundRobinPolicies {
  import opened Common
  import opened RoundRobin
  import opened Policy

  /** `index_of_process_id`: the first position of the id. */
  function IndexOf(q: seq<u64>, id: u64): (r: Option<nat>)
    ensures r.None? <==> id !in q
    ensures r.Some? ==> r.value < |q| && q[r.value] == id && id !in q[..r.value]
    decreases |q|
  {
    if q == [] then None
    else if q[0] == id then Some(0)
    else
      match IndexOf(q[1..], id)
      case None => None
      case Some(i) =>
        assert q[1..][..i] == q[1..i + 1];
        Some(i + 1)
  }

  /** A scan that stops at `i` finds `i`. */
  lemma {:induction false} IndexOfAt(q: seq<u64>, id: u64, i: nat)
    requires i <= |q| && id !in q[..i]
    requires i < |q| ==> q[i] == id
    ensures IndexOf(q, id) == if i < |q| then Some(i) else None
    decreases i
  {
    if i == |q| {
      assert q[..i] == q;
    } else if i > 0 {
      assert q[0] == q[..i][0];
      assert q[1..][..i - 1] == q[1..i];
      assert q[1..i] == q[..i][1..];
      assert id !in q[1..i] by {
        forall k | 0 <= k < i - 1
          ensures q[1..i][k] != id
        {
          assert q[1..i][k] == q[..i][k + 1];
        }
      }
      IndexOfAt(q[1..], id, i - 1);
    }
  }

  /** `queue.remove(i)` at the first position of the id, when there is one. */
  function Without(q: seq<u64>, id: u64): (r: seq<u64>)
    ensures multiset(r) == multiset(q) - multiset{id}
    ensures id in q ==> |r| == |q| - 1
    ensures id !in q ==> r == q
  {
    match IndexOf(q, id)
    case None => q
    case Some(i) =>
      assert q == q[..i] + [id] + q[i + 1..];
      q[..i] + q[i + 1..]
  }

  /** The queue holds each id once. */
  predicate Distinct(q: seq<u64>)
  {
    forall i, j :: 0 <= i < j < |q| ==> q[i] != q[j]
  }

  /** `insert` puts the id at the front. */
  function Inserted(q: seq<u64>, id: u64): seq<u64>
  {
    [id] + q
  }

  /** The closing step of `inform`: a queued id moves to the back. */
  function ToBack(q: seq<u64>, id: u64): (r: seq<u64>)
    ensures multiset(r) == multiset(q)
    ensures id in q ==> |r| == |q| && r[|r| - 1] == id
  {
    if id in q then Without(q, id) + [id] else q
  }

  /** The queue `inform` builds before its closing step: a process
    * scheduled out is appended, one that starts running is taken out. */
  function Queued(q: seq<u64>, id: u64, info: Information): seq<u64>
  {
    if info.ScheduledOut? then q + [id]
    else if info.DoneWaiting? then q
    else Without(q, id)
  }

  /** The waiting set after `inform`. */
  function WaitingAfter(w: set<u64>, id: u64, info: Information): set<u64>
  {
    if info.ScheduledOut? then (if info.waiting then w + {id} else w)
    else if info.DoneWaiting? then w - {id}
    else w
  }

  /** `inform`: the queue and the waiting set afterwards.  Starting to run
    * an id that is not queued panics in the source. */
  function Informed(q: seq<u64>, w: set<u64>, id: u64, info: Information): (r: (seq<u64>, set<u64>))
    requires info.StartRunning? ==> id in q
  {
    (ToBack(Queued(q, id, info), id), WaitingAfter(w, id, info))
  }

  lemma DistinctWithout(q: seq<u64>, id: u64)
    requires Distinct(q)
    ensures Distinct(Without(q, id)) && id !in Without(q, id)
  {
    if id in q {
      var i := IndexOf(q, id).value;
      var r := q[..i] + q[i + 1..];
      forall a, b | 0 <= a < b < |r|
        ensures r[a] != r[b]
      {
        var a' := if a < i then a else a + 1;
        var b' := if b < i then b else b + 1;
        assert r[a] == q[a'] && r[b] == q[b'];
      }
      assert multiset(r)[id] == 0;
    }
  }

  lemma DistinctAppend(q: seq<u64>, id: u64)
    requires Distinct(q) && id !in q
    ensures Distinct(q + [id])
  {
  }

  /** Scheduling out a process that is not queued puts it at the back once
    * (and in the waiting set when it waits); starting one that is queued
    * takes it out; an end of waiting leaves the waiting set and moves a
    * queued id to the back.  Each keeps
    * the queue free of repeats. */
  lemma InformedSpec(q: seq<u64>, w: set<u64>, id: u64, info: Information)
    requires Distinct(q)
    requires info.StartRunning? ==> id in q
    requires info.ScheduledOut? ==> id !in q
    ensures var (q', w') := Informed(q, w, id, info);
      Distinct(q')
      && (info.ScheduledOut? ==> q' == q + [id] && w' == (if info.waiting then w + {id} else w))
      && (info.DoneWaiting? ==> (id in q ==> q' == Without(q, id) + [id]) && (id !in q ==> q' == q) && w' == w - {id})
      && (info.StartRunning? ==> id !in q' && multiset(q') == multiset(q) - multiset{id} && w' == w)
  {
    match info
    case ScheduledOut(_, _, _) =>
      DistinctAppend(q, id);
      var q1 := q + [id];
      assert IndexOf(q1, id) == Some(|q|) by {
        assert q1[..|q|] == q;
      }
      assert q1[..|q|] + q1[|q| + 1..] == q;
    case DoneWaiting =>
      DistinctWithout(q, id);
      if id in q {
        DistinctAppend(Without(q, id), id);
      }
    case StartRunning =>
      DistinctWithout(q, id);
  }

  /** When scheduled out twice without being started in between, the source
    * keeps both copies: the queue holds a repeat. */
  lemma ScheduledOutTwiceRepeats()
    ensures Informed([5], {}, 5, ScheduledOut(0, Timer, false)).0 == [5, 5]
  {
    assert IndexOf([5, 5], 5) == Some(0);
    assert [5, 5][..0] + [5, 5][1..] == [5];
  }

  /** `advise`: the first queued id that is not waiting, for one quantum,
    * stopped only by a yield. */
  function Advised(q: seq<u64>, w: set<u64>, quantum: nat): (r: Option<Advice>)
    ensures r.None? <==> forall i :: 0 <= i < |q| ==> q[i] in w
    ensures r.Some? ==> r.value.runtime == Some(quantum) && r.value.stopCondition == {Yield}
    ensures r.Some? ==> exists i :: (0 <= i < |q| && q[i] == r.value.processId && q[i] !in w
      && forall j :: 0 <= j < i ==> q[j] in w)
    decreases |q|
  {
    if q == [] then None
    else if q[0] !in w then Some(Advice(q[0], Some(quantum), {Yield}))
    else
      var r := Advised(q[1..], w, quantum);
      if r.Some? then
        var i :| 0 <= i < |q[1..]| && q[1..][i] == r.value.processId && q[1..][i] !in w
          && (forall j :: 0 <= j < i ==> q[1..][j] in w);
        assert q[i + 1] == r.value.processId && forall j :: 0 <= j < i + 1 ==> q[j] in w;
        r
      else r
  }

  /** `RoundRobinPolicy`. */
  class RoundRobinPolicy {
    const quantum: nat
    var queue: seq<u64>
    var waiting: set<u64>

    constructor(quantum: nat)
      ensures this.quantum == quantum && queue == [] && waiting == {}
    {
      this.quantum := quantum;
      queue := [];
      waiting := {};
    }

    method IndexOfProcessId(id: u64) returns (r: Option<nat>)
      ensures r == IndexOf(queue, id)
    {
      var i := 0;
      while i < |queue| && queue[i] != id
        invariant 0 <= i <= |queue|
        invariant id !in queue[..i]
      {
        i := i + 1;
        assert queue[..i] == queue[..i - 1] + [queue[i - 1]];
      }
      IndexOfAt(queue, id, i);
      r := if i == |queue| then None else Some(i);
    }

    method Insert(id: u64)
      modifies this
      ensures queue == Inserted(old(queue), id) && waiting == old(waiting)
    {
      queue := [id] + queue;
    }

    method Remove(id: u64)
      modifies this
      ensures queue == Without(old(queue), id) && waiting == old(waiting)
    {
      var i := IndexOfProcessId(id);
      if i.Some? {
        queue := queue[..i.value] + queue[i.value + 1..];
      }
    }

    /** The closing step of `inform`. */
    method MoveToBack(id: u64)
      modifies this
      ensures queue == ToBack(old(queue), id) && waiting == old(waiting)
    {
      var i := IndexOfProcessId(id);
      if i.Some? {
        queue := queue[..i.value] + queue[i.value + 1..];
        queue := queue + [id];
      }
    }

    method Inform(id: u64, info: Information)
      requires info.StartRunning? ==> id in queue
      modifies this
      ensures (queue, waiting) == Informed(old(queue), old(waiting), id, info)
    {
      if info.ScheduledOut? {
        if info.waiting {
          waiting := waiting + {id};
        }
        queue := queue + [id];
      } else if info.DoneWaiting? {
        waiting := waiting - {id};
      } else {
        Remove(id);
      }
      MoveToBack(id);
    }

    method Advise() returns (r: Option<Advice>)
      ensures r == Advised(queue, waiting, quantum)
    {
      var i := 0;
      while i < |queue| && queue[i] in waiting
        invariant 0 <= i <= |queue|
        invariant Advised(queue, waiting, quantum) == Advised(queue[i..], waiting, quantum)
      {
        assert queue[i..][1..] == queue[i + 1..];
        i := i + 1;
      }
      if i == |queue| {
        r := None;
      } else {
        r := Some(Advice(queue[i], Some(quantum), {Yield}));
      }
    }
  }
}
