/** The fair scheduling policy (kernel/src/scheduling/fair_policy.rs): every
  * runnable process carries the time it has run; a new process starts at
  * the least runtime so far, and the advice is the process that has run
  * least, for a share of the scheduler latency.
  *
  * The heap is a sequence whose order is immaterial: only its multiset of
  * entries and the entry that `peek` gives matter.  `ProcessInformation`
  * orders by runtime alone and `BinaryHeap` is a max-heap, so as written
  * `peek` gives a LARGEST runtime.  The flag `leastOnTop` selects the top:
  * false is the source as written, true the least runtime the rest of the
  * policy is built for. */
module FairPolicies {
  import opened Common
  import opened RoundRobin
  import opened Policy

  /** `ProcessInformation`. */
  datatype Info = Info(pid: u64, runtime: nat)

  /** The process tables of the policy. */
  datatype Tables = Tables(
    heap: seq<Info>,
    waiting: map<u64, nat>,
    running: map<u64, nat>,
    removed: set<u64>)

  /** The first entry of least runtime. */
  function MinIndex(h: seq<Info>): (r: nat)
    requires h != []
    ensures r < |h|
    ensures forall k :: 0 <= k < |h| ==> h[r].runtime <= h[k].runtime
    ensures forall k :: 0 <= k < r ==> h[k].runtime > h[r].runtime
    decreases |h|
  {
    if |h| == 1 then 0
    else
      var j := MinIndex(h[..|h| - 1]);
      if h[|h| - 1].runtime < h[j].runtime then |h| - 1 else j
  }

  /** The first entry of greatest runtime: what a max-heap ordered by
    * runtime gives. */
  function MaxIndex(h: seq<Info>): (r: nat)
    requires h != []
    ensures r < |h|
    ensures forall k :: 0 <= k < |h| ==> h[r].runtime >= h[k].runtime
    ensures forall k :: 0 <= k < r ==> h[k].runtime < h[r].runtime
    decreases |h|
  {
    if |h| == 1 then 0
    else
      var j := MaxIndex(h[..|h| - 1]);
      if h[|h| - 1].runtime > h[j].runtime then |h| - 1 else j
  }

  /** The position `peek` reads and `pop` takes: as written (`leastOnTop`
    * false) the first entry of greatest runtime, as intended the first of
    * least runtime. */
  function Top(h: seq<Info>, leastOnTop: bool): (r: nat)
    requires h != []
    ensures r < |h|
  {
    if leastOnTop then MinIndex(h) else MaxIndex(h)
  }

  /** The heap without its `i`-th entry. */
  function RemoveAt(h: seq<Info>, i: nat): (r: seq<Info>)
    requires i < |h|
    ensures |r| == |h| - 1
    ensures multiset(r) == multiset(h) - multiset{h[i]}
  {
    assert h == h[..i] + [h[i]] + h[i + 1..];
    h[..i] + h[i + 1..]
  }

  /** The first entry of a process, if any. */
  function PidIndex(h: seq<Info>, id: u64): (r: Option<nat>)
    ensures r.None? <==> forall k :: 0 <= k < |h| ==> h[k].pid != id
    ensures r.Some? ==> (r.value < |h| && h[r.value].pid == id
      && forall k :: 0 <= k < r.value ==> h[k].pid != id)
    decreases |h|
  {
    if h == [] then None
    else if h[0].pid == id then Some(0)
    else
      match PidIndex(h[1..], id)
      case None => None
      case Some(i) => Some(i + 1)
  }

  /** `min_duration`: the least runtime on the heap, zero when it is empty. */
  function MinDuration(h: seq<Info>): (r: nat)
    ensures h == [] ==> r == 0
    ensures forall k :: 0 <= k < |h| ==> r <= h[k].runtime
    ensures h != [] ==> exists k :: 0 <= k < |h| && h[k].runtime == r
  {
    if h == [] then 0 else h[MinIndex(h)].runtime
  }

  /** `recommended_runtime` for a heap of `n` entries: the latency shared
    * out among them, never less than the minimum granularity. */
  function RecommendedRuntime(n: nat, latency: nat, minGranularity: nat): (r: nat)
    ensures r >= minGranularity
    ensures n > 0 ==> r * n <= Max(latency, minGranularity * n)
    ensures n > 0 && latency >= minGranularity * n ==> latency - n < r * n
  {
    if n == 0 then minGranularity
    else
      var share := latency / n;
      assert share * n <= latency < share * n + n;
      if minGranularity >= share then minGranularity else share
  }

  /** `insert`: the process enters the heap at the least runtime so far. */
  function Inserted(t: Tables, id: u64): Tables
  {
    t.(heap := t.heap + [Info(id, MinDuration(t.heap))])
  }

  /** A process inserted into a non-empty heap is among those that have run
    * least, and the least runtime does not change. */
  lemma InsertedRunsLeast(t: Tables, id: u64)
    requires t.heap != []
    ensures var h := Inserted(t, id).heap;
      MinDuration(h) == MinDuration(t.heap)
      && h[|h| - 1] == Info(id, MinDuration(t.heap))
      && forall k :: 0 <= k < |h| ==> h[|h| - 1].runtime <= h[k].runtime
  {
    var h := Inserted(t, id).heap;
    assert h[..|h| - 1] == t.heap;
    assert h[|h| - 1].runtime == MinDuration(t.heap);
  }

  /** `remove`: the process is marked, and dropped when it reaches the top. */
  function MarkedRemoved(t: Tables, id: u64): Tables
  {
    t.(removed := t.removed + {id})
  }

  /** What `inform` needs not to panic: a process scheduled out is running,
    * one done waiting is waiting, one starting is on a non-empty heap. */
  predicate CanInform(t: Tables, id: u64, info: Information)
  {
    match info
    case ScheduledOut(_, _, _) => id in t.running
    case DoneWaiting => id in t.waiting
    case StartRunning => PidIndex(t.heap, id).Some?
  }

  /** The entry `inform(StartRunning)` takes off the heap: the top when it
    * belongs to the process, otherwise its first entry. */
  function StartIndex(h: seq<Info>, id: u64, leastOnTop: bool): (r: nat)
    requires PidIndex(h, id).Some?
    ensures r < |h| && h[r].pid == id
  {
    if h[Top(h, leastOnTop)].pid == id then Top(h, leastOnTop) else PidIndex(h, id).value
  }

  /** `inform`. */
  function Informed(t: Tables, id: u64, info: Information, leastOnTop: bool): (r: Tables)
    requires CanInform(t, id, info)
  {
    match info
    case ScheduledOut(ran, _, waits) =>
      var total := t.running[id] + ran;
      var t1 := t.(running := t.running - {id});
      if waits then t1.(waiting := t1.waiting[id := total])
      else t1.(heap := t1.heap + [Info(id, total)])
    case DoneWaiting =>
      t.(waiting := t.waiting - {id}, heap := t.heap + [Info(id, t.waiting[id])])
    case StartRunning =>
      var i := StartIndex(t.heap, id, leastOnTop);
      t.(heap := RemoveAt(t.heap, i), running := t.running[id := t.heap[i].runtime])
  }

  /** What each kind of information does to the tables: scheduling out moves
    * the accumulated runtime from the running table to the waiting table or
    * the heap, the end of a wait moves it from the waiting table to the heap,
    * and starting moves one entry of the process from the heap to the
    * running table, the top's runtime when the top is the process's; the
    * removal marks never change. */
  lemma InformedSpec(t: Tables, id: u64, info: Information, leastOnTop: bool)
    requires CanInform(t, id, info)
    ensures var r := Informed(t, id, info, leastOnTop);
      r.removed == t.removed
      && (info.ScheduledOut? ==>
            id !in r.running && r.running == t.running - {id}
            && var total := t.running[id] + info.ran;
            if info.waiting then r.waiting == t.waiting[id := total] && r.heap == t.heap
            else r.waiting == t.waiting && multiset(r.heap) == multiset(t.heap) + multiset{Info(id, total)})
      && (info.DoneWaiting? ==>
            id !in r.waiting && r.running == t.running
            && multiset(r.heap) == multiset(t.heap) + multiset{Info(id, t.waiting[id])})
      && (info.StartRunning? ==>
            id in r.running && r.waiting == t.waiting
            && Info(id, r.running[id]) in multiset(t.heap)
            && multiset(r.heap) == multiset(t.heap) - multiset{Info(id, r.running[id])}
            && r.running == t.running[id := r.running[id]]
            && (t.heap[Top(t.heap, leastOnTop)].pid == id ==>
                  (leastOnTop ==> r.running[id] == MinDuration(t.heap))
                  && (!leastOnTop ==> forall k :: 0 <= k < |t.heap| ==> t.heap[k].runtime <= r.running[id])))
  {
    if info.StartRunning? {
      var i := StartIndex(t.heap, id, leastOnTop);
      assert t.heap[i] == Info(id, t.heap[i].runtime);
      assert t.heap[i] in multiset(t.heap);
    }
  }

  /** A process started and then scheduled out without waiting returns to
    * the heap once, carrying its old runtime plus the time it ran. */
  lemma RunThenRequeue(t: Tables, t1: Tables, t2: Tables, id: u64, ran: nat, trigger: SwitchTrigger, leastOnTop: bool)
    requires PidIndex(t.heap, id).Some? && id !in t.running
    requires t1 == Informed(t, id, StartRunning, leastOnTop)
    requires t2 == Informed(t1, id, ScheduledOut(ran, trigger, false), leastOnTop)
    ensures Info(id, t1.running[id]) in multiset(t.heap)
    ensures multiset(t2.heap)
      == multiset(t.heap) - multiset{Info(id, t1.running[id])} + multiset{Info(id, t1.running[id] + ran)}
    ensures t2.running == t.running && t2.waiting == t.waiting && t2.removed == t.removed
  {
    var i := StartIndex(t.heap, id, leastOnTop);
    var e := t.heap[i];
    var x := Info(id, e.runtime + ran);
    assert t1 == t.(heap := RemoveAt(t.heap, i), running := t.running[id := e.runtime]);
    assert t2 == t1.(running := t1.running - {id}, heap := t1.heap + [x]);
    assert e == Info(id, e.runtime) && e in multiset(t.heap);
    assert Info(id, t1.running[id]) == e && Info(id, t1.running[id] + ran) == x;
    MultisetSwap(multiset(t.heap), multiset(t1.heap), multiset(t2.heap), e, x);
    assert t1.running - {id} == t.running;
  }

  lemma MultisetSwap(m0: multiset<Info>, m1: multiset<Info>, m2: multiset<Info>, e: Info, x: Info)
    requires m1 == m0 - multiset{e} && m2 == m1 + multiset{x}
    ensures m2 == m0 - multiset{e} + multiset{x}
  {
  }

  /** The popping loop of `advise`: marked processes at the top are dropped
    * (and unmarked) until an unmarked one is on top or the heap is empty. */
  function Purged(h: seq<Info>, removed: set<u64>, leastOnTop: bool): (r: (seq<Info>, set<u64>))
    decreases |h|
  {
    if h == [] then (h, removed)
    else
      var top := Top(h, leastOnTop);
      if h[top].pid in removed then Purged(RemoveAt(h, top), removed - {h[top].pid}, leastOnTop)
      else (h, removed)
  }

  /** The loop only drops marked entries and only unmarks their processes;
    * it stops at an empty heap or an unmarked top. */
  lemma {:induction false} PurgedSpec(h: seq<Info>, removed: set<u64>, leastOnTop: bool)
    ensures multiset(Purged(h, removed, leastOnTop).0) <= multiset(h)
    ensures Purged(h, removed, leastOnTop).1 <= removed
    ensures forall e :: e in multiset(h) - multiset(Purged(h, removed, leastOnTop).0) ==>
      e.pid in removed && e.pid !in Purged(h, removed, leastOnTop).1
    ensures var (h', removed') := Purged(h, removed, leastOnTop);
      h' != [] ==> h'[Top(h', leastOnTop)].pid !in removed'
    decreases |h|
  {
    if h != [] && h[Top(h, leastOnTop)].pid in removed {
      var e := h[Top(h, leastOnTop)];
      var h1 := RemoveAt(h, Top(h, leastOnTop));
      var removed1 := removed - {e.pid};
      PurgedSpec(h1, removed1, leastOnTop);
      assert Purged(h, removed, leastOnTop) == Purged(h1, removed1, leastOnTop);
      var h' := Purged(h1, removed1, leastOnTop).0;
      assert multiset(h) == multiset(h1) + multiset{e};
      forall x | x in multiset(h) - multiset(h')
        ensures x.pid in removed && x.pid !in Purged(h, removed, leastOnTop).1
      {
        if x !in multiset(h1) - multiset(h') {
          assert x == e;
        }
      }
    }
  }

  /** `advise`: the tables after the loop, and the process on top for the
    * recommended share, stopped by the timer or a yield. */
  function Advised(t: Tables, leastOnTop: bool, latency: nat, minGranularity: nat): (r: (Tables, Option<Advice>))
  {
    var (h, removed) := Purged(t.heap, t.removed, leastOnTop);
    var t' := t.(heap := h, removed := removed);
    if h == [] then (t', None)
    else (t', Some(Advice(h[Top(h, leastOnTop)].pid, Some(RecommendedRuntime(|h|, latency, minGranularity)), {Timer, Yield})))
  }

  /** The advice names an unmarked process that, as intended, has run no
    * longer than any other left on the heap and, as written, no shorter;
    * there is none only when every entry was marked. */
  lemma AdvisedSpec(t: Tables, leastOnTop: bool, latency: nat, minGranularity: nat)
    ensures var (t', a) := Advised(t, leastOnTop, latency, minGranularity);
      t'.waiting == t.waiting && t'.running == t.running
      && multiset(t'.heap) <= multiset(t.heap)
      && (a.None? <==> t'.heap == [])
      && (a.None? ==> forall e :: e in multiset(t.heap) ==> e.pid in t.removed)
      && (a.Some? ==>
            a.value.processId !in t'.removed
            && a.value.stopCondition == {Timer, Yield}
            && a.value.runtime == Some(RecommendedRuntime(|t'.heap|, latency, minGranularity))
            && exists k :: 0 <= k < |t'.heap| && t'.heap[k].pid == a.value.processId
                 && (leastOnTop ==> forall j :: 0 <= j < |t'.heap| ==> t'.heap[k].runtime <= t'.heap[j].runtime)
                 && (!leastOnTop ==> forall j :: 0 <= j < |t'.heap| ==> t'.heap[k].runtime >= t'.heap[j].runtime))
  {
    PurgedSpec(t.heap, t.removed, leastOnTop);
    var (h, removed) := Purged(t.heap, t.removed, leastOnTop);
    if h != [] {
      var k := Top(h, leastOnTop);
      assert h[k].pid == h[Top(h, leastOnTop)].pid;
    } else {
      forall e | e in multiset(t.heap)
        ensures e.pid in t.removed
      {
        assert e in multiset(t.heap) - multiset(h);
      }
    }
  }

  /** With one process that has not run and one that ran 10, the source
    * advises the one that ran; the intended top is the other. */
  lemma AdviseAsWrittenPrefersLongestRun()
    ensures var t := Tables([Info(1, 0), Info(2, 10)], map[], map[], {});
      Advised(t, false, 10, 1).1 == Some(Advice(2, Some(5), {Timer, Yield}))
      && Advised(t, true, 10, 1).1 == Some(Advice(1, Some(5), {Timer, Yield}))
  {
    var h := [Info(1, 0), Info(2, 10)];
    assert h[..1] == [Info(1, 0)];
    assert Top(h, false) == 1 && Top(h, true) == 0;
  }

  /** `FairPolicy`; `leastOnTop` false is the source's max-heap. */
  class FairPolicy {
    const leastOnTop: bool
    const latency: nat
    const minGranularity: nat
    var heap: seq<Info>
    var waiting: map<u64, nat>
    var running: map<u64, nat>
    var removed: set<u64>

    function State(): Tables
      reads this
    {
      Tables(heap, waiting, running, removed)
    }

    constructor(leastOnTop: bool, latency: nat, minGranularity: nat)
      ensures this.leastOnTop == leastOnTop
      ensures this.latency == latency && this.minGranularity == minGranularity
      ensures State() == Tables([], map[], map[], {})
    {
      this.leastOnTop := leastOnTop;
      this.latency := latency;
      this.minGranularity := minGranularity;
      heap := [];
      waiting := map[];
      running := map[];
      removed := {};
    }

    /** The first entry of least runtime (`least`) or of greatest runtime,
      * found by a scan of the heap. */
    method TopIndex(least: bool) returns (r: nat)
      requires heap != []
      ensures r == Top(heap, least)
    {
      r := 0;
      var i := 1;
      while i < |heap|
        invariant 1 <= i <= |heap|
        invariant r == Top(heap[..i], least)
      {
        assert heap[..i + 1][..i] == heap[..i];
        if (least && heap[i].runtime < heap[r].runtime) || (!least && heap[i].runtime > heap[r].runtime) {
          r := i;
        }
        i := i + 1;
      }
      assert heap[..i] == heap;
    }

    /** The `position` search for the first entry of a process. */
    method Position(id: u64) returns (i: nat)
      requires PidIndex(heap, id).Some?
      ensures i == PidIndex(heap, id).value
    {
      i := 0;
      while heap[i].pid != id
        invariant i < |heap|
        invariant forall k :: 0 <= k < i ==> heap[k].pid != id
        invariant PidIndex(heap, id).value >= i
        decreases |heap| - i
      {
        i := i + 1;
      }
    }

    method Insert(id: u64)
      modifies this
      ensures State() == Inserted(old(State()), id)
    {
      var least := 0;
      if heap != [] {
        var i := TopIndex(true);
        least := heap[i].runtime;
      }
      heap := heap + [Info(id, least)];
    }

    method Remove(id: u64)
      modifies this
      ensures State() == MarkedRemoved(old(State()), id)
    {
      removed := removed + {id};
    }

    method Inform(id: u64, info: Information)
      requires CanInform(State(), id, info)
      modifies this
      ensures State() == Informed(old(State()), id, info, leastOnTop)
    {
      ghost var t := State();
      if info.ScheduledOut? {
        var total := running[id] + info.ran;
        running := running - {id};
        if info.waiting {
          waiting := waiting[id := total];
        } else {
          heap := heap + [Info(id, total)];
        }
        assert State() == Informed(t, id, info, leastOnTop);
      } else if info.DoneWaiting? {
        var runtime := waiting[id];
        waiting := waiting - {id};
        heap := heap + [Info(id, runtime)];
        assert State() == Informed(t, id, info, leastOnTop);
      } else {
        var i := TopIndex(leastOnTop);
        if heap[i].pid != id {
          i := Position(id);
        }
        assert i == StartIndex(heap, id, leastOnTop);
        var taken := heap[i];
        heap := heap[..i] + heap[i + 1..];
        running := running[id := taken.runtime];
        assert State() == Informed(t, id, info, leastOnTop);
      }
    }

    method Advise() returns (r: Option<Advice>)
      modifies this
      ensures (State(), r) == Advised(old(State()), leastOnTop, latency, minGranularity)
    {
      var more := true;
      while more
        invariant Purged(heap, removed, leastOnTop) == Purged(old(heap), old(removed), leastOnTop)
        invariant !more ==> Purged(heap, removed, leastOnTop) == (heap, removed)
        invariant waiting == old(waiting) && running == old(running)
        decreases |heap|, more
      {
        if heap == [] {
          more := false;
        } else {
          var top := TopIndex(leastOnTop);
          if heap[top].pid in removed {
            removed := removed - {heap[top].pid};
            heap := heap[..top] + heap[top + 1..];
          } else {
            more := false;
          }
        }
      }
      if heap == [] {
        r := None;
      } else {
        var top := TopIndex(leastOnTop);
        r := Some(Advice(heap[top].pid, Some(RecommendedRuntime(|heap|, latency, minGranularity)), {Timer, Yield}));
      }
    }
  }
}
