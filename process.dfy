/** Processes as the schedulers see them (kernel/src/process/process.rs):
  * the saved trap frame whose `tpidr` register carries the process id, the
  * scheduling state, the parent and the ids of dead children; `can_run`,
  * `Process::new` and the argument splitting of `parse_execute`.
  *
  * A waiting process waits for an event; whether its poll succeeds is the
  * set of events that have arrived, passed in by the caller.  The queue
  * operations shared by both schedulers (find by id, move to the back, move
  * the first runnable process to the front) are defined here once. */
module Processes {
  import opened Common

  /** `State`.  `Waiting` carries the event its poll function waits for. */
  datatype State = Ready | Running | Waiting(event: nat) | Dead

  /** `TrapFrame`, reduced to the registers the kernel reads or sets by
    * name; `tpidr` holds the id of the process it belongs to. */
  datatype TrapFrame = TrapFrame(tpidr: u64, elr: u64, sp: u64)

  /** `Process`, without its page table, open resources and working
    * directory. */
  datatype Process = Process(context: TrapFrame, state: State, parent: Option<u64>, deadChildren: seq<u64>)

  /** `Process::id`. */
  function Id(p: Process): u64
  {
    p.context.tpidr
  }

  /** `Process::new`: a zeroed trap frame, ready, no parent, no dead
    * children. */
  function NewProcess(): (p: Process)
    ensures p.state == Ready && p.parent == None && p.deadChildren == [] && Id(p) == 0
  {
    Process(TrapFrame(0, 0, 0), Ready, None, [])
  }

  /** `can_run`: a waiting process is polled and becomes ready when its
    * event has arrived; the answer is whether the process is now ready.
    * Only the state can change, and only from waiting to ready. */
  function CanRun(p: Process, arrived: set<nat>): (r: (bool, Process))
    ensures r.0 <==> r.1.state == Ready
    ensures r.1 == p.(state := r.1.state)
    ensures r.1 != p ==> p.state.Waiting? && p.state.event in arrived && r.0
    ensures p.state.Waiting? ==> (r.0 <==> p.state.event in arrived)
  {
    match p.state
    case Waiting(e) =>
      if e in arrived then (true, p.(state := Ready)) else (false, p)
    case Ready => (true, p)
    case _ => (false, p)
  }

  // ---- parse_execute ----

  /** Every NUL-separated field of `data`, the last one included even when
    * it is empty: `n` NULs give `n + 1` fields. */
  function Fields(data: seq<byte>): (r: seq<seq<byte>>)
    ensures |r| >= 1
    decreases |data|
  {
    if data == [] then [[]]
    else
      var f := Fields(data[..|data| - 1]);
      var c := data[|data| - 1];
      if c == 0 then f + [[]]
      else f[..|f| - 1] + [f[|f| - 1] + [c]]
  }

  /** The fields joined back with NUL separators. */
  function JoinNul(fields: seq<seq<byte>>): (r: seq<byte>)
    requires |fields| >= 1
    decreases |fields|
  {
    if |fields| == 1 then fields[0]
    else JoinNul(fields[..|fields| - 1]) + [0] + fields[|fields| - 1]
  }

  function NulCount(data: seq<byte>): nat
    decreases |data|
  {
    if data == [] then 0
    else NulCount(data[..|data| - 1]) + (if data[|data| - 1] == 0 then 1 else 0)
  }

  /** What `parse_execute` returns: the fields, less a final empty one. */
  function Segments(data: seq<byte>): (r: seq<seq<byte>>)
  {
    var f := Fields(data);
    if f[|f| - 1] == [] then f[..|f| - 1] else f
  }

  /** `Fields` of a byte appended: a NUL opens a new field, any other byte
    * extends the last one. */
  lemma FieldsSnoc(s: seq<byte>, c: byte)
    ensures Fields(s + [c]) == if c == 0 then Fields(s) + [[]]
      else Fields(s)[..|Fields(s)| - 1] + [Fields(s)[|Fields(s)| - 1] + [c]]
  {
    assert (s + [c])[..|s|] == s;
  }

  /** Splitting and joining are inverse. */
  lemma {:induction false} FieldsJoin(data: seq<byte>)
    ensures JoinNul(Fields(data)) == data
    decreases |data|
  {
    if data != [] {
      var init := data[..|data| - 1];
      var c := data[|data| - 1];
      assert data == init + [c];
      FieldsJoin(init);
      FieldsSnoc(init, c);
      var f := Fields(init);
      if c == 0 {
        assert (f + [[]])[..|f|] == f;
      } else {
        var g := f[..|f| - 1];
        var last := f[|f| - 1];
        if |f| > 1 {
          assert (g + [last + [c]])[..|g|] == g;
          assert f == g + [last];
          assert (g + [last])[..|g|] == g;
        }
      }
    }
  }

  /** No field holds a NUL. */
  predicate NoNulIn(fields: seq<seq<byte>>)
  {
    forall i, j :: 0 <= i < |fields| && 0 <= j < |fields[i]| ==> fields[i][j] != 0
  }

  lemma NoNulExtend(f: seq<seq<byte>>, c: byte)
    requires |f| >= 1 && NoNulIn(f)
    ensures NoNulIn(if c == 0 then f + [[]] else f[..|f| - 1] + [f[|f| - 1] + [c]])
  {
    if c != 0 {
      var g := f[..|f| - 1] + [f[|f| - 1] + [c]];
      forall i, j | 0 <= i < |g| && 0 <= j < |g[i]|
        ensures g[i][j] != 0
      {
        if i < |f| - 1 {
          assert g[i] == f[i];
        } else if j < |f[|f| - 1]| {
          assert g[i][j] == f[|f| - 1][j];
        }
      }
    } else {
      var g := f + [[]];
      forall i, j | 0 <= i < |g| && 0 <= j < |g[i]|
        ensures g[i][j] != 0
      {
        assert g[i] == f[i];
      }
    }
  }

  lemma {:induction false} FieldsNoNul(data: seq<byte>)
    ensures NoNulIn(Fields(data))
    decreases |data|
  {
    if data != [] {
      var init := data[..|data| - 1];
      var c := data[|data| - 1];
      FieldsNoNul(init);
      FieldsSnoc(init, c);
      assert data == init + [c];
      NoNulExtend(Fields(init), c);
    }
  }

  /** There is one field more than there are NULs, and the last field is
    * empty exactly when the data is empty or ends in a NUL. */
  lemma {:induction false} FieldsCount(data: seq<byte>)
    ensures |Fields(data)| == NulCount(data) + 1
    ensures Fields(data)[|Fields(data)| - 1] == [] <==> data == [] || data[|data| - 1] == 0
    decreases |data|
  {
    if data != [] {
      var init := data[..|data| - 1];
      FieldsCount(init);
      FieldsSnoc(init, data[|data| - 1]);
      assert data == init + [data[|data| - 1]];
    }
  }

  /** `parse_execute` yields one segment per NUL, plus one when the data
    * does not end in a NUL; no segment holds a NUL; consecutive NULs give
    * empty segments; and the segments with a NUL after each (the last one
    * too, when the data ends in a NUL) are the data. */
  lemma SegmentsSpec(data: seq<byte>)
    ensures |Segments(data)| == NulCount(data) + (if data != [] && data[|data| - 1] != 0 then 1 else 0)
    ensures forall i, j :: 0 <= i < |Segments(data)| && 0 <= j < |Segments(data)[i]| ==> Segments(data)[i][j] != 0
    ensures data != [] && data[|data| - 1] == 0 ==> JoinNul(Segments(data) + [[]]) == data
    ensures data != [] && data[|data| - 1] != 0 ==> JoinNul(Segments(data)) == data
  {
    FieldsJoin(data);
    FieldsNoNul(data);
    FieldsCount(data);
    var f := Fields(data);
    if f[|f| - 1] == [] {
      assert f == f[..|f| - 1] + [[]];
    }
  }

  /** Two NULs in a row give an empty argument; a trailing NUL gives none;
    * an unterminated argument is kept. */
  lemma SegmentsExample()
    ensures Segments([0, 0]) == [[], []]
    ensures Segments([97]) == [[97]]
  {
    var e: seq<byte> := [];
    FieldsSnoc(e, 0);
    assert e + [0] == [0];
    FieldsSnoc([0], 0);
    assert [0] + [0] == [0, 0];
    assert Fields([0, 0]) == [e, e, e];
    assert [e, e, e][..2] == [e, e];
    FieldsSnoc(e, 97);
    assert e + [97] == [97];
  }

  /** One byte of the `parse_execute` scan: a NUL closes the open segment,
    * any other byte extends it. */
  lemma ParseStep(data: seq<byte>, i: nat, result: seq<seq<byte>>, lastStart: nat)
    requires lastStart <= i < |data|
    requires Fields(data[..i]) == result + [data[lastStart..i]]
    ensures data[i] == 0 ==> Fields(data[..i + 1]) == result + [data[lastStart..i]] + [data[i + 1..i + 1]]
    ensures data[i] != 0 ==> Fields(data[..i + 1]) == result + [data[lastStart..i + 1]]
  {
    assert data[..i + 1] == data[..i] + [data[i]];
    FieldsSnoc(data[..i], data[i]);
    var f := result + [data[lastStart..i]];
    assert f[..|f| - 1] == result && f[|f| - 1] == data[lastStart..i];
    if data[i] == 0 {
      assert data[i + 1..i + 1] == [];
    } else {
      assert data[lastStart..i + 1] == data[lastStart..i] + [data[i]];
    }
  }

  /** `parse_execute`: scan the bytes, closing a segment at each NUL and
    * keeping the unterminated rest when there is one. */
  method ParseExecute(data: seq<byte>) returns (result: seq<seq<byte>>)
    ensures result == Segments(data)
  {
    result := [];
    var lastStart := 0;
    var i := 0;
    while i < |data|
      invariant 0 <= lastStart <= i <= |data|
      invariant Fields(data[..i]) == result + [data[lastStart..i]]
    {
      ParseStep(data, i, result, lastStart);
      if data[i] == 0 {
        result := result + [data[lastStart..i]];
        lastStart := i + 1;
      }
      i := i + 1;
    }
    assert data[..|data|] == data;
    if lastStart != |data| {
      result := result + [data[lastStart..]];
    } else {
      assert (result + [[]])[..|result|] == result;
    }
  }

  // ---- the process queue ----

  function Ids(ps: seq<Process>): (r: seq<u64>)
    ensures |r| == |ps| && forall i :: 0 <= i < |ps| ==> r[i] == Id(ps[i])
  {
    seq(|ps|, i requires 0 <= i < |ps| => Id(ps[i]))
  }

  /** The position of the first process with the id. */
  function FindId(ps: seq<Process>, id: u64): (r: Option<nat>)
    ensures r.Some? ==> r.value < |ps| && Id(ps[r.value]) == id && forall j :: 0 <= j < r.value ==> Id(ps[j]) != id
    ensures r.None? <==> id !in Ids(ps)
    decreases |ps|
  {
    if ps == [] then None
    else if Id(ps[0]) == id then Some(0)
    else
      match FindId(ps[1..], id)
      case None => None
      case Some(i) => Some(i + 1)
  }

  /** The position of the first process whose poll says it can run. */
  function FirstRunnable(ps: seq<Process>, arrived: set<nat>): (r: Option<nat>)
    ensures r.Some? ==> r.value < |ps| && CanRun(ps[r.value], arrived).0
    ensures r.Some? ==> forall j :: 0 <= j < r.value ==> !CanRun(ps[j], arrived).0
    ensures r.None? ==> forall j :: 0 <= j < |ps| ==> !CanRun(ps[j], arrived).0
    decreases |ps|
  {
    if ps == [] then None
    else if CanRun(ps[0], arrived).0 then Some(0)
    else
      match FirstRunnable(ps[1..], arrived)
      case None => None
      case Some(i) => Some(i + 1)
  }

  /** A scan that stops at `i` finds `i`. */
  lemma {:induction false} FindIdAt(ps: seq<Process>, id: u64, i: nat)
    requires i <= |ps| && forall j :: 0 <= j < i ==> Id(ps[j]) != id
    requires i < |ps| ==> Id(ps[i]) == id
    ensures FindId(ps, id) == if i < |ps| then Some(i) else None
  {
    if i == |ps| {
      assert id !in Ids(ps);
    }
  }

  lemma {:induction false} FirstRunnableAt(ps: seq<Process>, arrived: set<nat>, i: nat)
    requires i <= |ps| && forall j :: 0 <= j < i ==> !CanRun(ps[j], arrived).0
    requires i < |ps| ==> CanRun(ps[i], arrived).0
    ensures FirstRunnable(ps, arrived) == if i < |ps| then Some(i) else None
  {
    var r := FirstRunnable(ps, arrived);
    if r.Some? {
      assert r.value == i;
    }
  }

  /** `schedule_out`'s update: the process at `i` leaves its place and goes
    * to the back with the new state and the saved frame. */
  function MoveToBack(ps: seq<Process>, i: nat, state: State, tf: TrapFrame): (r: seq<Process>)
    requires i < |ps|
  {
    ps[..i] + ps[i + 1..] + [ps[i].(state := state, context := tf)]
  }

  /** `schedule_in`'s update: the process at `j` leaves its place and goes
    * to the front as running. */
  function Promote(ps: seq<Process>, j: nat): (r: seq<Process>)
    requires j < |ps|
  {
    [ps[j].(state := Running)] + ps[..j] + ps[j + 1..]
  }

  lemma RemoveOneIds(ps: seq<Process>, i: nat)
    requires i < |ps|
    ensures multiset(Ids(ps[..i] + ps[i + 1..])) + multiset{Id(ps[i])} == multiset(Ids(ps))
  {
    assert Ids(ps) == Ids(ps[..i]) + [Id(ps[i])] + Ids(ps[i + 1..]);
    assert Ids(ps[..i] + ps[i + 1..]) == Ids(ps[..i]) + Ids(ps[i + 1..]);
  }

  /** Moving to the back keeps the same processes (by id) and the order of
    * the others; the moved one is last, with its new state. */
  lemma MoveToBackSpec(ps: seq<Process>, i: nat, state: State, tf: TrapFrame)
    requires i < |ps| && tf.tpidr == Id(ps[i])
    ensures |MoveToBack(ps, i, state, tf)| == |ps|
    ensures multiset(Ids(MoveToBack(ps, i, state, tf))) == multiset(Ids(ps))
    ensures MoveToBack(ps, i, state, tf)[|ps| - 1].state == state
    ensures Id(MoveToBack(ps, i, state, tf)[|ps| - 1]) == Id(ps[i])
    ensures MoveToBack(ps, i, state, tf)[..|ps| - 1] == ps[..i] + ps[i + 1..]
  {
    var rest := ps[..i] + ps[i + 1..];
    var moved := ps[i].(state := state, context := tf);
    RemoveOneIds(ps, i);
    assert Ids(rest + [moved]) == Ids(rest) + [Id(moved)];
  }

  /** Promoting keeps the same processes (by id) and the order of the
    * others; the promoted one is first and running. */
  lemma PromoteSpec(ps: seq<Process>, j: nat)
    requires j < |ps|
    ensures |Promote(ps, j)| == |ps|
    ensures multiset(Ids(Promote(ps, j))) == multiset(Ids(ps))
    ensures Promote(ps, j)[0].state == Running && Id(Promote(ps, j)[0]) == Id(ps[j])
    ensures Promote(ps, j)[1..] == ps[..j] + ps[j + 1..]
  {
    var rest := ps[..j] + ps[j + 1..];
    var p := ps[j].(state := Running);
    RemoveOneIds(ps, j);
    assert Promote(ps, j) == [p] + rest;
    assert ([p] + rest)[1..] == rest;
    assert Ids([p] + rest) == [Id(p)] + Ids(rest);
  }
}
