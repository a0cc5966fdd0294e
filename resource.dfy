/** A process's table of open resources (kernel/src/process/resource.rs):
  * a list of entries, each an id and the resource it names, kept in id
  * order.  Resources themselves (file objects) are identified here by an
  * opaque handle.
  *
  * Three of the four operations search the list for the first entry that
  * meets a test; that search is `FindFrom`, with the test given as a
  * `Criterion`.  The functions ending in `AsWritten` follow the source's
  * tests literally; the corrected tests are the ones the class uses. */
module Resources {
  import opened Common

  /** A resource as the table sees it. */
  type Handle = nat

  /** `ResourceEntry`. */
  datatype Entry = Entry(id: nat, resource: Handle)

  /** `OsError::UnknownResourceId`, the only error of the table. */
  datatype ResourceError = UnknownResourceId

  /** The tests the searches apply to (position, entry). */
  datatype Criterion =
    | IdNotIndex        // `i != resource.id` (insert)
    | IndexAtLeastId    // `i >= resource.id` (insert_with_id, as written)
    | IdAtLeast(id: nat)
    | IdIs(id: nat)     // `res.id == id` (remove)
    | IdIsNot(id: nat)  // `resource.id == id` gives None (get, as written)

  predicate Holds(c: Criterion, i: nat, e: Entry)
  {
    match c
    case IdNotIndex => i != e.id
    case IndexAtLeastId => i >= e.id
    case IdAtLeast(id) => e.id >= id
    case IdIs(id) => e.id == id
    case IdIsNot(id) => e.id != id
  }

  /** The first position from `k` on whose entry meets `c`
    * (`iter().enumerate().filter_map(..).next()`). */
  function FindFrom(l: seq<Entry>, c: Criterion, k: nat): (r: Option<nat>)
    requires k <= |l|
    ensures r.Some? ==> k <= r.value < |l| && Holds(c, r.value, l[r.value])
    ensures r.Some? ==> forall j :: k <= j < r.value ==> !Holds(c, j, l[j])
    ensures r.None? ==> forall j :: k <= j < |l| ==> !Holds(c, j, l[j])
    decreases |l| - k
  {
    if k == |l| then None
    else if Holds(c, k, l[k]) then Some(k)
    else FindFrom(l, c, k + 1)
  }

  /** A position before which no entry meets `c`, and where one does (or
    * the end), is what the search finds. */
  lemma {:induction false} FindFromFirst(l: seq<Entry>, c: Criterion, k: nat, i: nat)
    requires k <= i <= |l|
    requires forall j :: k <= j < i ==> !Holds(c, j, l[j])
    requires i < |l| ==> Holds(c, i, l[i])
    ensures FindFrom(l, c, k) == if i < |l| then Some(i) else None
    decreases i - k
  {
    if k < i {
      FindFromFirst(l, c, k + 1, i);
    }
  }

  /** Ids strictly increase along the list, so no id is used twice. */
  predicate Ordered(l: seq<Entry>)
  {
    forall i, j :: 0 <= i < j < |l| ==> l[i].id < l[j].id
  }

  predicate InUse(l: seq<Entry>, id: nat)
  {
    exists i :: 0 <= i < |l| && l[i].id == id
  }

  function InsertAt(l: seq<Entry>, i: nat, e: Entry): (r: seq<Entry>)
    requires i <= |l|
    ensures |r| == |l| + 1 && r[i] == e
    ensures forall j :: 0 <= j < i ==> r[j] == l[j]
    ensures forall j :: i < j < |r| ==> r[j] == l[j - 1]
  {
    l[..i] + [e] + l[i..]
  }

  /** In an ordered list the id at position `i` is at least `i`. */
  lemma {:induction false} IdAtLeastIndex(l: seq<Entry>, i: nat)
    requires Ordered(l) && i < |l|
    ensures l[i].id >= i
  {
    if i > 0 {
      IdAtLeastIndex(l, i - 1);
    }
  }

  /** An entry placed between a smaller and a larger id keeps the order. */
  lemma InsertAtOrdered(l: seq<Entry>, i: nat, e: Entry)
    requires Ordered(l) && i <= |l|
    requires i > 0 ==> l[i - 1].id < e.id
    requires i < |l| ==> e.id < l[i].id
    ensures Ordered(InsertAt(l, i, e))
  {
    var r := InsertAt(l, i, e);
    forall a, b | 0 <= a < b < |r|
      ensures r[a].id < r[b].id
    {
      if b < i {
      } else if b == i {
        assert l[a].id <= l[i - 1].id;
      } else if a < i {
        assert r[b] == l[b - 1];
      } else if a == i {
        assert l[i].id <= l[b - 1].id;
      } else {
        assert r[a] == l[a - 1] && r[b] == l[b - 1];
      }
    }
  }

  /** Removing one entry keeps the order and leaves that id unused. */
  lemma RemoveAtOrdered(l: seq<Entry>, i: nat)
    requires Ordered(l) && i < |l|
    ensures Ordered(l[..i] + l[i + 1..])
    ensures forall id :: id != l[i].id ==> (InUse(l[..i] + l[i + 1..], id) <==> InUse(l, id))
    ensures !InUse(l[..i] + l[i + 1..], l[i].id)
  {
    var r := l[..i] + l[i + 1..];
    assert forall j :: 0 <= j < i ==> r[j] == l[j];
    assert forall j :: i <= j < |r| ==> r[j] == l[j + 1];
    forall id | id != l[i].id && InUse(l, id)
      ensures InUse(r, id)
    {
      var k :| 0 <= k < |l| && l[k].id == id;
      if k < i {
        assert r[k].id == id;
      } else {
        assert r[k - 1].id == id;
      }
    }
  }

  // ---- insert ----

  /** `insert`'s position as written: the first entry whose id is not its
    * position, or 0 when every id equals its position. */
  function InsertIndexAsWritten(l: seq<Entry>): (r: nat)
    ensures r <= |l|
  {
    match FindFrom(l, IdNotIndex, 0)
    case Some(i) => i
    case None => 0
  }

  /** `insert` as written: the new entry takes the id of its position. */
  function InsertedAsWritten(l: seq<Entry>, h: Handle): (r: (nat, seq<Entry>))
    ensures r.0 <= |l| && |r.1| == |l| + 1 && r.1[r.0] == Entry(r.0, h)
  {
    var i := InsertIndexAsWritten(l);
    (i, InsertAt(l, i, Entry(i, h)))
  }

  /** `insert` with the fallback corrected to the end of the list: a list
    * whose ids are exactly its positions gets the next id. */
  function InsertIndex(l: seq<Entry>): (r: nat)
    ensures r <= |l|
  {
    match FindFrom(l, IdNotIndex, 0)
    case Some(i) => i
    case None => |l|
  }

  function Inserted(l: seq<Entry>, h: Handle): (r: (nat, seq<Entry>))
    ensures r.0 <= |l| && |r.1| == |l| + 1 && r.1[r.0] == Entry(r.0, h)
  {
    var i := InsertIndex(l);
    (i, InsertAt(l, i, Entry(i, h)))
  }

  /** `insert` hands out the least id not in use and keeps the list ordered;
    * the new resource is found under that id, and removing it gives back
    * the table as it was. */
  lemma InsertedFresh(l: seq<Entry>, h: Handle)
    requires Ordered(l)
    ensures !InUse(l, Inserted(l, h).0)
    ensures forall k :: 0 <= k < Inserted(l, h).0 ==> InUse(l, k)
    ensures Ordered(Inserted(l, h).1)
    ensures Lookup(Inserted(l, h).1, Inserted(l, h).0) == Ok(h)
    ensures Removed(Inserted(l, h).1, Inserted(l, h).0) == Ok(l)
  {
    var i := InsertIndex(l);
    var e := Entry(i, h);
    assert forall j :: 0 <= j < i ==> l[j].id == j;
    if i < |l| {
      IdAtLeastIndex(l, i);
    }
    forall j | 0 <= j < |l|
      ensures l[j].id != i
    {
      if j >= i {
        IdAtLeastIndex(l, j);
      }
    }
    forall k | 0 <= k < i
      ensures InUse(l, k)
    {
      assert l[k].id == k;
    }
    InsertAtOrdered(l, i, e);
    InsertAtFound(l, i, e);
  }

  /** An entry inserted at a position before which its id does not occur is
    * what `get` and `remove` find for that id. */
  lemma InsertAtFound(l: seq<Entry>, i: nat, e: Entry)
    requires i <= |l|
    requires forall j :: 0 <= j < i ==> l[j].id != e.id
    ensures Lookup(InsertAt(l, i, e), e.id) == Ok(e.resource)
    ensures Removed(InsertAt(l, i, e), e.id) == Ok(l)
  {
    var r := InsertAt(l, i, e);
    FindFromFirst(r, IdIs(e.id), 0, i);
    assert r[..i] + r[i + 1..] == l;
  }

  /** When the list has a gap, or is empty, the source's `insert` is the
    * corrected one. */
  lemma InsertedAsWrittenAgrees(l: seq<Entry>, h: Handle)
    requires FindFrom(l, IdNotIndex, 0).Some? || l == []
    ensures InsertedAsWritten(l, h) == Inserted(l, h)
  {
  }

  /** The source's `insert` on a table holding id 0 only hands out id 0
    * again: two consecutive inserts into a fresh table share an id. */
  lemma InsertAsWrittenReusesId()
    ensures InsertedAsWritten([], 7) == (0, [Entry(0, 7)])
    ensures InsertedAsWritten([Entry(0, 7)], 8) == (0, [Entry(0, 8), Entry(0, 7)])
    ensures InUse([Entry(0, 7)], 0)
    ensures !Ordered(InsertedAsWritten([Entry(0, 7)], 8).1)
  {
    var l := [Entry(0, 7)];
    assert FindFrom([], IdNotIndex, 0) == None;
    assert FindFrom(l, IdNotIndex, 1) == None;
    assert FindFrom(l, IdNotIndex, 0) == None;
    assert InsertAt([], 0, Entry(0, 7)) == [Entry(0, 7)];
    assert InsertAt(l, 0, Entry(0, 8)) == [Entry(0, 8), Entry(0, 7)];
    var r := InsertedAsWritten(l, 8).1;
    assert r[0].id == r[1].id;
  }

  // ---- insert_with_id ----

  /** `insert_with_id` as written: the position is the first entry whose id
    * is at most its position; it refuses only when that entry has the id. */
  function InsertedWithIdAsWritten(l: seq<Entry>, id: nat, h: Handle): (r: Result<seq<Entry>, ResourceError>)
    ensures r.Err? ==> InUse(l, id)
    ensures r.Ok? ==> |r.value| == |l| + 1 && Entry(id, h) in r.value
  {
    match FindFrom(l, IndexAtLeastId, 0)
    case None => Ok(l + [Entry(id, h)])
    case Some(i) =>
      if l[i].id == id then Err(UnknownResourceId)
      else Ok(InsertAt(l, i, Entry(id, h)))
  }

  /** `insert_with_id` with the search corrected to the first id at or above
    * the requested one. */
  function InsertedWithId(l: seq<Entry>, id: nat, h: Handle): (r: Result<seq<Entry>, ResourceError>)
    ensures r.Ok? ==> |r.value| == |l| + 1 && Entry(id, h) in r.value
  {
    match FindFrom(l, IdAtLeast(id), 0)
    case None => Ok(l + [Entry(id, h)])
    case Some(i) =>
      if l[i].id == id then Err(UnknownResourceId)
      else Ok(InsertAt(l, i, Entry(id, h)))
  }

  /** On an ordered table `insert_with_id` refuses exactly the ids in use;
    * otherwise the table stays ordered, the resource is found under its
    * id, and removing it gives back the table. */
  lemma InsertedWithIdSpec(l: seq<Entry>, id: nat, h: Handle)
    requires Ordered(l)
    ensures InsertedWithId(l, id, h).Err? <==> InUse(l, id)
    ensures InsertedWithId(l, id, h).Ok? ==>
      var n := InsertedWithId(l, id, h).value;
      Ordered(n) && Lookup(n, id) == Ok(h) && Removed(n, id) == Ok(l)
  {
    var e := Entry(id, h);
    match FindFrom(l, IdAtLeast(id), 0)
    case None =>
      assert forall j :: 0 <= j < |l| ==> l[j].id < id;
      assert l + [e] == InsertAt(l, |l|, e);
      InsertAtOrdered(l, |l|, e);
      InsertAtFound(l, |l|, e);
    case Some(i) =>
      if l[i].id == id {
      } else {
        forall j | i < j < |l|
          ensures l[j].id != id
        {
        }
        InsertAtOrdered(l, i, e);
        InsertAtFound(l, i, e);
      }
  }

  /** The source's `insert_with_id` lets a duplicate id in, and puts an id
    * ahead of smaller ones. */
  lemma InsertWithIdAsWrittenBreaksOrder()
    ensures InsertedWithIdAsWritten([Entry(1, 7)], 1, 8) == Ok([Entry(1, 7), Entry(1, 8)])
    ensures InsertedWithIdAsWritten([Entry(0, 7)], 5, 8) == Ok([Entry(5, 8), Entry(0, 7)])
    ensures InsertedWithId([Entry(1, 7)], 1, 8).Err?
    ensures InsertedWithId([Entry(0, 7)], 5, 8) == Ok([Entry(0, 7), Entry(5, 8)])
  {
    assert FindFrom([Entry(1, 7)], IndexAtLeastId, 1) == None;
    assert FindFrom([Entry(1, 7)], IndexAtLeastId, 0) == None;
    assert FindFrom([Entry(0, 7)], IndexAtLeastId, 0) == Some(0);
    assert InsertAt([Entry(0, 7)], 0, Entry(5, 8)) == [Entry(5, 8), Entry(0, 7)];
    assert FindFrom([Entry(1, 7)], IdAtLeast(1), 0) == Some(0);
    assert FindFrom([Entry(0, 7)], IdAtLeast(5), 1) == None;
    assert FindFrom([Entry(0, 7)], IdAtLeast(5), 0) == None;
    assert [Entry(1, 7)] + [Entry(1, 8)] == [Entry(1, 7), Entry(1, 8)];
    assert [Entry(0, 7)] + [Entry(5, 8)] == [Entry(0, 7), Entry(5, 8)];
  }

  // ---- remove ----

  /** `remove`: drop the first entry with the id, keeping the others in
    * order, or fail when there is none. */
  function Removed(l: seq<Entry>, id: nat): (r: Result<seq<Entry>, ResourceError>)
    ensures r.Err? <==> !InUse(l, id)
    ensures r.Ok? ==> |r.value| == |l| - 1
  {
    match FindFrom(l, IdIs(id), 0)
    case None => Err(UnknownResourceId)
    case Some(i) => Ok(l[..i] + l[i + 1..])
  }

  /** On an ordered table `remove` leaves it ordered, frees the id and
    * keeps every other id. */
  lemma RemovedSpec(l: seq<Entry>, id: nat)
    requires Ordered(l) && InUse(l, id)
    ensures Ordered(Removed(l, id).value)
    ensures !InUse(Removed(l, id).value, id)
    ensures forall k :: k != id ==> (InUse(Removed(l, id).value, k) <==> InUse(l, k))
  {
    var i := FindFrom(l, IdIs(id), 0).value;
    RemoveAtOrdered(l, i);
  }

  // ---- get ----

  /** `get` as written: the first entry whose id DIFFERS from the one asked
    * for. */
  function LookupAsWritten(l: seq<Entry>, id: nat): (r: Result<Handle, ResourceError>)
    ensures r.Ok? <==> exists i :: 0 <= i < |l| && l[i].id != id
  {
    match FindFrom(l, IdIsNot(id), 0)
    case None => Err(UnknownResourceId)
    case Some(i) => Ok(l[i].resource)
  }

  /** `get` with the test corrected: the resource of the first entry with
    * the id. */
  function Lookup(l: seq<Entry>, id: nat): (r: Result<Handle, ResourceError>)
    ensures r.Ok? <==> InUse(l, id)
    ensures r.Ok? ==> exists i :: 0 <= i < |l| && l[i] == Entry(id, r.value)
  {
    match FindFrom(l, IdIs(id), 0)
    case None => Err(UnknownResourceId)
    case Some(i) => Ok(l[i].resource)
  }

  /** The source's `get` misses the only entry with the id and returns the
    * resource of another one. */
  lemma LookupAsWrittenInverted()
    ensures LookupAsWritten([Entry(0, 7)], 0) == Err(UnknownResourceId)
    ensures Lookup([Entry(0, 7)], 0) == Ok(7)
    ensures LookupAsWritten([Entry(0, 7), Entry(1, 8)], 0) == Ok(8)
    ensures LookupAsWritten([Entry(0, 7)], 3) == Ok(7)
    ensures Lookup([Entry(0, 7)], 3) == Err(UnknownResourceId)
  {
    assert FindFrom([Entry(0, 7)], IdIsNot(0), 1) == None;
    assert FindFrom([Entry(0, 7), Entry(1, 8)], IdIsNot(0), 1) == Some(1);
    assert !InUse([Entry(0, 7)], 3);
  }

  /** `ResourceList`, with the corrected searches. */
  class ResourceList {
    var list: seq<Entry>

    constructor()
      ensures list == []
    {
      list := [];
    }

    /** `insert`: scan for the first id that is not its position. */
    method Insert(h: Handle) returns (id: nat)
      modifies this
      ensures (id, list) == Inserted(old(list), h)
    {
      var i := 0;
      while i < |list| && list[i].id == i
        invariant 0 <= i <= |list|
        invariant forall j :: 0 <= j < i ==> !Holds(IdNotIndex, j, list[j])
      {
        i := i + 1;
      }
      FindFromFirst(list, IdNotIndex, 0, i);
      list := list[..i] + [Entry(i, h)] + list[i..];
      id := i;
    }

    method InsertWithId(id: nat, h: Handle) returns (r: Result<(), ResourceError>)
      modifies this
      ensures InsertedWithId(old(list), id, h) == if r.Ok? then Ok(list) else Err(UnknownResourceId)
      ensures r.Err? ==> list == old(list)
    {
      var i := 0;
      while i < |list| && list[i].id < id
        invariant 0 <= i <= |list|
        invariant forall j :: 0 <= j < i ==> !Holds(IdAtLeast(id), j, list[j])
      {
        i := i + 1;
      }
      FindFromFirst(list, IdAtLeast(id), 0, i);
      if i == |list| {
        list := list + [Entry(id, h)];
        r := Ok(());
      } else if list[i].id == id {
        r := Err(UnknownResourceId);
      } else {
        list := list[..i] + [Entry(id, h)] + list[i..];
        r := Ok(());
      }
    }

    method Remove(id: nat) returns (r: Result<(), ResourceError>)
      modifies this
      ensures Removed(old(list), id) == if r.Ok? then Ok(list) else Err(UnknownResourceId)
      ensures r.Err? ==> list == old(list)
    {
      var i := FindIndex(id);
      if i == |list| {
        r := Err(UnknownResourceId);
      } else {
        list := list[..i] + list[i + 1..];
        r := Ok(());
      }
    }

    method Get(id: nat) returns (r: Result<Handle, ResourceError>)
      ensures r == Lookup(list, id)
    {
      var i := FindIndex(id);
      if i == |list| {
        r := Err(UnknownResourceId);
      } else {
        r := Ok(list[i].resource);
      }
    }

    /** The position of the first entry with the id, or the length. */
    method FindIndex(id: nat) returns (i: nat)
      ensures i <= |list|
      ensures FindFrom(list, IdIs(id), 0) == if i < |list| then Some(i) else None
    {
      i := 0;
      while i < |list| && list[i].id != id
        invariant 0 <= i <= |list|
        invariant forall j :: 0 <= j < i ==> !Holds(IdIs(id), j, list[j])
      {
        i := i + 1;
      }
      FindFromFirst(list, IdIs(id), 0, i);
    }
  }
}
