/** Edge rows in the order a query returned them, and how many of them still hold a task back. */
module Rows {
  import opened Collections
  import opened Graph

  /** The rows with both ends in `ids`. */
  function Within(rows: seq<Edge>, ids: set<Id>): seq<Edge>
  {
    if rows == [] then []
    else
      var n := |rows| - 1;
      Within(rows[..n], ids) + if rows[n].task in ids && rows[n].dep in ids then [rows[n]] else []
  }

  lemma {:induction false} WithinMembers(rows: seq<Edge>, ids: set<Id>)
    ensures forall e :: e in Within(rows, ids) <==> e in rows && e.task in ids && e.dep in ids
  {
    if rows != [] {
      var n := |rows| - 1;
      WithinMembers(rows[..n], ids);
      assert rows == rows[..n] + [rows[n]];
    }
  }

  /** The tasks that wait for d, one per row. */
  function Outgoing(rows: seq<Edge>, d: Id): seq<Id>
  {
    if rows == [] then []
    else
      var n := |rows| - 1;
      Outgoing(rows[..n], d) + if rows[n].dep == d then [rows[n].task] else []
  }

  lemma {:induction false} OutgoingMembers(rows: seq<Edge>, d: Id)
    ensures forall t :: t in Outgoing(rows, d) <==> Edge(t, d) in rows
  {
    if rows != [] {
      var n := |rows| - 1;
      OutgoingMembers(rows[..n], d);
      assert rows == rows[..n] + [rows[n]];
    }
  }

  /** The dependencies of t, one per row. */
  function Incoming(rows: seq<Edge>, t: Id): seq<Id>
  {
    if rows == [] then []
    else
      var n := |rows| - 1;
      Incoming(rows[..n], t) + if rows[n].task == t then [rows[n].dep] else []
  }

  /** What one more row adds to each of these. */
  lemma AppendRow(rows: seq<Edge>, e: Edge)
    ensures forall ids :: Within(rows + [e], ids) == Within(rows, ids) + if e.task in ids && e.dep in ids then [e] else []
    ensures forall d :: Outgoing(rows + [e], d) == Outgoing(rows, d) + if e.dep == d then [e.task] else []
    ensures forall t :: Incoming(rows + [e], t) == Incoming(rows, t) + if e.task == t then [e.dep] else []
    ensures forall done, v :: Waiting(rows + [e], done, v) == Waiting(rows, done, v) + if e.task == v && e.dep !in done then 1 else 0
  {
    assert (rows + [e])[..|rows|] == rows;
  }

  /** How many rows of v name a dependency outside `done`. */
  ghost function Waiting(rows: seq<Edge>, done: set<Id>, v: Id): nat
  {
    if rows == [] then 0
    else
      var n := |rows| - 1;
      Waiting(rows[..n], done, v) + if rows[n].task == v && rows[n].dep !in done then 1 else 0
  }

  lemma {:induction false} WaitingZero(rows: seq<Edge>, done: set<Id>, v: Id)
    ensures Waiting(rows, done, v) == 0 <==> forall e :: e in rows && e.task == v ==> e.dep in done
  {
    if rows != [] {
      var n := |rows| - 1;
      WaitingZero(rows[..n], done, v);
      assert rows == rows[..n] + [rows[n]];
    }
  }

  /** Finishing u releases one row of v for each time v occurs among u's dependents. */
  lemma {:induction false} WaitingRelease(rows: seq<Edge>, done: set<Id>, u: Id, v: Id)
    requires u !in done
    ensures Waiting(rows, done, v) == Waiting(rows, done + {u}, v) + multiset(Outgoing(rows, u))[v]
  {
    if rows != [] {
      var n := |rows| - 1;
      WaitingRelease(rows[..n], done, u, v);
    }
  }

  lemma {:induction false} IncomingCount(rows: seq<Edge>, v: Id)
    ensures |Incoming(rows, v)| == Waiting(rows, {}, v)
  {
    if rows != [] {
      IncomingCount(rows[..|rows| - 1], v);
    }
  }
}
