/** Longest-path layers by a Kahn pass, as `layoutDag` computes them for any input graph. */
module LayoutDepth {
  import opened Collections
  import opened Graph
  import opened Rows
  import opened TopologicalSort

  /** v has a dependency that the pass resolves. */
  ghost predicate Touched(E: set<Edge>, R: set<Id>, v: Id) {
    exists d :: d in R && Edge(v, d) in E
  }

  /** n is one more than the deepest dependency of v in R. */
  ghost predicate OneAboveDeps(E: set<Edge>, R: set<Id>, depth: map<Id, nat>, v: Id, n: nat) {
    && (forall d :: d in R && Edge(v, d) in E ==> d in depth && depth[d] < n)
    && (exists d :: d in R && Edge(v, d) in E && d in depth && depth[d] + 1 == n)
  }

  /** n is the largest depth among S, or 0 when S is empty. */
  ghost predicate IsMaxOver(S: set<Id>, depth: map<Id, nat>, n: nat) {
    && (forall v :: v in S ==> v in depth && depth[v] <= n)
    && (n == 0 || exists v :: v in S && v in depth && depth[v] == n)
  }

  /** The nodes that get a depth inside the loop. */
  ghost function Reached(ids: set<Id>, E: set<Edge>): set<Id> {
    set v | v in ids && (v in Resolvable(ids, E) || Touched(E, Resolvable(ids, E), v))
  }

  /**
   The depth of every node, for any input: the longest dependency chain where nothing waits for a
   cycle, one above the deepest resolved dependency where only some do, and one past everything
   reached for the rest.
   */
  ghost predicate DepthsAre(ids: set<Id>, E: set<Edge>, depth: map<Id, nat>) {
    var R, reached := Resolvable(ids, E), Reached(ids, E);
    && depth.Keys == ids
    && (forall v :: v in R ==> IsDepth(E, v, depth[v]))
    && (forall v :: v in reached && v !in R ==> OneAboveDeps(E, R, depth, v, depth[v]))
    && (forall v :: v in ids && v !in reached ==> depth[v] > 0 && IsMaxOver(reached, depth, depth[v] - 1))
  }

  // ---- the state of the pass ----

  /**
   After relaxing the edges F: who has a depth, and that it is one above the deepest dependency
   seen so far.
   */
  ghost predicate Relaxed(ids: set<Id>, E: set<Edge>, F: set<Edge>, depth: map<Id, nat>) {
    && F <= E
    && (forall v :: v in depth <==> v in ids && (IsRoot(E, v) || HasDep(F, v)))
    && (forall e :: e in F ==> e.dep in depth && e.task in depth && depth[e.dep] < depth[e.task])
    && (forall v :: v in depth && !IsRoot(E, v) ==> HasDepBelow(F, depth, v))
    && (forall v :: v in depth && IsRoot(E, v) ==> depth[v] == 0)
  }

  ghost predicate HasDep(F: set<Edge>, v: Id) {
    exists d :: Edge(v, d) in F
  }

  ghost predicate HasDepBelow(F: set<Edge>, depth: map<Id, nat>, v: Id)
    requires v in depth
  {
    exists d :: Edge(v, d) in F && d in depth && depth[d] + 1 == depth[v]
  }

  ghost function EdgesFrom(E: set<Edge>, done: set<Id>): set<Edge> {
    set e | e in E && e.dep in done
  }

  /** `done` is popped, `queue` waits: together the nodes with nothing left to wait for. */
  ghost predicate Pass(ids: set<Id>, E: set<Edge>, done: set<Id>, queue: seq<Id>, remaining: map<Id, nat>) {
    && remaining.Keys == ids && NoDup(queue) && done <= ids
    && (forall v :: v in queue ==> v !in done)
    && (forall v :: v in ids ==> (remaining[v] == 0 <==> v in done || v in queue))
    && (forall v :: v in queue ==> v in ids)
    && (forall e :: e in E && (e.task in done || e.task in queue) ==> e.dep in done)
  }

  ghost predicate Remaining(ids: set<Id>, rows: seq<Edge>, done: set<Id>, left: multiset<Id>, remaining: map<Id, nat>) {
    InDegreesAre(ids, rows, done, left, remaining)
  }

  function Max(a: nat, b: nat): nat {
    if a > b then a else b
  }

  /** Relaxing one edge whose dependent is not itself a relaxed dependency. */
  lemma RelaxOne(ids: set<Id>, E: set<Edge>, F: set<Edge>, depth: map<Id, nat>, t: Id, u: Id)
    requires Relaxed(ids, E, F, depth) && Edge(t, u) in E && t in ids && u in depth && t != u
    requires forall e :: e in F ==> e.dep != t
    ensures Relaxed(ids, E, F + {Edge(t, u)},
                    depth[t := Max(if t in depth then depth[t] else 0, depth[u] + 1)])
  {
    hide IsRoot, HasDep, HasDepBelow;
    var G, was := F + {Edge(t, u)}, if t in depth then depth[t] else 0;
    var next := depth[t := Max(was, depth[u] + 1)];
    NotRoot(E, t, u);
    assert next[u] == depth[u];
    forall v ensures HasDep(G, v) <==> HasDep(F, v) || v == t {
      HasDepGrows(F, t, u, v);
    }
    forall v | v in next && !IsRoot(E, v) ensures HasDepBelow(G, next, v) {
      if v == t && was < depth[u] + 1 {
        NewBelow(G, next, t, u);
      } else {
        KeepBelow(F, G, depth, next, v, t);
      }
    }
  }

  lemma NotRoot(E: set<Edge>, t: Id, u: Id)
    requires Edge(t, u) in E
    ensures !IsRoot(E, t)
  {
  }

  lemma HasDepGrows(F: set<Edge>, t: Id, u: Id, v: Id)
    ensures HasDep(F + {Edge(t, u)}, v) <==> HasDep(F, v) || v == t
  {
    assert Edge(t, u) in F + {Edge(t, u)};
    if HasDep(F, v) {
      var d :| Edge(v, d) in F;
      assert Edge(v, d) in F + {Edge(t, u)};
    }
  }

  lemma NewBelow(G: set<Edge>, next: map<Id, nat>, t: Id, u: Id)
    requires t in next && u in next && Edge(t, u) in G && next[u] + 1 == next[t]
    ensures HasDepBelow(G, next, t)
  {
  }

  lemma KeepBelow(F: set<Edge>, G: set<Edge>, depth: map<Id, nat>, next: map<Id, nat>, v: Id, t: Id)
    requires v in depth && HasDepBelow(F, depth, v) && F <= G
    requires forall w :: w in depth ==> w in next && (w != t ==> next[w] == depth[w])
    requires forall e :: e in F ==> e.dep != t
    requires v in next && next[v] == depth[v]
    ensures HasDepBelow(G, next, v)
  {
    var d :| Edge(v, d) in F && d in depth && depth[d] + 1 == depth[v];
    assert Edge(v, d).dep != t;
    assert Edge(v, d) in G && next[d] == depth[d];
  }

  // ---- the inner loop ----

  /** The inner loop with the dependents `left` of u to go; F is what has been relaxed. */
  ghost predicate Relaxing(ids: set<Id>, rows: seq<Edge>, done: set<Id>, queue: seq<Id>, remaining: map<Id, nat>,
                           depth: map<Id, nat>, F: set<Edge>, u: Id, left: multiset<Id>) {
    var E := ToSet(rows);
    && u in done && u in depth
    && Pass(ids, E, done, queue, remaining)
    && Remaining(ids, rows, done, left, remaining)
    && Relaxed(ids, E, F, depth)
    && (forall e :: e in F ==> e.dep in done)
    && (forall e :: e in E && e.dep in done ==> e in F || (e.dep == u && e.task in left))
    && (forall t :: t in left ==> t in ids && Edge(t, u) in E)
  }

  lemma RelaxNext(ids: set<Id>, rows: seq<Edge>, done: set<Id>, queue: seq<Id>, remaining: map<Id, nat>,
                  depth: map<Id, nat>, F: set<Edge>, u: Id, t: Id, left: multiset<Id>)
    requires forall e :: e in rows ==> e.task in ids && e.dep in ids
    requires Relaxing(ids, rows, done, queue, remaining, depth, F, u, left + multiset{t})
    ensures u in depth && t in ids && remaining.Keys == ids && remaining[t] > 0
    ensures var remaining' := remaining[t := remaining[t] - 1];
            Relaxing(ids, rows, done, if remaining'[t] == 0 then queue + [t] else queue, remaining',
                     depth[t := Max(if t in depth then depth[t] else 0, depth[u] + 1)], F + {Edge(t, u)}, u, left)
  {
    hide Pass, Relaxed, Remaining;
    assert t in left + multiset{t};
    KeysOf(ids, rows, done, left + multiset{t}, remaining);
    StillWaiting(ids, rows, done, remaining, t, left);
    QueueIfZero(ids, rows, done, queue, remaining, t, left);
    var E := ToSet(rows);
    assert t !in done && t != u;
    RelaxOne(ids, E, F, depth, t, u);
    assert forall x :: x in left ==> x in left + multiset{t};
    assert forall x :: x in left + multiset{t} ==> x == t || x in left;
  }

  lemma KeysOf(ids: set<Id>, rows: seq<Edge>, done: set<Id>, left: multiset<Id>, remaining: map<Id, nat>)
    requires Remaining(ids, rows, done, left, remaining)
    ensures remaining.Keys == ids
  {
  }

  lemma StillWaiting(ids: set<Id>, rows: seq<Edge>, done: set<Id>, remaining: map<Id, nat>, t: Id, left: multiset<Id>)
    requires Remaining(ids, rows, done, left + multiset{t}, remaining) && t in ids
    ensures remaining[t] > 0
    ensures Remaining(ids, rows, done, left, remaining[t := remaining[t] - 1])
    ensures remaining[t] == 1 ==> Waiting(rows, done, t) == 0
  {
  }

  lemma QueueIfZero(ids: set<Id>, rows: seq<Edge>, done: set<Id>, queue: seq<Id>, remaining: map<Id, nat>, t: Id, left: multiset<Id>)
    requires forall e :: e in rows ==> e.task in ids && e.dep in ids
    requires Pass(ids, ToSet(rows), done, queue, remaining) && t in ids && remaining[t] > 0
    requires remaining[t] == 1 ==> Waiting(rows, done, t) == 0
    ensures t !in done
    ensures var remaining' := remaining[t := remaining[t] - 1];
            Pass(ids, ToSet(rows), done, if remaining'[t] == 0 then queue + [t] else queue, remaining')
  {
    if remaining[t] == 1 {
      WaitingZero(rows, done, t);
      NoDupAppend(queue, t);
    }
  }

  // ---- the outer loop ----

  ghost predicate Between(ids: set<Id>, rows: seq<Edge>, done: set<Id>, queue: seq<Id>, remaining: map<Id, nat>,
                          depth: map<Id, nat>) {
    && Pass(ids, ToSet(rows), done, queue, remaining)
    && Remaining(ids, rows, done, multiset{}, remaining)
    && Relaxed(ids, ToSet(rows), EdgesFrom(ToSet(rows), done), depth)
  }

  lemma Pop(ids: set<Id>, rows: seq<Edge>, done: set<Id>, queue: seq<Id>, remaining: map<Id, nat>, depth: map<Id, nat>)
    requires forall e :: e in rows ==> e.task in ids && e.dep in ids
    requires Between(ids, rows, done, queue, remaining, depth) && queue != []
    ensures queue[0] in ids && queue[0] !in done && queue[0] in depth
    ensures |ids - (done + {queue[0]})| < |ids - done|
    ensures Relaxing(ids, rows, done + {queue[0]}, queue[1..], remaining, depth, EdgesFrom(ToSet(rows), done),
                     queue[0], multiset(Outgoing(rows, queue[0])))
  {
    hide Pass, Relaxed, Remaining, Outgoing, IsRoot;
    var u, E := queue[0], ToSet(rows);
    PopPass(ids, E, done, queue, remaining);
    PopHasDepth(ids, E, done, depth, u);
    PopRemaining(ids, rows, done, u, remaining);
    OutgoingMembers(rows, u);
    assert forall t :: t in multiset(Outgoing(rows, u)) <==> t in Outgoing(rows, u);
    CardSubset(ids - (done + {u}), (ids - done) - {u});
  }

  lemma PopRemaining(ids: set<Id>, rows: seq<Edge>, done: set<Id>, u: Id, remaining: map<Id, nat>)
    requires Remaining(ids, rows, done, multiset{}, remaining) && u !in done
    ensures Remaining(ids, rows, done + {u}, multiset(Outgoing(rows, u)), remaining)
  {
    PopCounts(ids, rows, done, u, remaining);
  }

  lemma PopHasDepth(ids: set<Id>, E: set<Edge>, done: set<Id>, depth: map<Id, nat>, u: Id)
    requires Relaxed(ids, E, EdgesFrom(E, done), depth) && u in ids
    requires forall e :: e in E && e.task == u ==> e.dep in done
    ensures u in depth
  {
    if !IsRoot(E, u) {
      var d :| Edge(u, d) in E;
      assert Edge(u, d) in EdgesFrom(E, done);
    }
  }

  lemma PopPass(ids: set<Id>, E: set<Edge>, done: set<Id>, queue: seq<Id>, remaining: map<Id, nat>)
    requires Pass(ids, E, done, queue, remaining) && queue != []
    ensures Pass(ids, E, done + {queue[0]}, queue[1..], remaining)
    ensures queue[0] in ids && queue[0] !in done && forall e :: e in E && e.task == queue[0] ==> e.dep in done
  {
    var u, rest := queue[0], queue[1..];
    assert queue == [u] + rest;
    assert forall v :: v in queue <==> v == u || v in rest;
    assert u in queue;
    assert u !in rest by {
      forall i | 0 <= i < |rest| ensures rest[i] != u {
        assert rest[i] == queue[i + 1];
      }
    }
  }

  lemma InnerDone(ids: set<Id>, rows: seq<Edge>, done: set<Id>, queue: seq<Id>, remaining: map<Id, nat>,
                  depth: map<Id, nat>, F: set<Edge>, u: Id)
    requires Relaxing(ids, rows, done, queue, remaining, depth, F, u, multiset{})
    ensures Between(ids, rows, done, queue, remaining, depth)
  {
    hide Pass, Remaining;
    assert F == EdgesFrom(ToSet(rows), done);
  }

  /** When the queue is empty, what was popped is exactly the resolvable part, at its true depth. */
  lemma PassEnd(ids: set<Id>, rows: seq<Edge>, done: set<Id>, remaining: map<Id, nat>, depth: map<Id, nat>)
    requires forall e :: e in rows ==> e.task in ids && e.dep in ids
    requires Between(ids, rows, done, [], remaining, depth)
    ensures done == Resolvable(ids, ToSet(rows))
    ensures depth.Keys == Reached(ids, ToSet(rows))
    ensures forall v :: v in Resolvable(ids, ToSet(rows)) ==> v in depth && IsDepth(ToSet(rows), v, depth[v])
    ensures forall v :: v in depth && v !in done ==> OneAboveDeps(ToSet(rows), done, depth, v, depth[v])
  {
    hide IsDepth, WaitsForCycle, Pass, Relaxed, Remaining, Waiting, Levels, Reached, OneAboveDeps;
    var E := ToSet(rows);
    var T := ids - done;
    forall v | v in T ensures WaitsForMember(E, T, v) {
      UnpoppedWaits(ids, rows, done, remaining, v);
    }
    EndLevels(ids, E, done, depth, remaining);
    forall v | v in ids ensures v in done <==> !WaitsForCycle(E, v) {
      if v in done {
        LevelsAreDepths(E, done, depth, v);
      } else {
        StuckSetWaitsForCycle(E, T, v);
      }
    }
    forall v | v in done ensures IsDepth(E, v, depth[v]) {
      LevelsAreDepths(E, done, depth, v);
    }
    EndReached(ids, E, done, depth, remaining);
    forall v | v in depth && v !in done ensures OneAboveDeps(E, done, depth, v, depth[v]) {
      EndTouched(ids, E, done, depth, v);
    }
  }

  lemma UnpoppedWaits(ids: set<Id>, rows: seq<Edge>, done: set<Id>, remaining: map<Id, nat>, v: Id)
    requires forall e :: e in rows ==> e.task in ids && e.dep in ids
    requires Pass(ids, ToSet(rows), done, [], remaining) && Remaining(ids, rows, done, multiset{}, remaining)
    requires v in ids && v !in done
    ensures WaitsForMember(ToSet(rows), ids - done, v)
  {
    WaitingZero(rows, done, v);
    var e :| e in rows && e.task == v && e.dep !in done;
    assert Edge(v, e.dep) in ToSet(rows);
  }

  lemma EndLevels(ids: set<Id>, E: set<Edge>, done: set<Id>, depth: map<Id, nat>, remaining: map<Id, nat>)
    requires Pass(ids, E, done, [], remaining) && Relaxed(ids, E, EdgesFrom(E, done), depth)
    ensures done <= ids && Levels(E, done, depth)
  {
    var F := EdgesFrom(E, done);
    forall v | v in done ensures v in depth {
      if !IsRoot(E, v) {
        var d :| Edge(v, d) in E;
        assert Edge(v, d) in F;
      }
    }
    forall v, d | v in done && Edge(v, d) in E ensures d in done && depth[d] < depth[v] {
      assert Edge(v, d) in F;
    }
    forall v | v in done && depth[v] > 0 ensures HasDepAt(E, done, depth, v, depth[v] - 1) {
      assert HasDepBelow(F, depth, v);
      var d :| Edge(v, d) in F && d in depth && depth[d] + 1 == depth[v];
      assert d in done && Edge(v, d) in E;
    }
  }

  lemma EndReached(ids: set<Id>, E: set<Edge>, done: set<Id>, depth: map<Id, nat>, remaining: map<Id, nat>)
    requires Pass(ids, E, done, [], remaining) && Relaxed(ids, E, EdgesFrom(E, done), depth)
    requires done == Resolvable(ids, E)
    ensures depth.Keys == Reached(ids, E)
  {
    hide WaitsForCycle;
    var F := EdgesFrom(E, done);
    forall v ensures v in depth <==> v in Reached(ids, E) {
      if v in ids && IsRoot(E, v) {
        RootResolvable(ids, E, v);
      }
      if v in Resolvable(ids, E) && !IsRoot(E, v) {
        var d :| Edge(v, d) in E;
        assert Edge(v, d) in F;
      }
      if HasDep(F, v) {
        var d :| Edge(v, d) in F;
        assert d in done && Edge(v, d) in E;
      }
      if Touched(E, done, v) {
        var d :| d in done && Edge(v, d) in E;
        assert Edge(v, d) in F;
      }
    }
  }

  lemma EndTouched(ids: set<Id>, E: set<Edge>, done: set<Id>, depth: map<Id, nat>, v: Id)
    requires Relaxed(ids, E, EdgesFrom(E, done), depth) && done == Resolvable(ids, E)
    requires v in depth && v !in done
    ensures OneAboveDeps(E, done, depth, v, depth[v])
  {
    hide WaitsForCycle;
    var F := EdgesFrom(E, done);
    if IsRoot(E, v) {
      RootResolvable(ids, E, v);
    }
    assert HasDepBelow(F, depth, v);
    var d :| Edge(v, d) in F && d in depth && depth[d] + 1 == depth[v];
    assert d in done && Edge(v, d) in E;
    forall d | d in done && Edge(v, d) in E ensures d in depth && depth[d] < depth[v] {
      assert Edge(v, d) in F;
    }
  }

  lemma RootResolvable(ids: set<Id>, E: set<Edge>, v: Id)
    requires v in ids && IsRoot(E, v)
    ensures v in Resolvable(ids, E)
  {
    if WaitsForCycle(E, v) {
      var c :| Reaches(E, v, c) && OnCycle(E, c);
      if c != v {
        var b := FirstStep(E, v, c);
      }
    }
  }

  // ---- the code ----

  /** The adjacency lists of the nodes. */
  method Adjacency(nodes: seq<Id>, edges: seq<Edge>) returns (incoming: map<Id, seq<Id>>, outgoing: map<Id, seq<Id>>)
    requires forall e :: e in edges ==> e.task in nodes && e.dep in nodes
    ensures incoming.Keys == outgoing.Keys == ToSet(nodes)
    ensures forall v :: v in incoming ==> incoming[v] == Incoming(edges, v) && outgoing[v] == Outgoing(edges, v)
  {
    hide Incoming, Outgoing;
    incoming := map n | n in nodes :: [];
    outgoing := map n | n in nodes :: [];
    assert incoming.Keys == ToSet(nodes) == outgoing.Keys;
    NoRows();
    var i := 0;
    while i < |edges|
      invariant 0 <= i <= |edges|
      invariant incoming.Keys == outgoing.Keys == ToSet(nodes)
      invariant forall v :: v in incoming ==> incoming[v] == Incoming(edges[..i], v) && outgoing[v] == Outgoing(edges[..i], v)
    {
      var e := edges[i];
      assert e in edges;
      assert edges[..i + 1] == edges[..i] + [e];
      AppendRow(edges[..i], e);
      incoming := incoming[e.task := incoming[e.task] + [e.dep]];
      outgoing := outgoing[e.dep := outgoing[e.dep] + [e.task]];
      i := i + 1;
    }
    assert edges[..i] == edges;
  }

  lemma NoRows()
    ensures forall rows: seq<Edge>, v :: |rows| == 0 ==> Incoming(rows, v) == [] && Outgoing(rows, v) == []
  {
  }

  /** The inner loop: every dependent of `id` is pushed below it and loses one remaining in-degree. */
  method RelaxDependents(ghost ids: set<Id>, ghost rows: seq<Edge>, ghost done: set<Id>, id: Id, outs: seq<Id>,
                         queue: seq<Id>, remaining: map<Id, nat>, depth: map<Id, nat>, ghost F: set<Edge>)
    returns (queue': seq<Id>, remaining': map<Id, nat>, depth': map<Id, nat>)
    requires forall e :: e in rows ==> e.task in ids && e.dep in ids
    requires Relaxing(ids, rows, done, queue, remaining, depth, F, id, multiset(outs))
    ensures Between(ids, rows, done, queue', remaining', depth')
  {
    hide Between, Relaxing, ToSet;
    queue', remaining', depth' := queue, remaining, depth;
    ghost var G := F;
    ghost var left := multiset(outs);
    var k := 0;
    assert outs[0..] == outs;
    while k < |outs|
      invariant 0 <= k <= |outs| && left == multiset(outs[k..])
      invariant Relaxing(ids, rows, done, queue', remaining', depth', G, id, left)
    {
      var next := outs[k];
      k := k + 1;
      TakeOne(outs, k);
      left := multiset(outs[k..]);
      RelaxNext(ids, rows, done, queue', remaining', depth', G, id, next, left);
      G := G + {Edge(next, id)};
      depth' := depth'[next := Max(if next in depth' then depth'[next] else 0, depth'[id] + 1)];
      remaining' := remaining'[next := remaining'[next] - 1];
      queue' := if remaining'[next] == 0 then queue' + [next] else queue';
    }
    InnerDone(ids, rows, done, queue', remaining', depth', G, id);
  }

  /** Adjacency, in-degrees, and the roots at depth 0. */
  method Start(nodes: seq<Id>, edges: seq<Edge>)
    returns (outgoing: map<Id, seq<Id>>, remaining: map<Id, nat>, queue: seq<Id>, depth: map<Id, nat>)
    requires NoDup(nodes)
    requires forall e :: e in edges ==> e.task in nodes && e.dep in nodes
    ensures outgoing.Keys == ToSet(nodes) && forall v :: v in outgoing ==> outgoing[v] == Outgoing(edges, v)
    ensures Between(ToSet(nodes), edges, {}, queue, remaining, depth)
    ensures forall e :: e in edges ==> e.task in ToSet(nodes) && e.dep in ToSet(nodes)
  {
    hide Between, Outgoing, Incoming, NoDup;
    var incoming;
    incoming, outgoing := Adjacency(nodes, edges);
    remaining := map n | n in nodes :: |incoming[n]|;
    queue := Roots(nodes, remaining);
    depth := map n | n in queue :: 0;
    StartPass(nodes, edges, remaining, queue, depth);
  }

  /** The pass over all nodes with its fallback for unprocessed ones. */
  method Depths(nodes: seq<Id>, edges: seq<Edge>) returns (depth: map<Id, nat>, processed: nat)
    requires NoDup(nodes)
    requires forall e :: e in edges ==> e.task in nodes && e.dep in nodes
    ensures DepthsAre(ToSet(nodes), ToSet(edges), depth)
    ensures processed == |Resolvable(ToSet(nodes), ToSet(edges))|
  {
    hide Between, DepthsAre, Resolvable, Reached, IsDepth, OneAboveDeps, NoDup, ToSet, Outgoing, EdgesFrom, Relaxing;
    ghost var ids := ToSet(nodes);
    var outgoing, remaining, queue;
    outgoing, remaining, queue, depth := Start(nodes, edges);
    processed := 0;
    ghost var done: set<Id> := {};
    while queue != []
      invariant Between(ids, edges, done, queue, remaining, depth) && processed == |done|
      decreases |ids - done|
    {
      var id := queue[0];
      Pop(ids, edges, done, queue, remaining, depth);
      ghost var F := EdgesFrom(ToSet(edges), done);
      done := done + {id};
      queue := queue[1..];
      processed := processed + 1;
      queue, remaining, depth := RelaxDependents(ids, edges, done, id, outgoing[id], queue, remaining, depth, F);
    }
    PassEnd(ids, edges, done, remaining, depth);
    depth := PlaceUnprocessed(nodes, edges, depth, processed);
  }

  lemma TakeOne(outs: seq<Id>, k: nat)
    requires 0 < k <= |outs|
    ensures multiset(outs[k - 1..]) == multiset(outs[k..]) + multiset{outs[k - 1]}
  {
    assert outs[k - 1..] == [outs[k - 1]] + outs[k..];
  }

  function Roots(nodes: seq<Id>, remaining: map<Id, nat>): (r: seq<Id>)
    requires ToSet(nodes) <= remaining.Keys
  {
    if nodes == [] then []
    else
      var n := |nodes| - 1;
      assert ToSet(nodes[..n]) <= ToSet(nodes) && nodes[n] in ToSet(nodes);
      Roots(nodes[..n], remaining) + if remaining[nodes[n]] == 0 then [nodes[n]] else []
  }

  lemma {:induction false} RootsMembers(nodes: seq<Id>, remaining: map<Id, nat>)
    requires ToSet(nodes) <= remaining.Keys && NoDup(nodes)
    ensures NoDup(Roots(nodes, remaining))
    ensures forall v :: v in Roots(nodes, remaining) <==> v in nodes && remaining[v] == 0
  {
    if nodes != [] {
      var n := |nodes| - 1;
      assert ToSet(nodes[..n]) <= ToSet(nodes) && nodes[n] in ToSet(nodes);
      RootsMembers(nodes[..n], remaining);
      assert nodes == nodes[..n] + [nodes[n]];
      if remaining[nodes[n]] == 0 {
        NoDupAppend(Roots(nodes[..n], remaining), nodes[n]);
      }
    }
  }

  lemma StartPass(nodes: seq<Id>, edges: seq<Edge>, remaining: map<Id, nat>, queue: seq<Id>, depth: map<Id, nat>)
    requires NoDup(nodes) && forall e :: e in edges ==> e.task in nodes && e.dep in nodes
    requires remaining == map n | n in nodes :: |Incoming(edges, n)|
    requires queue == Roots(nodes, remaining) && depth == map n | n in queue :: 0
    ensures Between(ToSet(nodes), edges, {}, queue, remaining, depth)
  {
    var ids, E := ToSet(nodes), ToSet(edges);
    assert remaining.Keys == ids;
    RootsMembers(nodes, remaining);
    assert EdgesFrom(E, {}) == {};
    forall v | v in ids
      ensures remaining[v] == Waiting(edges, {}, v) && (v in queue <==> IsRoot(E, v))
    {
      IncomingCount(edges, v);
      WaitingZero(edges, {}, v);
    }
  }

  /** The largest value in a map, and 0 at least. */
  method MaxDepth(depth: map<Id, nat>) returns (n: nat)
    ensures IsMaxOver(depth.Keys, depth, n)
  {
    n := 0;
    var rest := depth.Keys;
    while rest != {}
      invariant rest <= depth.Keys
      invariant IsMaxOver(depth.Keys - rest, depth, n)
      decreases |rest|
    {
      var v :| v in rest;
      n := Max(n, depth[v]);
      rest := rest - {v};
    }
    assert depth.Keys - rest == depth.Keys;
  }

  method PlaceUnprocessed(nodes: seq<Id>, ghost edges: seq<Edge>, partial: map<Id, nat>, processed: nat)
    returns (depth: map<Id, nat>)
    requires var ids, E := ToSet(nodes), ToSet(edges);
             && NoDup(nodes) && processed == |Resolvable(ids, E)| && partial.Keys == Reached(ids, E)
             && (forall v :: v in Resolvable(ids, E) ==> v in partial && IsDepth(E, v, partial[v]))
             && (forall v :: v in partial && v !in Resolvable(ids, E) ==> OneAboveDeps(E, Resolvable(ids, E), partial, v, partial[v]))
    ensures DepthsAre(ToSet(nodes), ToSet(edges), depth)
  {
    hide IsDepth, WaitsForCycle, NoDup, DepthsAre, OneAboveDeps;
    ghost var ids, E := ToSet(nodes), ToSet(edges);
    CardIffNoDup(nodes);
    CardSubset(Resolvable(ids, E), ids);
    depth := partial;
    if processed < |nodes| {
      var maxDepth := MaxDepth(depth);
      depth := map n | n in nodes :: if n in partial then partial[n] else maxDepth + 1;
      assert depth.Keys == ids;
      Placed(ids, E, partial, maxDepth, depth);
    } else {
      assert partial.Keys == ids;
      Placed(ids, E, partial, 0, depth);
    }
  }

  lemma Placed(ids: set<Id>, E: set<Edge>, partial: map<Id, nat>, n: nat, depth: map<Id, nat>)
    requires partial.Keys == Reached(ids, E) && depth.Keys == ids
    requires forall v :: v in Resolvable(ids, E) ==> v in partial && IsDepth(E, v, partial[v])
    requires forall v :: v in partial && v !in Resolvable(ids, E) ==> OneAboveDeps(E, Resolvable(ids, E), partial, v, partial[v])
    requires forall v :: v in ids ==> depth[v] == if v in partial then partial[v] else n + 1
    requires partial.Keys == ids || IsMaxOver(partial.Keys, partial, n)
    ensures DepthsAre(ids, E, depth)
  {
    hide IsDepth, WaitsForCycle;
    var R := Resolvable(ids, E);
    forall v | v in Reached(ids, E) && v !in R ensures OneAboveDeps(E, R, depth, v, depth[v]) {
      assert OneAboveDeps(E, R, partial, v, partial[v]);
    }
    forall v | v in ids && v !in Reached(ids, E) ensures depth[v] > 0 && IsMaxOver(Reached(ids, E), depth, depth[v] - 1) {
      assert depth[v] == n + 1;
    }
  }

  // ---- what the depths mean ----

  /** The node count is reached exactly on acyclic input. */
  lemma ProcessedAllIffAcyclic(ids: set<Id>, E: set<Edge>)
    requires forall e :: e in E ==> e.task in ids && e.dep in ids
    ensures |Resolvable(ids, E)| == |ids| <==> Acyclic(E)
  {
    var R := Resolvable(ids, E);
    CardSubset(R, ids);
    if |R| == |ids| {
      forall a ensures !OnCycle(E, a) {
        ReachesSelf(E, a);
        if a in ids {
          assert !WaitsForCycle(E, a) by { assert a in R; }
        }
      }
    }
    if Acyclic(E) {
      assert R == ids;
    }
  }

  /** On acyclic input every node sits at its longest-path depth. */
  lemma AcyclicDepthsExact(ids: set<Id>, E: set<Edge>, depth: map<Id, nat>, v: Id)
    requires DepthsAre(ids, E, depth) && Acyclic(E) && v in ids
    ensures IsDepth(E, v, depth[v])
  {
    assert v in Resolvable(ids, E);
  }

  lemma DepGivesPath(E: set<Edge>, t: Id, d: Id, m: nat, n: nat)
    requires Edge(t, d) in E && IsDepth(E, d, m) && IsDepth(E, t, n)
    ensures m < n
  {
    var p :| IsPath(E, p) && p[0] == d && |p| == m + 1;
    var q := [t] + p;
    forall i | 0 < i < |q| ensures Linked(E, q, i) {
      if i > 1 {
        assert Linked(E, p, i - 1);
      }
    }
    assert IsPath(E, q) && q[0] == t;
  }

  /** A dependent of a resolved node is always at least one layer further. */
  lemma ResolvedDepBelow(ids: set<Id>, E: set<Edge>, depth: map<Id, nat>, t: Id, d: Id)
    requires DepthsAre(ids, E, depth) && Edge(t, d) in E && t in ids && d in Resolvable(ids, E)
    ensures depth[d] < depth[t]
  {
    hide WaitsForCycle, IsDepth;
    if t in Resolvable(ids, E) {
      DepGivesPath(E, t, d, depth[d], depth[t]);
    } else {
      assert Touched(E, Resolvable(ids, E), t);
      assert OneAboveDeps(E, Resolvable(ids, E), depth, t, depth[t]);
    }
  }

  /** The layer the comment in the source promises for unresolved nodes: one past the deepest resolved one. */
  ghost predicate AllUnresolvedJustPast(ids: set<Id>, E: set<Edge>, depth: map<Id, nat>, deepest: nat)
    requires depth.Keys == ids
  {
    forall v :: v in ids && v !in Resolvable(ids, E) ==> depth[v] == deepest + 1
  }

  /**
   That promise holds exactly when no unresolved node waits for a resolved one, or all of them
   wait for one of the deepest resolved nodes.
   */
  lemma UnresolvedJustPastIff(ids: set<Id>, E: set<Edge>, depth: map<Id, nat>, deepest: nat)
    requires DepthsAre(ids, E, depth) && IsMaxOver(Resolvable(ids, E), depth, deepest)
    ensures var R := Resolvable(ids, E);
            AllUnresolvedJustPast(ids, E, depth, deepest) <==>
              || (forall v :: v in ids && v !in R ==> !Touched(E, R, v))
              || (forall v :: v in ids && v !in R ==> WaitsForDeepest(E, R, depth, v, deepest))
  {
    hide IsDepth, WaitsForCycle;
    var R := Resolvable(ids, E);
    forall v | v in ids && v !in R && Touched(E, R, v)
      ensures depth[v] <= deepest + 1 && (depth[v] == deepest + 1 <==> WaitsForDeepest(E, R, depth, v, deepest))
    {
      TouchedDepth(ids, E, depth, deepest, v);
    }
    forall v | v in ids && v !in R && !Touched(E, R, v)
      ensures !WaitsForDeepest(E, R, depth, v, deepest) && depth[v] > 0
              && IsMaxOver(Reached(ids, E), depth, depth[v] - 1)
    {
    }
    if forall v :: v in ids && v !in R ==> !Touched(E, R, v) {
      assert Reached(ids, E) == R;
      forall v | v in ids && v !in R ensures depth[v] == deepest + 1 {
        assert IsMaxOver(R, depth, depth[v] - 1);
      }
    } else if AllUnresolvedJustPast(ids, E, depth, deepest) {
      var w :| w in ids && w !in R && Touched(E, R, w);
      assert w in Reached(ids, E) && depth[w] == deepest + 1;
      forall v | v in ids && v !in R ensures WaitsForDeepest(E, R, depth, v, deepest) {
        if !Touched(E, R, v) {
          UntouchedPast(ids, E, depth, v, w);
        }
      }
    }
  }

  /** A node nothing resolved leads to lies past every node the pass reached. */
  lemma UntouchedPast(ids: set<Id>, E: set<Edge>, depth: map<Id, nat>, v: Id, w: Id)
    requires DepthsAre(ids, E, depth) && w in Reached(ids, E) && v in ids && v !in Reached(ids, E)
    ensures depth[w] < depth[v]
  {
    assert IsMaxOver(Reached(ids, E), depth, depth[v] - 1);
  }

  ghost predicate WaitsForDeepest(E: set<Edge>, R: set<Id>, depth: map<Id, nat>, v: Id, deepest: nat) {
    exists d :: d in R && Edge(v, d) in E && d in depth && depth[d] == deepest
  }

  lemma TouchedDepth(ids: set<Id>, E: set<Edge>, depth: map<Id, nat>, deepest: nat, v: Id)
    requires DepthsAre(ids, E, depth) && IsMaxOver(Resolvable(ids, E), depth, deepest)
    requires v in ids && v !in Resolvable(ids, E) && Touched(E, Resolvable(ids, E), v)
    ensures depth[v] <= deepest + 1 && (depth[v] == deepest + 1 <==> WaitsForDeepest(E, Resolvable(ids, E), depth, v, deepest))
  {
    hide IsDepth, WaitsForCycle;
    assert OneAboveDeps(E, Resolvable(ids, E), depth, v, depth[v]);
  }

  /** x and y wait for each other and x for the root r: x lies one past r as promised, y another layer on. */
  lemma UnresolvedNotJustPast(r: Id, x: Id, y: Id, depth: map<Id, nat>)
    requires r != x && r != y && x != y
    requires DepthsAre({r, x, y}, {Edge(x, r), Edge(x, y), Edge(y, x)}, depth)
    ensures Resolvable({r, x, y}, {Edge(x, r), Edge(x, y), Edge(y, x)}) == {r}
    ensures depth[r] == 0 && depth[x] == 1 && depth[y] == 2
  {
    var ids, E := {r, x, y}, {Edge(x, r), Edge(x, y), Edge(y, x)};
    OnlyRootResolves(r, x, y);
    DepthUnique(E, r, 0, depth[r]);
    hide IsDepth, WaitsForCycle;
    assert Touched(E, {r}, x);
    assert Reached(ids, E) == {r, x};
    assert OneAboveDeps(E, {r}, depth, x, depth[x]);
    assert IsMaxOver({r, x}, depth, depth[y] - 1);
  }

  lemma OnlyRootResolves(r: Id, x: Id, y: Id)
    requires r != x && r != y && x != y
    ensures var E := {Edge(x, r), Edge(x, y), Edge(y, x)};
            Resolvable({r, x, y}, E) == {r} && IsDepth(E, r, 0)
  {
    var E := {Edge(x, r), Edge(x, y), Edge(y, x)};
    LevelsAreDepths(E, {r}, map[r := 0], r);
    ReachesEdge(E, x, y);
    ReachesEdge(E, y, x);
    ReachesSelf(E, x);
    assert OnCycle(E, x);
    assert WaitsForCycle(E, x) && WaitsForCycle(E, y);
  }
}
