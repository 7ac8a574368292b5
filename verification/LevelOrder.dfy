/**
 When the sort is alphabetical within each level. The queue is FIFO, so inside a level tasks
 come out by the position of their last dependency first and by id only second.
 */
module LevelOrder {
  import opened Collections
  import opened Graph
  import opened TopologicalSort

  /** Of two emitted tasks on one level the earlier has the smaller id. */
  ghost predicate LevelsAlphabetical(r: seq<Id>, level: map<Id, nat>)
    requires ToSet(r) <= level.Keys
  {
    forall i, j {:trigger Less(r[i], r[j])} :: 0 <= i < j < |r| && level[r[i]] == level[r[j]] ==> Less(r[i], r[j])
  }

  /** y waits, one level down, for c or for a task after c in the alphabet. */
  ghost predicate WaitsAtOrAfter(E: set<Edge>, S: set<Id>, level: map<Id, nat>, y: Id, c: Id)
    requires S <= level.Keys && c in S
  {
    exists d :: d in S && Edge(y, d) in E && level[d] == level[c] && AtMost(c, d)
  }

  /**
   On each level alphabetical order agrees with the order of the alphabetically last
   dependency one level down. This is a property of the graph, not of a run.
   */
  ghost predicate LastDependenciesAgree(E: set<Edge>, S: set<Id>, level: map<Id, nat>)
    requires S <= level.Keys
  {
    forall x, y, c {:trigger Less(x, y), Edge(x, c)} ::
      x in S && y in S && c in S && level[x] == level[y] && Less(x, y) && Edge(x, c) in E && level[c] + 1 == level[x]
      ==> WaitsAtOrAfter(E, S, level, y, c)
  }

  /** The level numbering of the emitted tasks is unique, so it never falls along the order. */
  lemma LevelClimbs(E: set<Edge>, q: seq<Id>, level: map<Id, nat>)
    requires KahnOrder(E, q) && level.Keys == ToSet(q) && Levels(E, ToSet(q), level)
    ensures Climbs(q, level)
  {
    hide KahnOrder, Levels, IsDepth;
    var other := OrderLevels(E, q);
    assert level.Keys == other.Keys;
    forall v | v in ToSet(q) ensures level[v] == other[v] {
      LevelsAreDepths(E, ToSet(q), level, v);
      LevelsAreDepths(E, ToSet(q), other, v);
      DepthUnique(E, v, level[v], other[v]);
    }
    assert level == other;
  }

  /** The dependency that released x lies exactly one level down. */
  lemma ReleaseLevel(E: set<Edge>, q: seq<Id>, level: map<Id, nat>, i: nat)
    requires KahnOrder(E, q) && level.Keys == ToSet(q) && Levels(E, ToSet(q), level) && Climbs(q, level)
    requires i < |q|
    ensures level[q[i]] == 0 <==> Release(E, q, q[i]) == -1
    ensures level[q[i]] > 0 ==> level[q[Release(E, q, q[i])]] + 1 == level[q[i]]
  {
    var x := q[i];
    assert x in ToSet(q);
    var m := Release(E, q, x);
    if m >= 0 {
      assert Edge(x, q[m]) in E;
    }
    if level[x] > 0 {
      assert HasDepAt(E, ToSet(q), level, x, level[x] - 1);
      var d :| d in ToSet(q) && Edge(x, d) in E && level[d] == level[x] - 1;
      var k :| 0 <= k < |q| && q[k] == d;
      assert k <= m;
      assert NotAbove(level, q[k], q[m]);
    }
  }

  lemma AlphabeticalOnlyIf(E: set<Edge>, q: seq<Id>, level: map<Id, nat>, x: Id, y: Id, c: Id)
    requires KahnOrder(E, q) && level.Keys == ToSet(q) && Levels(E, ToSet(q), level) && Climbs(q, level)
    requires LevelsAlphabetical(q, level)
    requires x in q && y in q && c in q && level[x] == level[y] && Less(x, y) && Edge(x, c) in E && level[c] + 1 == level[x]
    ensures WaitsAtOrAfter(E, ToSet(q), level, y, c)
  {
    hide NoDup, DepsBefore, TextLess;
    var i :| 0 <= i < |q| && q[i] == x;
    var j :| 0 <= j < |q| && q[j] == y;
    var k :| 0 <= k < |q| && q[k] == c;
    LessTotal(x, y);
    var lo, hi := if i < j then i else j, if i < j then j else i;
    assert Less(q[lo], q[hi]);
    assert i < j;
    assert Precedes(E, q, q[i], q[j]);
    ReleaseLevel(E, q, level, j);
    var m := Release(E, q, y);
    var d := q[m];
    assert Edge(y, d) in E && d in ToSet(q);
    assert k <= Release(E, q, x) <= m;
    assert k < m ==> Less(q[k], q[m]);
    assert AtMost(c, d);
  }

  lemma {:induction false} AlphabeticalIf(E: set<Edge>, q: seq<Id>, level: map<Id, nat>, i: nat, j: nat)
    requires KahnOrder(E, q) && level.Keys == ToSet(q) && Levels(E, ToSet(q), level) && Climbs(q, level)
    requires LastDependenciesAgree(E, ToSet(q), level)
    requires i < j < |q| && level[q[i]] == level[q[j]]
    ensures Less(q[i], q[j])
    decreases j
  {
    var y, x := q[i], q[j];
    assert Precedes(E, q, q[i], q[j]);
    LessTotal(x, y);
    if Less(x, y) {
      ReleaseLevel(E, q, level, j);
      var m := Release(E, q, x);
      var c := q[m];
      assert Edge(x, c) in E && c in ToSet(q);
      assert WaitsAtOrAfter(E, ToSet(q), level, y, c);
      var d :| d in ToSet(q) && Edge(y, d) in E && level[d] == level[c] && AtMost(c, d);
      var k :| 0 <= k < |q| && q[k] == d;
      assert Edge(y, q[k]) in E;
      assert k <= Release(E, q, y) < m;
      ReleaseBelow(E, q, j);
      AlphabeticalIf(E, q, level, k, m);
      LessTotal(c, d);
    }
  }

  lemma ReleaseBelow(E: set<Edge>, q: seq<Id>, j: nat)
    requires KahnOrder(E, q) && j < |q|
    ensures Release(E, q, q[j]) < j
  {
    var x, s := q[j], q[..j];
    assert forall d :: Edge(x, d) in E ==> d in s;
    ReleasePrefix(E, q, j, x);
  }

  /** The emitted levels are alphabetical exactly when the last dependencies agree with the alphabet. */
  lemma AlphabeticalIffAgree(ids: set<Id>, E: set<Edge>, r: seq<Id>, level: map<Id, nat>)
    requires IsTopologicalSort(ids, E, r)
    requires level.Keys == Resolvable(ids, E) && Levels(E, Resolvable(ids, E), level)
    ensures LevelsAlphabetical(r[..|Resolvable(ids, E)|], level) <==> LastDependenciesAgree(E, Resolvable(ids, E), level)
  {
    var q := r[..|Resolvable(ids, E)|];
    LevelClimbs(E, q, level);
    if LevelsAlphabetical(q, level) {
      forall x, y, c | x in ToSet(q) && y in ToSet(q) && c in ToSet(q) && level[x] == level[y] && Less(x, y)
                       && Edge(x, c) in E && level[c] + 1 == level[x]
        ensures WaitsAtOrAfter(E, ToSet(q), level, y, c)
      {
        AlphabeticalOnlyIf(E, q, level, x, y, c);
      }
    }
    if LastDependenciesAgree(E, ToSet(q), level) {
      forall i, j | 0 <= i < j < |q| && level[q[i]] == level[q[j]] ensures Less(q[i], q[j]) {
        AlphabeticalIf(E, q, level, i, j);
      }
    }
  }

  /** Roots a and b, z waiting for a and c waiting for b: z leaves before c. */
  lemma NotAlphabetical(r: seq<Id>)
    requires IsTopologicalSort({Id("a"), Id("b"), Id("c"), Id("z")},
                               {Edge(Id("z"), Id("a")), Edge(Id("c"), Id("b"))}, r)
    ensures r == [Id("a"), Id("b"), Id("z"), Id("c")]
    ensures Less(Id("c"), Id("z"))
    ensures IsDepth({Edge(Id("z"), Id("a")), Edge(Id("c"), Id("b"))}, Id("c"), 1)
    ensures IsDepth({Edge(Id("z"), Id("a")), Edge(Id("c"), Id("b"))}, Id("z"), 1)
  {
    hide KahnOrder, IsDepth, Resolvable, NoDup;
    var a, b, c, z := Id("a"), Id("b"), Id("c"), Id("z");
    var ids, E, expected := {a, b, c, z}, {Edge(z, a), Edge(c, b)}, [a, b, z, c];
    SmallLevels(a, b, c, z);
    SmallOrder(a, b, c, z);
    assert NoDup(expected) by { KahnOrderHasNoDup(E, expected); }
    assert ToSet(expected) == ids;
    assert expected[..4] == expected && expected[4..] == [];
    assert |ids| == 4;
    assert IsTopologicalSort(ids, E, expected);
    SortIsUnique(ids, E, r, expected);
  }

  lemma KahnOrderHasNoDup(E: set<Edge>, r: seq<Id>)
    requires KahnOrder(E, r)
    ensures NoDup(r)
  {
  }

  lemma SmallLevels(a: Id, b: Id, c: Id, z: Id)
    requires a == Id("a") && b == Id("b") && c == Id("c") && z == Id("z")
    ensures var ids, E := {a, b, c, z}, {Edge(z, a), Edge(c, b)};
            Resolvable(ids, E) == ids && IsDepth(E, c, 1) && IsDepth(E, z, 1)
  {
    hide IsDepth, WaitsForCycle;
    var ids, E := {a, b, c, z}, {Edge(z, a), Edge(c, b)};
    var level := map[a := 0, b := 0, c := 1, z := 1];
    assert HasDepAt(E, ids, level, c, 0) && HasDepAt(E, ids, level, z, 0);
    assert Levels(E, ids, level);
    forall v | v in ids ensures IsDepth(E, v, level[v]) && !WaitsForCycle(E, v) {
      LevelsAreDepths(E, ids, level, v);
    }
  }

  lemma SmallOrder(a: Id, b: Id, c: Id, z: Id)
    requires a == Id("a") && b == Id("b") && c == Id("c") && z == Id("z")
    ensures KahnOrder({Edge(z, a), Edge(c, b)}, [a, b, z, c])
    ensures Less(c, z)
  {
    var E, q := {Edge(z, a), Edge(c, b)}, [a, b, z, c];
    assert Less(a, b) && Less(c, z);
    ReleaseIs(E, q, a, -1);
    ReleaseIs(E, q, b, -1);
    ReleaseIs(E, q, z, 0);
    ReleaseIs(E, q, c, 1);
    assert q[..2] == [a, b] && q[..3] == [a, b, z];
  }

  // ---- what the tail holds ----

  /** The tail is exactly the tasks that wait, directly or not, for a cycle. */
  lemma TailIs(ids: set<Id>, E: set<Edge>, r: seq<Id>, i: nat)
    requires IsTopologicalSort(ids, E, r) && i < |r|
    ensures |Resolvable(ids, E)| <= i <==> WaitsForCycle(E, r[i])
  {
    hide WaitsForCycle, KahnOrder, Ascending;
    var n := |Resolvable(ids, E)|;
    TopologicalSort.TailSet(r, n);
    assert r[i] in ToSet(r);
    if i < n {
      assert r[..n][i] == r[i] && r[i] in ToSet(r[..n]);
    } else {
      assert r[n..][i - n] == r[i] && r[i] in ToSet(r[n..]);
    }
  }

  /** Whoever waits for a task on a cycle is on one. */
  ghost predicate CyclesClosed(E: set<Edge>) {
    forall e :: e in E && OnCycle(E, e.dep) ==> OnCycle(E, e.task)
  }

  lemma {:induction false} BackAlongPath(E: set<Edge>, p: seq<Id>)
    requires CyclesClosed(E) && IsPath(E, p) && OnCycle(E, p[|p| - 1])
    ensures OnCycle(E, p[0])
    decreases |p|
  {
    hide OnCycle;
    if |p| > 1 {
      var n := |p| - 1;
      assert Linked(E, p, n);
      assert OnCycle(E, Edge(p[n - 1], p[n]).dep);
      forall i | 0 < i < n ensures Linked(E, p[..n], i) {
        assert Linked(E, p, i);
      }
      BackAlongPath(E, p[..n]);
    }
  }

  lemma CycleWaitsForItself(E: set<Edge>, e: Edge)
    requires e in E && OnCycle(E, e.dep)
    ensures WaitsForCycle(E, e.task)
  {
    hide OnCycle;
    ReachesEdge(E, e.task, e.dep);
  }

  /** The tail holds cycle members only exactly when nobody else waits for one. */
  lemma TailIsCyclesIff(ids: set<Id>, E: set<Edge>, r: seq<Id>)
    requires IsTopologicalSort(ids, E, r)
    requires forall e :: e in E ==> e.task in ids && e.dep in ids
    ensures (forall i :: |Resolvable(ids, E)| <= i < |r| ==> OnCycle(E, r[i])) <==> CyclesClosed(E)
  {
    hide OnCycle, Resolvable, KahnOrder, Ascending;
    var n := |Resolvable(ids, E)|;
    if forall i :: n <= i < |r| ==> OnCycle(E, r[i]) {
      forall e | e in E && OnCycle(E, e.dep) ensures OnCycle(E, e.task) {
        assert e.task in ToSet(r);
        var i :| 0 <= i < |r| && r[i] == e.task;
        CycleWaitsForItself(E, e);
        TailIs(ids, E, r, i);
      }
    }
    if CyclesClosed(E) {
      forall i | n <= i < |r| ensures OnCycle(E, r[i]) {
        TailIs(ids, E, r, i);
        var c :| Reaches(E, r[i], c) && OnCycle(E, c);
        var p :| PathBetween(E, p, r[i], c);
        BackAlongPath(E, p);
      }
    }
  }

  /** a and b wait for each other and c waits for a: all three are in the tail, and c is on no cycle. */
  lemma TailHoldsMore(r: seq<Id>)
    requires IsTopologicalSort({Id("a"), Id("b"), Id("c")},
                               {Edge(Id("a"), Id("b")), Edge(Id("b"), Id("a")), Edge(Id("c"), Id("a"))}, r)
    ensures Resolvable({Id("a"), Id("b"), Id("c")},
                       {Edge(Id("a"), Id("b")), Edge(Id("b"), Id("a")), Edge(Id("c"), Id("a"))}) == {}
    ensures !OnCycle({Edge(Id("a"), Id("b")), Edge(Id("b"), Id("a")), Edge(Id("c"), Id("a"))}, Id("c"))
  {
    var a, b, c := Id("a"), Id("b"), Id("c");
    WaitingOutside(a, b, c);
  }

  lemma WaitingOutside(a: Id, b: Id, c: Id)
    requires a != b && a != c && b != c
    ensures var E := {Edge(a, b), Edge(b, a), Edge(c, a)};
            !OnCycle(E, c) && WaitsForCycle(E, a) && WaitsForCycle(E, b) && WaitsForCycle(E, c)
  {
    var E := {Edge(a, b), Edge(b, a), Edge(c, a)};
    ReachesEdge(E, a, b);
    ReachesEdge(E, b, a);
    ReachesEdge(E, c, a);
    ReachesSelf(E, a);
    assert OnCycle(E, a);
    if Reaches(E, a, c) {
      ClosedReaches(E, {a, b}, a, c);
    }
  }
}
