/**
 Paths, cycles and longest paths in a finite dependency graph.
 An edge (task, dep) says that `task` waits for `dep`; a path follows edges from task to dep.
 */
module Graph {
  import opened Collections

  datatype Edge = Edge(task: Id, dep: Id)

  ghost predicate Linked(E: set<Edge>, p: seq<Id>, i: int)
    requires 0 < i < |p|
  {
    Edge(p[i - 1], p[i]) in E
  }

  ghost predicate IsPath(E: set<Edge>, p: seq<Id>) {
    |p| > 0 && forall i :: 0 < i < |p| ==> Linked(E, p, i)
  }

  ghost predicate PathBetween(E: set<Edge>, p: seq<Id>, a: Id, b: Id) {
    IsPath(E, p) && p[0] == a && p[|p| - 1] == b
  }

  ghost predicate Reaches(E: set<Edge>, a: Id, b: Id) {
    exists p :: PathBetween(E, p, a, b)
  }

  ghost predicate OnCycle(E: set<Edge>, a: Id) {
    exists b :: Edge(a, b) in E && Reaches(E, b, a)
  }

  ghost predicate Acyclic(E: set<Edge>) {
    forall a :: !OnCycle(E, a)
  }

  /** The tasks whose waiting never bottoms out: they wait, directly or not, for a cycle. */
  ghost predicate WaitsForCycle(E: set<Edge>, a: Id) {
    exists c :: Reaches(E, a, c) && OnCycle(E, c)
  }

  ghost predicate IsRoot(E: set<Edge>, a: Id) {
    forall d :: Edge(a, d) !in E
  }

  // ---- paths ----

  lemma ReachesSelf(E: set<Edge>, a: Id)
    ensures Reaches(E, a, a)
  {
    assert PathBetween(E, [a], a, a);
  }

  lemma ReachesTrans(E: set<Edge>, a: Id, b: Id, c: Id)
    requires Reaches(E, a, b) && Reaches(E, b, c)
    ensures Reaches(E, a, c)
  {
    var p :| PathBetween(E, p, a, b);
    var q :| PathBetween(E, q, b, c);
    var r := p + q[1..];
    forall i | 0 < i < |r| ensures Linked(E, r, i) {
      if i < |p| {
        assert Linked(E, p, i);
      } else {
        assert Linked(E, q, i - |p| + 1);
      }
    }
    assert PathBetween(E, r, a, c);
  }

  lemma ReachesEdge(E: set<Edge>, a: Id, b: Id)
    requires Edge(a, b) in E
    ensures Reaches(E, a, b)
  {
    assert PathBetween(E, [a, b], a, b);
  }

  lemma SubPath(E: set<Edge>, p: seq<Id>, i: nat, j: nat)
    requires IsPath(E, p) && i <= j < |p|
    ensures Reaches(E, p[i], p[j])
  {
    var q := p[i..j + 1];
    forall k | 0 < k < |q| ensures Linked(E, q, k) {
      assert Linked(E, p, i + k);
    }
    assert PathBetween(E, q, p[i], p[j]);
  }

  /** A path that repeats a task runs through a cycle there. */
  lemma RepeatIsCycle(E: set<Edge>, p: seq<Id>, i: nat, j: nat)
    requires IsPath(E, p) && i < j < |p| && p[i] == p[j]
    ensures OnCycle(E, p[i])
  {
    SubPath(E, p, i + 1, j);
    assert Linked(E, p, i + 1);
  }

  /** A proper first step: any path to somewhere else starts with an edge. */
  lemma FirstStep(E: set<Edge>, a: Id, b: Id) returns (c: Id)
    requires Reaches(E, a, b) && a != b
    ensures Edge(a, c) in E && Reaches(E, c, b)
  {
    var p :| PathBetween(E, p, a, b);
    c := p[1];
    assert Linked(E, p, 1);
    SubPath(E, p, 1, |p| - 1);
  }

  /** A set closed under `waits for` keeps every path that starts in it. */
  lemma {:induction false} ClosedPath(E: set<Edge>, S: set<Id>, p: seq<Id>, k: nat)
    requires IsPath(E, p) && p[0] in S && k < |p|
    requires forall e :: e in E && e.task in S ==> e.dep in S
    ensures p[k] in S
  {
    if k > 0 {
      ClosedPath(E, S, p, k - 1);
      assert Linked(E, p, k);
    }
  }

  lemma ClosedReaches(E: set<Edge>, S: set<Id>, a: Id, b: Id)
    requires Reaches(E, a, b) && a in S
    requires forall e :: e in E && e.task in S ==> e.dep in S
    ensures b in S
  {
    var p :| PathBetween(E, p, a, b);
    ClosedPath(E, S, p, |p| - 1);
  }

  lemma PathMonotone(E: set<Edge>, F: set<Edge>, a: Id, b: Id)
    requires E <= F && Reaches(E, a, b)
    ensures Reaches(F, a, b)
  {
    var p :| PathBetween(E, p, a, b);
    forall i | 0 < i < |p| ensures Linked(F, p, i) {
      assert Linked(E, p, i);
    }
    assert PathBetween(F, p, a, b);
  }

  lemma AcyclicSubset(E: set<Edge>, F: set<Edge>)
    requires E <= F && Acyclic(F)
    ensures Acyclic(E)
  {
    forall a ensures !OnCycle(E, a) {
      if OnCycle(E, a) {
        var b :| Edge(a, b) in E && Reaches(E, b, a);
        PathMonotone(E, F, b, a);
        assert OnCycle(F, a);
      }
    }
  }

  /** A path of the enlarged graph either avoids the new edge or gives a path up to its start. */
  lemma NewEdgePath(E: set<Edge>, t: Id, d: Id, p: seq<Id>, a: Id, b: Id)
    requires PathBetween(E + {Edge(t, d)}, p, a, b)
    ensures Reaches(E, a, b) || (Reaches(E, a, t) && Reaches(E, d, b))
    decreases |p|
  {
    if |p| == 1 {
      ReachesSelf(E, a);
    } else {
      var F := E + {Edge(t, d)};
      var q := p[1..];
      assert Linked(F, p, 1);
      forall i | 0 < i < |q| ensures Linked(F, q, i) {
        assert Linked(F, p, i + 1);
      }
      NewEdgePath(E, t, d, q, q[0], b);
      if Edge(a, q[0]) in E {
        ReachesEdge(E, a, q[0]);
        if Reaches(E, q[0], b) {
          ReachesTrans(E, a, q[0], b);
        } else {
          ReachesTrans(E, a, q[0], t);
        }
      } else {
        ReachesSelf(E, t);
      }
    }
  }

  /** Adding (t, d) to an acyclic graph keeps it acyclic exactly when d does not already wait for t. */
  lemma AddEdgeAcyclic(E: set<Edge>, t: Id, d: Id)
    requires Acyclic(E)
    ensures Acyclic(E + {Edge(t, d)}) <==> !Reaches(E, d, t)
  {
    var F := E + {Edge(t, d)};
    if Reaches(E, d, t) {
      PathMonotone(E, F, d, t);
      assert Edge(t, d) in F;
      assert OnCycle(F, t);
    } else {
      forall a ensures !OnCycle(F, a) {
        if OnCycle(F, a) {
          var b :| Edge(a, b) in F && Reaches(F, b, a);
          var p :| PathBetween(F, p, b, a);
          NewEdgePath(E, t, d, p, b, a);
          if Edge(a, b) in E {
            assert !Reaches(E, b, a) by { assert !OnCycle(E, a); }
            ReachesEdge(E, a, b);
            ReachesTrans(E, a, b, t);
            ReachesTrans(E, d, a, t);
          }
        }
      }
    }
  }

  // ---- where waiting never bottoms out ----

  ghost predicate WaitsForMember(E: set<Edge>, T: set<Id>, v: Id) {
    exists d :: d in T && Edge(v, d) in E
  }

  /** Every member waits for a member. */
  ghost predicate Stuck(E: set<Edge>, T: set<Id>) {
    forall v {:trigger WaitsForMember(E, T, v)} :: v in T ==> WaitsForMember(E, T, v)
  }

  /** In a set where everyone waits for a member, arbitrarily long paths start anywhere. */
  lemma {:induction false} LongPath(E: set<Edge>, T: set<Id>, a: Id, n: nat) returns (p: seq<Id>)
    requires a in T
    requires Stuck(E, T)
    ensures IsPath(E, p) && p[0] == a && |p| == n + 1 && ToSet(p) <= T
    decreases n
  {
    if n == 0 {
      p := [a];
    } else {
      assert WaitsForMember(E, T, a);
      var d :| d in T && Edge(a, d) in E;
      var q := LongPath(E, T, d, n - 1);
      p := [a] + q;
      forall i | 0 < i < |p| ensures Linked(E, p, i) {
        if i > 1 {
          assert Linked(E, q, i - 1);
        }
      }
    }
  }

  lemma StuckSetWaitsForCycle(E: set<Edge>, T: set<Id>, a: Id)
    requires a in T
    requires Stuck(E, T)
    ensures WaitsForCycle(E, a)
  {
    var p := LongPath(E, T, a, |T|);
    var i, j := Pigeonhole(p, T);
    RepeatIsCycle(E, p, i, j);
    SubPath(E, p, 0, i);
  }

  // ---- longest paths ----

  /** n is the length, in edges, of the longest chain of dependencies below v. */
  ghost predicate IsDepth(E: set<Edge>, v: Id, n: nat) {
    && (exists p :: IsPath(E, p) && p[0] == v && |p| == n + 1)
    && (forall p :: IsPath(E, p) && p[0] == v ==> |p| <= n + 1)
  }

  lemma DepthUnique(E: set<Edge>, v: Id, m: nat, n: nat)
    requires IsDepth(E, v, m) && IsDepth(E, v, n)
    ensures m == n
  {
    var p :| IsPath(E, p) && p[0] == v && |p| == m + 1;
    var q :| IsPath(E, q) && q[0] == v && |q| == n + 1;
  }

  /**
   A numbering of S in which every task sits above all its dependencies and, unless it is 0,
   exactly one above some dependency.
   */
  ghost predicate Levels(E: set<Edge>, S: set<Id>, level: map<Id, nat>) {
    && S <= level.Keys
    && (forall v, d :: v in S && Edge(v, d) in E ==> d in S && level[d] < level[v])
    && (forall v :: v in S && level[v] > 0 ==> HasDepAt(E, S, level, v, level[v] - 1))
  }

  ghost predicate HasDepAt(E: set<Edge>, S: set<Id>, level: map<Id, nat>, v: Id, n: nat)
    requires S <= level.Keys
  {
    exists d :: d in S && Edge(v, d) in E && level[d] == n
  }

  lemma {:induction false} LevelsBound(E: set<Edge>, S: set<Id>, level: map<Id, nat>, p: seq<Id>, k: nat)
    requires Levels(E, S, level) && IsPath(E, p) && p[0] in S && k < |p|
    ensures p[k] in S && level[p[k]] + k <= level[p[0]]
  {
    if k > 0 {
      LevelsBound(E, S, level, p, k - 1);
      assert Linked(E, p, k);
    }
  }

  lemma {:induction false} LevelsPath(E: set<Edge>, S: set<Id>, level: map<Id, nat>, v: Id) returns (p: seq<Id>)
    requires Levels(E, S, level) && v in S
    ensures IsPath(E, p) && p[0] == v && |p| == level[v] + 1
    decreases level[v]
  {
    if level[v] == 0 {
      p := [v];
    } else {
      assert HasDepAt(E, S, level, v, level[v] - 1);
      var d :| d in S && Edge(v, d) in E && level[d] == level[v] - 1;
      var q := LevelsPath(E, S, level, d);
      p := [v] + q;
      forall i | 0 < i < |p| ensures Linked(E, p, i) {
        if i > 1 {
          assert Linked(E, q, i - 1);
        }
      }
    }
  }

  /** Such a numbering is the longest-path depth, and nothing it numbers waits for a cycle. */
  lemma LevelsAreDepths(E: set<Edge>, S: set<Id>, level: map<Id, nat>, v: Id)
    requires Levels(E, S, level) && v in S
    ensures IsDepth(E, v, level[v])
    ensures !WaitsForCycle(E, v)
  {
    var p := LevelsPath(E, S, level, v);
    forall q | IsPath(E, q) && q[0] == v ensures |q| <= level[v] + 1 {
      LevelsBound(E, S, level, q, |q| - 1);
    }
    if WaitsForCycle(E, v) {
      var c :| Reaches(E, v, c) && OnCycle(E, c);
      var q :| PathBetween(E, q, v, c);
      LevelsBound(E, S, level, q, |q| - 1);
      var b :| Edge(c, b) in E && Reaches(E, b, c);
      var r :| PathBetween(E, r, b, c);
      LevelsBound(E, S, level, r, |r| - 1);
    }
  }
}
