/** Kahn's algorithm with a FIFO queue, as `topological_sort` runs it. */
module TopologicalSort {
  import opened Collections
  import opened Graph
  import opened Rows

  /** The position in r of the last task x waits for; -1 when it waits for none of them. */
  ghost function Release(E: set<Edge>, r: seq<Id>, x: Id): (m: int)
    ensures -1 <= m < |r|
    ensures m >= 0 ==> Edge(x, r[m]) in E
    ensures forall k :: m < k < |r| ==> Edge(x, r[k]) !in E
  {
    if r == [] then -1
    else if Edge(x, r[|r| - 1]) in E then |r| - 1
    else Release(E, r[..|r| - 1], x)
  }

  /** x leaves the queue before y: its last dependency was finished earlier, or the ids decide. */
  ghost predicate Precedes(E: set<Edge>, r: seq<Id>, x: Id, y: Id) {
    || Release(E, r, x) < Release(E, r, y)
    || (Release(E, r, x) == Release(E, r, y) && Less(x, y))
  }

  ghost predicate DepsBefore(E: set<Edge>, r: seq<Id>, n: nat)
    requires n <= |r|
  {
    forall i, d :: 0 <= i < n && Edge(r[i], d) in E ==> d in r[..i]
  }

  ghost predicate KahnOrder(E: set<Edge>, r: seq<Id>) {
    && NoDup(r)
    && DepsBefore(E, r, |r|)
    && forall i, j {:trigger Precedes(E, r, r[i], r[j])} :: 0 <= i < j < |r| ==> Precedes(E, r, r[i], r[j])
  }

  /** The tasks Kahn's loop can emit. */
  ghost function Resolvable(ids: set<Id>, E: set<Edge>): set<Id> {
    set v | v in ids && !WaitsForCycle(E, v)
  }

  /** Resolvable tasks in Kahn order, then all others by id. */
  ghost predicate IsTopologicalSort(ids: set<Id>, E: set<Edge>, r: seq<Id>) {
    var n := |Resolvable(ids, E)|;
    && NoDup(r) && ToSet(r) == ids
    && n <= |r|
    && ToSet(r[..n]) == Resolvable(ids, E)
    && KahnOrder(E, r[..n])
    && Ascending(r[n..])
  }

  lemma ReleaseIs(E: set<Edge>, r: seq<Id>, x: Id, m: int)
    requires -1 <= m < |r| && (m >= 0 ==> Edge(x, r[m]) in E)
    requires forall k :: m < k < |r| ==> Edge(x, r[k]) !in E
    ensures Release(E, r, x) == m
  {
    var q := Release(E, r, x);
    if 0 <= q {
      assert Edge(x, r[q]) in E;
    }
  }

  /** Tasks after the dependencies of x do not change when x was released. */
  lemma ReleasePrefix(E: set<Edge>, r: seq<Id>, n: nat, x: Id)
    requires NoDup(r) && n <= |r|
    requires forall d :: Edge(x, d) in E ==> d in r[..n]
    ensures Release(E, r, x) == Release(E, r[..n], x) < n
  {
    var m := Release(E, r[..n], x);
    forall k | m < k < |r| ensures Edge(x, r[k]) !in E {
      if k < n {
        assert r[k] == r[..n][k];
      }
    }
    ReleaseIs(E, r, x, m);
  }

  lemma KahnOrderPrefix(E: set<Edge>, r: seq<Id>, n: nat)
    requires KahnOrder(E, r) && n <= |r|
    ensures KahnOrder(E, r[..n])
  {
    var q := r[..n];
    forall i | 0 <= i < n ensures q[..i] == r[..i] && Release(E, r, r[i]) == Release(E, q, r[i]) {
      forall d | Edge(r[i], d) in E ensures d in q {
        assert d in r[..i];
      }
      ReleasePrefix(E, r, n, r[i]);
    }
    forall i, j | 0 <= i < j < n ensures Precedes(E, q, q[i], q[j]) {
      assert Precedes(E, r, r[i], r[j]);
    }
  }

  // ---- depth along the order ----

  ghost predicate NotAbove(level: map<Id, nat>, a: Id, b: Id)
    requires a in level && b in level
  {
    level[a] <= level[b]
  }

  ghost predicate Climbs(r: seq<Id>, level: map<Id, nat>)
    requires ToSet(r) <= level.Keys
  {
    forall i, j {:trigger NotAbove(level, r[i], r[j])} :: 0 <= i <= j < |r| ==> NotAbove(level, r[i], r[j])
  }

  /** The order fixes a level for every task, and levels never fall along it. */
  lemma {:induction false} OrderLevels(E: set<Edge>, r: seq<Id>) returns (level: map<Id, nat>)
    requires KahnOrder(E, r)
    ensures level.Keys == ToSet(r) && Levels(E, ToSet(r), level) && Climbs(r, level)
    decreases |r|
  {
    if r == [] {
      level := map[];
    } else {
      var n := |r| - 1;
      KahnOrderPrefix(E, r, n);
      var lower := OrderLevels(E, r[..n]);
      level := OneMoreLevel(E, r, lower);
    }
  }

  lemma OneMoreLevel(E: set<Edge>, r: seq<Id>, lower: map<Id, nat>) returns (level: map<Id, nat>)
    requires KahnOrder(E, r) && |r| > 0
    requires var q := r[..|r| - 1]; lower.Keys == ToSet(q) && Levels(E, ToSet(q), lower) && Climbs(q, lower)
    ensures level.Keys == ToSet(r) && Levels(E, ToSet(r), level) && Climbs(r, level)
  {
    hide KahnOrder, Levels, Climbs, HasDepAt, Released, ToSet;
    var n := |r| - 1;
    var q, x := r[..n], r[n];
    assert r == q + [x];
    ToSetAppend(q, x);
    var top := Released(E, q, x, lower);
    TopLevel(E, r, lower);
    LastLevel(E, r, lower);
    level := ExtendLevels(E, ToSet(q), lower, x, top);
    ClimbsOn(q, x, lower, level);
  }

  /** One above the dependency that released x; 0 for a root. */
  ghost function Released(E: set<Edge>, q: seq<Id>, x: Id, lower: map<Id, nat>): nat
    requires ToSet(q) <= lower.Keys
  {
    var m := Release(E, q, x);
    if m == -1 then 0 else lower[q[m]] + 1
  }

  lemma LastRelease(E: set<Edge>, r: seq<Id>)
    requires KahnOrder(E, r) && |r| > 0
    ensures var n := |r| - 1; Release(E, r, r[n]) == Release(E, r[..n], r[n])
    ensures var x, q := r[|r| - 1], r[..|r| - 1]; forall d :: Edge(x, d) in E ==> d in q
  {
    var n := |r| - 1;
    assert forall d :: Edge(r[n], d) in E ==> d in r[..n];
    ReleasePrefix(E, r, n, r[n]);
  }

  /** That level is above all its dependencies and one above some, if there are any. */
  lemma TopLevel(E: set<Edge>, r: seq<Id>, lower: map<Id, nat>)
    requires KahnOrder(E, r) && |r| > 0
    requires lower.Keys == ToSet(r[..|r| - 1]) && Climbs(r[..|r| - 1], lower)
    ensures var q, x := r[..|r| - 1], r[|r| - 1];
            var top := Released(E, q, x, lower);
            && x !in q && x !in ToSet(q)
            && (top > 0 ==> HasDepAt(E, ToSet(q), lower, x, top - 1))
            && (forall d :: Edge(x, d) in E ==> d in ToSet(q) && lower[d] < top)
  {
    var n := |r| - 1;
    var q, x := r[..n], r[n];
    LastRelease(E, r);
    var m := Release(E, q, x);
    forall d | Edge(x, d) in E ensures d in ToSet(q) && m >= 0 && lower[d] <= lower[q[m]] {
      var k :| 0 <= k < n && q[k] == d;
      assert k <= m by { assert Edge(x, q[k]) in E; }
      assert NotAbove(lower, q[k], q[m]);
    }
  }

  /** The new task is at least as deep as the one before it, which was released no later. */
  lemma LastLevel(E: set<Edge>, r: seq<Id>, lower: map<Id, nat>)
    requires KahnOrder(E, r) && |r| > 0
    requires lower.Keys == ToSet(r[..|r| - 1]) && Levels(E, ToSet(r[..|r| - 1]), lower) && Climbs(r[..|r| - 1], lower)
    ensures |r| > 1 ==> lower[r[..|r| - 1][|r| - 2]] <= Released(E, r[..|r| - 1], r[|r| - 1], lower)
  {
    if |r| > 1 {
      var n := |r| - 1;
      var q, x, y := r[..n], r[n], r[n - 1];
      LastRelease(E, r);
      assert Precedes(E, r, y, x);
      if lower[y] > 0 {
        hide NoDup, DepsBefore;
        assert HasDepAt(E, ToSet(q), lower, y, lower[y] - 1);
        var d :| d in ToSet(q) && Edge(y, d) in E && lower[d] == lower[y] - 1;
        var k :| 0 <= k < n && q[k] == d;
        assert Edge(y, r[k]) in E;
        assert k <= Release(E, r, y) <= Release(E, q, x);
        assert NotAbove(lower, q[k], q[Release(E, q, x)]);
      }
    }
  }

  lemma ExtendLevels(E: set<Edge>, S: set<Id>, lower: map<Id, nat>, x: Id, top: nat) returns (level: map<Id, nat>)
    requires lower.Keys == S && Levels(E, S, lower) && x !in S
    requires forall d :: Edge(x, d) in E ==> d in S && lower[d] < top
    requires top > 0 ==> HasDepAt(E, S, lower, x, top - 1)
    ensures level == lower[x := top] && Levels(E, S + {x}, level)
  {
    level := lower[x := top];
    var T := S + {x};
    forall v | v in T && level[v] > 0 ensures HasDepAt(E, T, level, v, level[v] - 1) {
      assert HasDepAt(E, S, lower, v, level[v] - 1);
      var d :| d in S && Edge(v, d) in E && lower[d] == level[v] - 1;
    }
  }

  lemma ClimbsOn(q: seq<Id>, x: Id, lower: map<Id, nat>, level: map<Id, nat>)
    requires lower.Keys == ToSet(q) && Climbs(q, lower) && x !in q
    requires level.Keys == ToSet(q + [x]) && (forall y :: y in q ==> level[y] == lower[y])
    requires |q| > 0 ==> lower[q[|q| - 1]] <= level[x]
    ensures Climbs(q + [x], level)
  {
    var r, n := q + [x], |q|;
    forall i, j | 0 <= i <= j < |r| ensures NotAbove(level, r[i], r[j]) {
      if j < n {
        assert NotAbove(lower, q[i], q[j]);
      } else if i < n {
        assert NotAbove(lower, q[i], q[n - 1]);
      }
    }
  }

  /** Depths never fall along the emitted part: levels are contiguous and roots come first. */
  lemma DepthNeverFalls(ids: set<Id>, E: set<Edge>, r: seq<Id>, i: nat, j: nat, m: nat, n: nat)
    requires IsTopologicalSort(ids, E, r)
    requires i < j < |Resolvable(ids, E)|
    requires IsDepth(E, r[i], m) && IsDepth(E, r[j], n)
    ensures m <= n
  {
    var q := r[..|Resolvable(ids, E)|];
    var level := OrderLevels(E, q);
    LevelsAreDepths(E, ToSet(q), level, q[i]);
    LevelsAreDepths(E, ToSet(q), level, q[j]);
    assert NotAbove(level, q[i], q[j]);
    DepthUnique(E, q[i], m, level[q[i]]);
    DepthUnique(E, q[j], n, level[q[j]]);
  }

  /** Every emitted task has a longest-path depth, so DepthNeverFalls speaks of all of them. */
  lemma EmittedHaveDepth(ids: set<Id>, E: set<Edge>, r: seq<Id>, i: nat) returns (n: nat)
    requires IsTopologicalSort(ids, E, r) && i < |Resolvable(ids, E)|
    ensures IsDepth(E, r[i], n)
  {
    var q := r[..|Resolvable(ids, E)|];
    var level := OrderLevels(E, q);
    LevelsAreDepths(E, ToSet(q), level, q[i]);
    n := level[q[i]];
  }

  /** Roots come first, by id. */
  lemma RootsFirst(ids: set<Id>, E: set<Edge>, r: seq<Id>, i: nat, j: nat)
    requires IsTopologicalSort(ids, E, r) && i < j < |r| && r[j] in ids && IsRoot(E, r[j])
    ensures j < |Resolvable(ids, E)|
    ensures IsRoot(E, r[i]) && Less(r[i], r[j])
  {
    var n := |Resolvable(ids, E)|;
    var q := r[..n];
    if WaitsForCycle(E, r[j]) {
      var c :| Reaches(E, r[j], c) && OnCycle(E, c);
      if c != r[j] {
        var b := FirstStep(E, r[j], c);
      }
    }
    assert r[j] in Resolvable(ids, E);
    var k :| 0 <= k < n && q[k] == r[j];
    assert k == j;
    assert Precedes(E, q, q[i], q[j]);
    assert Release(E, q, q[j]) == -1;
    assert Release(E, q, q[i]) == -1;
    assert forall d :: Edge(q[i], d) in E ==> d in q[..i];
  }

  /** Every active dependency of an emitted task precedes it. */
  lemma DependenciesFirst(ids: set<Id>, E: set<Edge>, r: seq<Id>, i: nat, d: Id)
    requires IsTopologicalSort(ids, E, r) && i < |Resolvable(ids, E)| && Edge(r[i], d) in E
    ensures d in r[..i]
  {
    var q := r[..|Resolvable(ids, E)|];
    assert d in q[..i];
    assert q[..i] == r[..i];
  }

  // ---- the tail ----

  /** The tail is empty exactly when the graph has no cycle. */
  lemma TailEmptyIffAcyclic(ids: set<Id>, E: set<Edge>, r: seq<Id>)
    requires IsTopologicalSort(ids, E, r)
    requires forall e :: e in E ==> e.task in ids && e.dep in ids
    ensures |Resolvable(ids, E)| == |r| <==> Acyclic(E)
  {
    var R := Resolvable(ids, E);
    CardIffNoDup(r);
    if |R| == |r| {
      CardSubset(R, ids);
      forall a ensures !OnCycle(E, a) {
        ReachesSelf(E, a);
        if a in ids {
          assert !WaitsForCycle(E, a) by { assert a in R; }
        }
      }
    }
    if Acyclic(E) {
      assert R == ids;
    }
  }

  /** Every task of the tail waits for a task of the tail. */
  lemma TailWaitsForTail(ids: set<Id>, E: set<Edge>, r: seq<Id>, i: nat)
    requires IsTopologicalSort(ids, E, r)
    requires forall e :: e in E ==> e.task in ids && e.dep in ids
    requires |Resolvable(ids, E)| <= i < |r|
    ensures exists j :: |Resolvable(ids, E)| <= j < |r| && Edge(r[i], r[j]) in E
  {
    var n := |Resolvable(ids, E)|;
    var v := r[i];
    assert v !in r[..n] by {
      TailSet(r, n);
      assert v == r[n..][i - n];
    }
    assert v in ids by { assert v in ToSet(r); }
    assert v !in Resolvable(ids, E) by { assert v !in ToSet(r[..n]); }
    assert WaitsForCycle(E, v);
    var c :| Reaches(E, v, c) && OnCycle(E, c);
    var d: Id;
    if c == v {
      d :| Edge(c, d) in E && Reaches(E, d, c);
      ReachesTrans(E, d, c, c) by { ReachesSelf(E, c); }
    } else {
      d := FirstStep(E, v, c);
    }
    assert WaitsForCycle(E, d) by { assert Reaches(E, d, c); }
    assert d in ToSet(r) && d !in ToSet(r[..n]);
    TailSet(r, n);
    var k :| 0 <= k < |r| - n && r[n..][k] == d;
    assert r[n + k] == d;
  }

  // ---- the order is the only one ----

  lemma {:induction false} AscendingUnique(a: seq<Id>, b: seq<Id>)
    requires NoDup(a) && NoDup(b) && Ascending(a) && Ascending(b) && ToSet(a) == ToSet(b)
    ensures a == b
  {
    CardIffNoDup(a);
    CardIffNoDup(b);
    if a != [] {
      assert a[0] in ToSet(b) && b[0] in ToSet(a);
      var i :| 0 <= i < |b| && b[i] == a[0];
      var j :| 0 <= j < |a| && a[j] == b[0];
      assert AtMost(a[0], b[0]) && AtMost(b[0], a[0]);
      LessTotal(a[0], b[0]);
      forall x ensures x in a[1..] <==> x in b[1..] {
        assert x in a <==> x in ToSet(a);
        assert x in b <==> x in ToSet(b);
        assert a == [a[0]] + a[1..] && b == [b[0]] + b[1..];
      }
      AscendingUnique(a[1..], b[1..]);
    }
  }

  /** Two Kahn orders of the same tasks agree position by position. */
  lemma {:induction false} KahnOrderUnique(E: set<Edge>, a: seq<Id>, b: seq<Id>, n: nat)
    requires KahnOrder(E, a) && KahnOrder(E, b) && ToSet(a) == ToSet(b) && |a| == |b| && n <= |a|
    ensures a[..n] == b[..n]
    decreases n
  {
    if n > 0 {
      var k := n - 1;
      KahnOrderUnique(E, a, b, k);
      if a[k] != b[k] {
        LaterIn(a, b, k);
        LaterIn(b, a, k);
        SameRelease(E, a, b, k, a[k]);
        SameRelease(E, b, a, k, b[k]);
        var i :| k < i < |b| && b[i] == a[k];
        var j :| k < j < |a| && a[j] == b[k];
        assert Precedes(E, a, a[k], a[j]) && Precedes(E, b, b[k], b[i]);
        LessTotal(a[k], b[k]);
      }
    }
  }

  lemma LaterIn<T>(a: seq<T>, b: seq<T>, k: nat)
    requires NoDup(a) && NoDup(b) && ToSet(a) == ToSet(b) && k < |a| == |b| && a[..k] == b[..k] && a[k] != b[k]
    ensures exists i :: k < i < |b| && b[i] == a[k]
  {
    assert a[k] in ToSet(b) && a[k] !in ToSet(a[..k]);
    TailSet(b, k);
    var i :| 0 <= i < |b| - k && b[k..][i] == a[k];
    assert b[k + i] == a[k];
  }

  lemma SameRelease(E: set<Edge>, a: seq<Id>, b: seq<Id>, k: nat, x: Id)
    requires NoDup(a) && NoDup(b) && DepsBefore(E, a, |a|) && k < |a| == |b| && a[..k] == b[..k] && x == a[k]
    ensures Release(E, a, x) == Release(E, b, x)
  {
    assert forall d :: Edge(x, d) in E ==> d in a[..k];
    ReleasePrefix(E, a, k, x);
    ReleasePrefix(E, b, k, x);
  }

  /** The result does not depend on the order in which the database returned its rows. */
  lemma SortIsUnique(ids: set<Id>, E: set<Edge>, a: seq<Id>, b: seq<Id>)
    requires IsTopologicalSort(ids, E, a) && IsTopologicalSort(ids, E, b)
    ensures a == b
  {
    var n := |Resolvable(ids, E)|;
    KahnOrderUnique(E, a[..n], b[..n], n);
    TailSet(a, n);
    TailSet(b, n);
    AscendingUnique(a[n..], b[n..]);
    assert a == a[..n] + a[n..] && b == b[..n] + b[n..];
  }

  lemma TailSet<T>(r: seq<T>, n: nat)
    requires NoDup(r) && n <= |r|
    ensures ToSet(r[n..]) == ToSet(r) - ToSet(r[..n]) && NoDup(r[n..])
  {
    assert r == r[..n] + r[n..];
    forall x | x in r[n..] ensures x !in r[..n] {
      var i :| n <= i < |r| && r[i] == x;
    }
  }

  // ---- the loop ----

  ghost predicate InDegreesAre(ids: set<Id>, rows: seq<Edge>, done: set<Id>, extra: multiset<Id>, inDegree: map<Id, nat>) {
    && inDegree.Keys == ids
    && forall v :: v in ids ==> inDegree[v] == Waiting(rows, done, v) + extra[v]
  }

  /**
   s is everything that was ever queued, `done` what was popped: s holds exactly the tasks with
   in-degree 0, in Kahn order.
   */
  ghost predicate Queued(ids: set<Id>, E: set<Edge>, s: seq<Id>, done: set<Id>, inDegree: map<Id, nat>) {
    && inDegree.Keys == ids
    && (forall v :: v in s <==> v in ids && inDegree[v] == 0)
    && (forall i, d :: 0 <= i < |s| && Edge(s[i], d) in E ==> d in done)
    && KahnOrder(E, s)
  }

  /** The loop has nothing left to pop: what it emitted is exactly the resolvable part. */
  lemma LoopEnd(ids: set<Id>, rows: seq<Edge>, s: seq<Id>, inDegree: map<Id, nat>)
    requires forall e :: e in rows ==> e.task in ids && e.dep in ids
    requires Looping(ids, rows, s, ToSet(s), inDegree)
    ensures KahnOrder(ToSet(rows), s) && ToSet(s) == Resolvable(ids, ToSet(rows))
  {
    var E := ToSet(rows);
    var T := ids - ToSet(s);
    var level := OrderLevels(E, s);
    forall v | v in T ensures WaitsForMember(E, T, v) {
      WaitingZero(rows, ToSet(s), v);
      var e :| e in rows && e.task == v && e.dep !in ToSet(s);
      assert Edge(v, e.dep) in E && e.dep in T;
    }
    forall v | v in ids ensures v in ToSet(s) <==> !WaitsForCycle(E, v) {
      if v in ToSet(s) {
        LevelsAreDepths(E, ToSet(s), level, v);
      } else {
        StuckSetWaitsForCycle(E, T, v);
      }
    }
  }

  /** Appending t, whose last dependency is the task just popped, keeps the Kahn order. */
  lemma AppendReleased(E: set<Edge>, s: seq<Id>, n: nat, t: Id)
    requires 0 < n <= |s| && KahnOrder(E, s) && t !in s
    requires forall i, d :: 0 <= i < |s| && Edge(s[i], d) in E ==> d in ToSet(s[..n])
    requires Edge(t, s[n - 1]) in E && forall d :: Edge(t, d) in E ==> d in ToSet(s[..n])
    requires forall i :: 0 <= i < |s| && Edge(s[i], s[n - 1]) in E ==> Less(s[i], t)
    ensures KahnOrder(E, s + [t])
  {
    hide NoDup, Precedes;
    var r := s + [t];
    NoDupAppend(s, t);
    forall i | 0 <= i < |r| ensures Release(E, r, r[i]) == Release(E, s, r[i]) < n {
      SameReleaseAfterAppend(E, s, n, t, r[i]);
    }
    forall i, j | 0 <= i < j < |r| ensures Precedes(E, r, r[i], r[j]) {
      if j < |s| {
        assert Precedes(E, s, s[i], s[j]);
        PrecedesByRelease(E, s, r, s[i], s[j]);
      } else {
        LastPrecedes(E, r, n, r[i], t);
      }
    }
    DepsBeforeLast(E, s, n, t);
  }

  lemma DepsBeforeLast(E: set<Edge>, s: seq<Id>, n: nat, t: Id)
    requires n <= |s| && DepsBefore(E, s, |s|) && forall d :: Edge(t, d) in E ==> d in ToSet(s[..n])
    ensures DepsBefore(E, s + [t], |s + [t]|)
  {
    var r := s + [t];
    forall i, d | 0 <= i < |r| && Edge(r[i], d) in E ensures d in r[..i] {
      if i < |s| {
        assert d in s[..i];
        assert r[..i] == s[..i];
      } else {
        assert r[..i] == s;
        assert d in s[..n];
      }
    }
  }

  lemma SameReleaseAfterAppend(E: set<Edge>, s: seq<Id>, n: nat, t: Id, x: Id)
    requires 0 < n <= |s| && NoDup(s) && NoDup(s + [t])
    requires forall d :: Edge(x, d) in E ==> d in ToSet(s[..n])
    ensures Release(E, s + [t], x) == Release(E, s, x) < n
  {
    hide NoDup;
    assert (s + [t])[..n] == s[..n];
    forall d | Edge(x, d) in E ensures d in s[..n] {
      assert d in ToSet(s[..n]);
    }
    ReleasePrefix(E, s + [t], n, x);
    ReleasePrefix(E, s, n, x);
  }

  lemma PrecedesByRelease(E: set<Edge>, s: seq<Id>, r: seq<Id>, x: Id, y: Id)
    requires Precedes(E, s, x, y) && Release(E, r, x) == Release(E, s, x) && Release(E, r, y) == Release(E, s, y)
    ensures Precedes(E, r, x, y)
  {
  }

  /** t, released by the n-th task, comes after everyone released before it or by it with a smaller id. */
  lemma LastPrecedes(E: set<Edge>, r: seq<Id>, n: nat, x: Id, t: Id)
    requires 0 < n <= |r| && Edge(t, r[n - 1]) in E && Release(E, r, t) < n && Release(E, r, x) < n
    requires Edge(x, r[n - 1]) in E ==> Less(x, t)
    ensures Precedes(E, r, x, t)
  {
  }

  /** Before anything is popped: the roots, by id. */
  lemma QueuedInitially(ids: set<Id>, rows: seq<Edge>, roots: seq<Id>, inDegree: map<Id, nat>)
    requires forall e :: e in rows ==> e.task in ids && e.dep in ids
    requires InDegreesAre(ids, rows, {}, multiset{}, inDegree)
    requires NoDup(roots) && ToSet(roots) == set v | v in ids && inDegree[v] == 0
    ensures Looping(ids, rows, Sorted(roots), ToSet([]), inDegree)
  {
    assert ToSet<Id>([]) == {};
    var E, s := ToSet(rows), Sorted(roots);
    SortedAscending(roots);
    assert forall v :: v in s <==> v in ToSet(s);
    forall i, d | 0 <= i < |s| ensures Edge(s[i], d) !in E {
      assert s[i] in s;
      WaitingZero(rows, {}, s[i]);
    }
    forall i, j | 0 <= i < j < |s| ensures Precedes(E, s, s[i], s[j]) {
      assert Release(E, s, s[i]) == -1 == Release(E, s, s[j]);
      assert AtMost(s[i], s[j]);
    }
  }

  /** No queued task waits for one that has not been popped. */
  lemma NotYetPopped(ids: set<Id>, E: set<Edge>, s: seq<Id>, done: set<Id>, inDegree: map<Id, nat>, u: Id)
    requires Queued(ids, E, s, done, inDegree) && u !in done
    ensures forall i :: 0 <= i < |s| ==> Edge(s[i], u) !in E
  {
  }

  /** Popping u moves its dependents' rows from `waiting` to `still to be counted down`. */
  lemma PopCounts(ids: set<Id>, rows: seq<Edge>, done: set<Id>, u: Id, inDegree: map<Id, nat>)
    requires InDegreesAre(ids, rows, done, multiset{}, inDegree) && u !in done
    ensures InDegreesAre(ids, rows, done + {u}, multiset(Outgoing(rows, u)), inDegree)
  {
    forall v | v in ids
      ensures inDegree[v] == Waiting(rows, done + {u}, v) + multiset(Outgoing(rows, u))[v]
    {
      WaitingRelease(rows, done, u, v);
    }
  }

  /**
   The inner loop, with the dependents `left` still to be counted down for u, the n-th task popped:
   whoever u has already released comes before them by id.
   */
  ghost predicate Releasing(ids: set<Id>, rows: seq<Edge>, q: seq<Id>, n: nat, u: Id, inDegree: map<Id, nat>, left: seq<Id>) {
    && 0 < n <= |q| && q[n - 1] == u
    && Queued(ids, ToSet(rows), q, ToSet(q[..n]), inDegree)
    && InDegreesAre(ids, rows, ToSet(q[..n]), multiset(left), inDegree)
    && (forall i, t {:trigger AtMost(q[i], t)} :: 0 <= i < |q| && Edge(q[i], u) in ToSet(rows) && t in left ==> AtMost(q[i], t))
    && (forall t :: t in left ==> Edge(t, u) in ToSet(rows) && t in ids)
    && Ascending(left)
  }

  /** One round of the inner loop: t loses one in-degree. */
  lemma CountDown(ids: set<Id>, rows: seq<Edge>, q: seq<Id>, n: nat, u: Id, inDegree: map<Id, nat>, t: Id, left: seq<Id>)
    requires Releasing(ids, rows, q, n, u, inDegree, [t] + left)
    ensures t in ids && inDegree[t] > 0 && t !in q
    ensures InDegreesAre(ids, rows, ToSet(q[..n]), multiset(left), inDegree[t := inDegree[t] - 1])
  {
    assert t in [t] + left;
    assert multiset([t] + left) == multiset{t} + multiset(left);
  }

  lemma RestLeft(ids: set<Id>, rows: seq<Edge>, q: seq<Id>, n: nat, u: Id, inDegree: map<Id, nat>, t: Id, left: seq<Id>)
    requires Releasing(ids, rows, q, n, u, inDegree, [t] + left)
    ensures forall i, m :: 0 <= i < |q| && Edge(q[i], u) in ToSet(rows) && m in left ==> AtMost(q[i], m)
    ensures forall m :: m in left ==> Edge(m, u) in ToSet(rows) && m in ids
    ensures forall m :: m in left ==> AtMost(t, m)
    ensures Ascending(left)
  {
    var all := [t] + left;
    forall m | m in left ensures m in all && AtMost(t, m) {
      var k :| 0 <= k < |left| && left[k] == m;
      assert all[k + 1] == m && all[0] == t;
    }
    forall i, j | 0 <= i < j < |left| ensures AtMost(left[i], left[j]) {
      assert all[i + 1] == left[i] && all[j + 1] == left[j];
    }
  }

  /** t still has an unfinished dependency: nothing is queued. */
  lemma KeepWaiting(ids: set<Id>, rows: seq<Edge>, q: seq<Id>, n: nat, u: Id, inDegree: map<Id, nat>, t: Id, left: seq<Id>)
    requires Releasing(ids, rows, q, n, u, inDegree, [t] + left)
    ensures t in ids && inDegree[t] > 0
    ensures inDegree[t] > 1 ==> Releasing(ids, rows, q, n, u, inDegree[t := inDegree[t] - 1], left)
  {
    CountDown(ids, rows, q, n, u, inDegree, t, left);
    RestLeft(ids, rows, q, n, u, inDegree, t, left);
  }

  /** That was t's last unfinished dependency: t is queued. */
  lemma EnqueueReleased(ids: set<Id>, rows: seq<Edge>, q: seq<Id>, n: nat, u: Id, inDegree: map<Id, nat>, t: Id, left: seq<Id>)
    requires forall e :: e in rows ==> e.task in ids && e.dep in ids
    requires Releasing(ids, rows, q, n, u, inDegree, [t] + left)
    requires t in ids && inDegree[t] == 1
    ensures Releasing(ids, rows, q + [t], n, u, inDegree[t := 0], left)
  {
    hide Queued, InDegreesAre, Ascending;
    CountDown(ids, rows, q, n, u, inDegree, t, left);
    RestLeft(ids, rows, q, n, u, inDegree, t, left);
    EnqueuedLast(ids, rows, q, n, u, inDegree, t, left);
    assert (q + [t])[..n] == q[..n] && (q + [t])[n - 1] == u;
    EnqueueQueued(ids, rows, q, n, u, inDegree, t);
    hide AtMost;
    assert forall i :: 0 <= i < |q + [t]| ==> (q + [t])[i] == if i < |q| then q[i] else t;
  }

  /** What EnqueueQueued needs to know of t. */
  lemma EnqueuedLast(ids: set<Id>, rows: seq<Edge>, q: seq<Id>, n: nat, u: Id, inDegree: map<Id, nat>, t: Id, left: seq<Id>)
    requires Releasing(ids, rows, q, n, u, inDegree, [t] + left) && t in ids && inDegree[t] == 1
    ensures Edge(t, u) in ToSet(rows) && t !in q && Waiting(rows, ToSet(q[..n]), t) == 0
    ensures forall i :: 0 <= i < |q| && Edge(q[i], u) in ToSet(rows) ==> AtMost(q[i], t)
  {
    hide KahnOrder, Ascending, AtMost;
    CountDown(ids, rows, q, n, u, inDegree, t, left);
    assert t in [t] + left;
  }

  lemma EnqueueQueued(ids: set<Id>, rows: seq<Edge>, q: seq<Id>, n: nat, u: Id, inDegree: map<Id, nat>, t: Id)
    requires forall e :: e in rows ==> e.task in ids && e.dep in ids
    requires 0 < n <= |q| && q[n - 1] == u
    requires Queued(ids, ToSet(rows), q, ToSet(q[..n]), inDegree)
    requires t in ids && t !in q && inDegree[t] == 1 && Waiting(rows, ToSet(q[..n]), t) == 0
    requires Edge(t, u) in ToSet(rows)
    requires forall i :: 0 <= i < |q| && Edge(q[i], u) in ToSet(rows) ==> AtMost(q[i], t)
    ensures Queued(ids, ToSet(rows), q + [t], ToSet(q[..n]), inDegree[t := 0])
  {
    var E, done := ToSet(rows), ToSet(q[..n]);
    WaitingZero(rows, done, t);
    assert forall d :: Edge(t, d) in E ==> d in done;
    forall i | 0 <= i < |q| && Edge(q[i], u) in E ensures Less(q[i], t) {
      assert AtMost(q[i], t) && q[i] in q;
    }
    AppendReleased(E, q, n, t);
  }

  /** Before the next round of the main loop. */
  ghost predicate Looping(ids: set<Id>, rows: seq<Edge>, q: seq<Id>, done: set<Id>, inDegree: map<Id, nat>) {
    && Queued(ids, ToSet(rows), q, done, inDegree)
    && InDegreesAre(ids, rows, done, multiset{}, inDegree)
  }

  lemma ConcatAssoc<T>(a: seq<T>, b: seq<T>, c: seq<T>)
    ensures (a + b) + c == a + (b + c)
  {
  }

  lemma DropOne<T>(s: seq<T>, k: nat)
    requires 0 < k <= |s|
    ensures s[k - 1..] == [s[k - 1]] + s[k..]
  {
  }

  lemma ConcatPrefix<T>(a: seq<T>, b: seq<T>)
    ensures (a + b)[..|a|] == a
  {
  }

  /** One round of the inner loop. */
  lemma Round(ids: set<Id>, rows: seq<Edge>, q: seq<Id>, n: nat, u: Id, inDegree: map<Id, nat>, t: Id, left: seq<Id>)
    requires forall e :: e in rows ==> e.task in ids && e.dep in ids
    requires Releasing(ids, rows, q, n, u, inDegree, [t] + left)
    ensures t in ids && inDegree[t] > 0
    ensures var inDegree' := inDegree[t := inDegree[t] - 1];
            Releasing(ids, rows, if inDegree'[t] == 0 then q + [t] else q, n, u, inDegree', left)
  {
    KeepWaiting(ids, rows, q, n, u, inDegree, t, left);
    if inDegree[t] == 1 {
      EnqueueReleased(ids, rows, q, n, u, inDegree, t, left);
    }
  }

  /** The inner loop: dependents of the task just popped lose one in-degree each, in id order. */
  method ReleaseDependents(ids: set<Id>, ghost rows: seq<Edge>, ghost result: seq<Id>, queue: seq<Id>,
                           inDegree: map<Id, nat>, outs: seq<Id>)
    returns (inDegree': map<Id, nat>, queue': seq<Id>)
    requires forall e :: e in rows ==> e.task in ids && e.dep in ids
    requires |result| > 0
    requires Releasing(ids, rows, result + queue, |result|, result[|result| - 1], inDegree, outs)
    ensures Looping(ids, rows, result + queue', ToSet(result), inDegree')
  {
    inDegree', queue' := inDegree, queue;
    ghost var q, n, u := result + queue, |result|, result[|result| - 1];
    ghost var left := outs;
    var k := 0;
    while k < |outs|
      invariant 0 <= k <= |outs| && left == outs[k..]
      invariant q == result + queue'
      invariant Releasing(ids, rows, q, n, u, inDegree', left)
    {
      var t := outs[k];
      k := k + 1;
      DropOne(outs, k);
      left := outs[k..];
      Round(ids, rows, q, n, u, inDegree', t, left);
      inDegree' := inDegree'[t := inDegree'[t] - 1];
      q := if inDegree'[t] == 0 then q + [t] else q;
      if inDegree'[t] == 0 {
        ConcatAssoc(result, queue', [t]);
        queue' := queue' + [t];
      }
    }
    assert left == [];
    ConcatPrefix(result, queue');
  }

  ghost predicate Counted(ids: set<Id>, rows: seq<Edge>, inDegree: map<Id, nat>, dependents: map<Id, seq<Id>>) {
    && InDegreesAre(ids, rows, {}, multiset{}, inDegree)
    && dependents.Keys == ids
    && forall u :: u in ids ==> dependents[u] == Outgoing(rows, u)
  }

  lemma CountRow(ids: set<Id>, rows: seq<Edge>, row: Edge, inDegree: map<Id, nat>, dependents: map<Id, seq<Id>>)
    requires Counted(ids, rows, inDegree, dependents) && row.task in ids && row.dep in ids
    ensures Counted(ids, rows + [row], inDegree[row.task := inDegree[row.task] + 1],
                    dependents[row.dep := dependents[row.dep] + [row.task]])
  {
    AppendRow(rows, row);
  }

  lemma CountNothing(ids: set<Id>)
    ensures forall rows: seq<Edge> :: rows == [] ==> Within(rows, ids) == []
    ensures Counted(ids, [], map tid | tid in ids :: 0, map tid | tid in ids :: [])
  {
  }

  /** The first loop: in-degrees and dependents of every task, from the rows. */
  method CountRows(ids: set<Id>, rows: seq<Edge>) returns (inDegree: map<Id, nat>, dependents: map<Id, seq<Id>>)
    ensures inDegree.Keys == ids && Counted(ids, Within(rows, ids), inDegree, dependents)
  {
    hide InDegreesAre, Within, Outgoing;
    inDegree := map tid | tid in ids :: 0;
    dependents := map tid | tid in ids :: [];
    ghost var valid: seq<Edge> := [];
    CountNothing(ids);
    var i := 0;
    while i < |rows|
      invariant 0 <= i <= |rows|
      invariant inDegree.Keys == ids && valid == Within(rows[..i], ids)
      invariant Counted(ids, valid, inDegree, dependents)
    {
      var row := rows[i];
      assert rows[..i + 1] == rows[..i] + [row];
      AppendRow(rows[..i], row);
      if row.task in ids && row.dep in ids {
        CountRow(ids, valid, row, inDegree, dependents);
        inDegree := inDegree[row.task := inDegree[row.task] + 1];
        dependents := dependents[row.dep := dependents[row.dep] + [row.task]];
        valid := valid + [row];
      }
      i := i + 1;
    }
    assert rows[..|rows|] == rows;
  }

  lemma NotPoppedYet<T>(result: seq<T>, queue: seq<T>)
    requires NoDup(result + queue) && queue != []
    ensures queue[0] !in result
  {
    var q := result + queue;
    assert q[|result|] == queue[0];
    forall i | 0 <= i < |result| ensures result[i] != queue[0] {
      assert q[i] == result[i];
    }
  }

  lemma ShiftOne<T>(result: seq<T>, queue: seq<T>)
    requires queue != []
    ensures result + queue == (result + [queue[0]]) + queue[1..]
    ensures queue[0] in result + queue
  {
    assert (result + queue)[|result|] == queue[0];
  }

  lemma PopShape(ids: set<Id>, rows: seq<Edge>, result: seq<Id>, queue: seq<Id>, inDegree: map<Id, nat>)
    requires Looping(ids, rows, result + queue, ToSet(result), inDegree) && queue != []
    ensures queue[0] in ids
    ensures result + queue == (result + [queue[0]]) + queue[1..]
    ensures (result + queue)[|result|] == queue[0] && (result + queue)[..|result| + 1] == result + [queue[0]]
    ensures queue[0] !in ToSet(result) && ToSet(result + [queue[0]]) == ToSet(result) + {queue[0]}
    ensures |ids - ToSet(result + [queue[0]])| < |ids - ToSet(result)|
  {
    hide DepsBefore, Precedes, NoDup, InDegreesAre;
    var u := queue[0];
    ShiftOne(result, queue);
    ConcatPrefix(result + [u], queue[1..]);
    NotPoppedYet(result, queue);
    ToSetAppend(result, u);
    CardSubset(ids - ToSet(result + [u]), (ids - ToSet(result)) - {u});
  }

  /** The dependents counted down for u are tasks that wait for it; none is queued yet. */
  lemma DependentsOf(ids: set<Id>, rows: seq<Edge>, u: Id, outs: seq<Id>)
    requires forall e :: e in rows ==> e.task in ids && e.dep in ids
    requires multiset(outs) == multiset(Outgoing(rows, u))
    ensures forall t :: t in outs ==> Edge(t, u) in ToSet(rows) && t in ids
  {
    OutgoingMembers(rows, u);
    forall t | t in outs ensures Edge(t, u) in ToSet(rows) && t in ids {
      assert t in multiset(outs);
      assert t in Outgoing(rows, u);
    }
  }

  lemma QueuedAfterPop(ids: set<Id>, E: set<Edge>, q: seq<Id>, done: set<Id>, u: Id, inDegree: map<Id, nat>)
    requires Queued(ids, E, q, done, inDegree)
    ensures Queued(ids, E, q, done + {u}, inDegree)
  {
  }

  /** One pop: the inner loop's starting state. */
  lemma PopNext(ids: set<Id>, rows: seq<Edge>, q: seq<Id>, n: nat, done: set<Id>, inDegree: map<Id, nat>, u: Id, outs: seq<Id>)
    requires forall e :: e in rows ==> e.task in ids && e.dep in ids
    requires Looping(ids, rows, q, done, inDegree) && n < |q| && q[n] == u && u !in done
    requires multiset(outs) == multiset(Outgoing(rows, u)) && Ascending(outs)
    requires ToSet(q[..n + 1]) == done + {u}
    ensures Releasing(ids, rows, q, n + 1, u, inDegree, outs)
  {
    hide Queued, InDegreesAre, Outgoing, ToSet, Ascending;
    PopCounts(ids, rows, done, u, inDegree);
    NotYetPopped(ids, ToSet(rows), q, done, inDegree, u);
    DependentsOf(ids, rows, u, outs);
    QueuedAfterPop(ids, ToSet(rows), q, done, u, inDegree);
  }

  /** Kahn's algorithm over the tasks `ids` and the dependency rows between them. */
  method Order(ids: set<Id>, rows: seq<Edge>) returns (result: seq<Id>)
    ensures IsTopologicalSort(ids, ToSet(Within(rows, ids)), result)
  {
    hide KahnOrder, Queued, InDegreesAre, Looping, Releasing, Ascending, IsTopologicalSort, Sorted, Within, Outgoing, ToSet;
    var inDegree, dependents := CountRows(ids, rows);
    ghost var active := Within(rows, ids);
    WithinMembers(rows, ids);
    var roots := Enumerate(set tid | tid in ids && inDegree[tid] == 0);
    var queue := Sorted(roots);
    QueuedInitially(ids, active, roots, inDegree);
    result := [];
    assert result + queue == queue;
    while queue != []
      invariant Looping(ids, active, result + queue, ToSet(result), inDegree)
      decreases |ids - ToSet(result)|
    {
      var current := queue[0];
      ghost var q := result + queue;
      PopShape(ids, active, result, queue, inDegree);
      var outs := Sorted(dependents[current]);
      SortedAscending(dependents[current]);
      PopNext(ids, active, q, |result|, ToSet(result), inDegree, current, outs);
      result, queue := result + [current], queue[1..];
      inDegree, queue := ReleaseDependents(ids, active, result, queue, inDegree, outs);
    }
    assert result + queue == result;
    LoopEnd(ids, active, result, inDegree);
    result := WithTail(ids, ToSet(active), result);
  }

  /** The tasks that were not emitted, by id. */
  method WithTail(ids: set<Id>, ghost E: set<Edge>, emitted: seq<Id>) returns (result: seq<Id>)
    requires KahnOrder(E, emitted) && ToSet(emitted) == Resolvable(ids, E)
    ensures IsTopologicalSort(ids, E, result)
  {
    hide KahnOrder, IsTopologicalSort, Resolvable, ToSet, Sorted, Ascending;
    var rest := Enumerate(ids - ToSet(emitted));
    SortedAscending(rest);
    AppendTail(ids, E, emitted, Sorted(rest));
    result := emitted + Sorted(rest);
  }

  lemma AppendTail(ids: set<Id>, E: set<Edge>, emitted: seq<Id>, tail: seq<Id>)
    requires KahnOrder(E, emitted) && ToSet(emitted) == Resolvable(ids, E)
    requires NoDup(tail) && Ascending(tail) && ToSet(tail) == ids - ToSet(emitted)
    ensures IsTopologicalSort(ids, E, emitted + tail)
  {
    var r := emitted + tail;
    CardIffNoDup(emitted);
    assert r[..|emitted|] == emitted && r[|emitted|..] == tail;
    forall i, j | 0 <= i < j < |r| ensures r[i] != r[j] {
      if i < |emitted| <= j {
        assert r[i] in ToSet(emitted) && r[j] in ToSet(tail);
      }
    }
    assert forall x :: x in r <==> x in emitted || x in tail;
    assert ToSet(r) == ToSet(emitted) + ToSet(tail);
  }
}
