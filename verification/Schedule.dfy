/** Which tasks can start, and what happens when ready tasks are finished one after another. */
module Schedule {
  import opened Collections
  import opened Graph
  import opened Tasks
  import opened TopologicalSort

  predicate Finished(task: Task) {
    task.status == "done" || task.status == "verified"
  }

  predicate Startable(task: Task) {
    task.status == "pending" || task.status == "assigned"
  }

  /** Startable, and no dependency that is a task is unfinished. */
  ghost predicate Ready(db: Db, x: Id) {
    && x in db.tasks && Startable(db.tasks[x])
    && forall d :: Edge(x, d) in db.deps && d in db.tasks ==> Finished(db.tasks[d])
  }

  predicate InProject(task: Task, project: string) {
    project == "" || task.project == project
  }

  /** The tasks `topological_sort` orders. */
  function ActiveIds(db: Db, project: string): set<Id> {
    set x | x in db.tasks && !Finished(db.tasks[x]) && db.tasks[x].status != "failed" && InProject(db.tasks[x], project)
  }

  function ActiveEdges(db: Db, project: string): set<Edge> {
    set e | e in db.deps && e.task in ActiveIds(db, project) && e.dep in ActiveIds(db, project)
  }

  ghost function Unfinished(db: Db): set<Id> {
    set x | x in db.tasks && !Finished(db.tasks[x])
  }

  /** PATCH x with status done. */
  ghost function Finish(db: Db, x: Id): Db {
    Step(db, Patch(x, Update(Some("done"), None, None, None)))
  }

  ghost function FinishAll(db: Db, s: seq<Id>): Db
    decreases |s|
  {
    if s == [] then db else FinishAll(Finish(db, s[0]), s[1..])
  }

  /** s can be worked off in order: each task is ready when its turn comes. */
  ghost predicate Executable(db: Db, s: seq<Id>)
    decreases |s|
  {
    s == [] || (Ready(db, s[0]) && Executable(Finish(db, s[0]), s[1..]))
  }

  ghost predicate AllStartable(db: Db) {
    forall x :: x in db.tasks && !Finished(db.tasks[x]) ==> Startable(db.tasks[x])
  }

  lemma FinishOne(db: Db, x: Id)
    ensures Finish(db, x).deps == db.deps && Finish(db, x).tasks.Keys == db.tasks.Keys
    ensures forall y :: y in db.tasks && y != x ==> Finish(db, x).tasks[y] == db.tasks[y]
    ensures x in db.tasks ==> Finish(db, x).tasks[x] == db.tasks[x].(status := "done")
  {
  }

  /** A ready task stays ready until it is done, whatever else is finished. */
  lemma StaysReady(db: Db, x: Id, y: Id)
    requires Ready(db, x) && x != y
    ensures Ready(Finish(db, y), x)
  {
    FinishOne(db, y);
  }

  /** While startable work remains, something is ready. */
  lemma SomethingReady(db: Db)
    requires Consistent(db) && AllStartable(db) && Unfinished(db) != {}
    ensures exists x :: Ready(db, x)
  {
    var T := Unfinished(db);
    var a :| a in T;
    if forall x :: !Ready(db, x) {
      forall v | v in T ensures WaitsForMember(db.deps, T, v) {
        assert !Ready(db, v);
        var d :| Edge(v, d) in db.deps && d in db.tasks && !Finished(db.tasks[d]);
        assert d in T;
      }
      StuckSetWaitsForCycle(db.deps, T, a);
    }
  }

  lemma FinishKeeps(db: Db, x: Id)
    requires Consistent(db) && AllStartable(db) && Ready(db, x)
    ensures Consistent(Finish(db, x)) && AllStartable(Finish(db, x))
    ensures Unfinished(Finish(db, x)) == Unfinished(db) - {x} && x in Unfinished(db)
  {
    FinishOne(db, x);
    StepKeepsConsistent(db, Patch(x, Update(Some("done"), None, None, None)));
  }

  /** Finishing ready tasks in any order uses up the unfinished tasks one by one. */
  lemma {:induction false} ExecutionCounts(db: Db, s: seq<Id>)
    requires Consistent(db) && AllStartable(db) && Executable(db, s)
    ensures Consistent(FinishAll(db, s)) && AllStartable(FinishAll(db, s))
    ensures |s| + |Unfinished(FinishAll(db, s))| == |Unfinished(db)|
    decreases |s|
  {
    if s != [] {
      FinishKeeps(db, s[0]);
      ExecutionCounts(Finish(db, s[0]), s[1..]);
    }
  }

  /**
   However ready tasks are picked, an execution that cannot go on has finished every task, in
   exactly as many steps as there were unfinished ones.
   */
  lemma MaximalExecutionFinishes(db: Db, s: seq<Id>)
    requires Consistent(db) && AllStartable(db) && Executable(db, s)
    ensures |s| <= |Unfinished(db)|
    ensures (forall x :: !Ready(FinishAll(db, s), x)) <==> |s| == |Unfinished(db)|
    ensures |s| == |Unfinished(db)| <==> Unfinished(FinishAll(db, s)) == {}
  {
    ExecutionCounts(db, s);
    var last := FinishAll(db, s);
    if Unfinished(last) != {} {
      SomethingReady(last);
    }
    if exists x :: Ready(last, x) {
      var x :| Ready(last, x);
      assert x in Unfinished(last);
    }
    assert |Unfinished(last)| == 0 <==> Unfinished(last) == {};
  }

  // ---- when some unfinished work cannot start ----

  ghost function OpenEdges(db: Db): set<Edge> {
    set e | e in db.deps && e.task in Unfinished(db) && e.dep in Unfinished(db)
  }

  /** y is unfinished and cannot start, and x waits for it through unfinished tasks. */
  ghost predicate HeldBackBy(db: Db, x: Id, y: Id) {
    y in Unfinished(db) && !Startable(db.tasks[y]) && Reaches(OpenEdges(db), x, y)
  }

  /** The unfinished tasks that nothing unstartable holds back. */
  ghost function Doable(db: Db): set<Id> {
    set x | x in Unfinished(db) && forall y :: !HeldBackBy(db, x, y)
  }

  lemma ReadyIsDoable(db: Db, x: Id)
    requires Ready(db, x)
    ensures x in Doable(db)
  {
    forall y ensures !HeldBackBy(db, x, y) {
      if Reaches(OpenEdges(db), x, y) && x != y {
        var d := FirstStep(OpenEdges(db), x, y);
      }
    }
  }

  lemma SomethingDoableReady(db: Db)
    requires Consistent(db) && Doable(db) != {}
    ensures exists x :: Ready(db, x)
  {
    var T := Doable(db);
    var a :| a in T;
    if forall x :: !Ready(db, x) {
      forall v | v in T ensures WaitsForMember(db.deps, T, v) {
        DoableWaits(db, v);
      }
      StuckSetWaitsForCycle(db.deps, T, a);
    }
  }

  lemma DoableWaits(db: Db, v: Id)
    requires v in Doable(db) && !Ready(db, v)
    ensures WaitsForMember(db.deps, Doable(db), v)
  {
    var E := OpenEdges(db);
    ReachesSelf(E, v);
    assert !HeldBackBy(db, v, v);
    var d :| Edge(v, d) in db.deps && d in db.tasks && !Finished(db.tasks[d]);
    ReachesEdge(E, v, d);
    forall y ensures !HeldBackBy(db, d, y) {
      if Reaches(E, d, y) {
        ReachesTrans(E, v, d, y);
        assert !HeldBackBy(db, v, y);
      }
    }
  }

  /** Finishing a ready task holds nobody back and frees nobody: nothing waited for it only to wait on. */
  lemma FinishKeepsDoable(db: Db, x: Id)
    requires Consistent(db) && Ready(db, x)
    ensures Consistent(Finish(db, x)) && Doable(Finish(db, x)) == Doable(db) - {x}
  {
    var next := Finish(db, x);
    FinishOne(db, x);
    StepKeepsConsistent(db, Patch(x, Update(Some("done"), None, None, None)));
    ReadyIsDoable(db, x);
    assert Unfinished(next) == Unfinished(db) - {x};
    forall z, y | z != x ensures HeldBackBy(next, z, y) <==> HeldBackBy(db, z, y) {
      HeldBackStays(db, next, x, z, y);
    }
    assert forall z :: z in Unfinished(next) ==> (z in Doable(next) <==> z in Doable(db));
  }

  lemma HeldBackStays(db: Db, next: Db, x: Id, z: Id, y: Id)
    requires Ready(db, x) && z != x && x in Doable(db) && next.deps == db.deps
    requires Unfinished(next) == Unfinished(db) - {x} && forall v :: v in Unfinished(next) ==> next.tasks[v] == db.tasks[v]
    ensures HeldBackBy(next, z, y) <==> HeldBackBy(db, z, y)
  {
    var E, F := OpenEdges(db), OpenEdges(next);
    if HeldBackBy(next, z, y) {
      PathMonotone(F, E, z, y);
    }
    if HeldBackBy(db, z, y) {
      assert !HeldBackBy(db, x, y);
      assert y != x;
      var p :| PathBetween(E, p, z, y);
      forall i | 0 <= i < |p| ensures p[i] != x {
        SubPath(E, p, i, |p| - 1);
      }
      forall i | 0 < i < |p| ensures Linked(F, p, i) {
        assert Linked(E, p, i);
      }
      assert PathBetween(F, p, z, y);
    }
  }

  /** An execution takes distinct doable tasks, and leaves the other doable ones doable. */
  lemma {:induction false} ExecutionDoes(db: Db, s: seq<Id>)
    requires Consistent(db) && Executable(db, s)
    ensures Consistent(FinishAll(db, s)) && NoDup(s) && ToSet(s) <= Doable(db)
    ensures Doable(FinishAll(db, s)) == Doable(db) - ToSet(s)
    decreases |s|
  {
    hide Consistent, Doable;
    if s == [] {
      assert ToSet(s) == {};
    } else {
      var rest := s[1..];
      FinishKeepsDoable(db, s[0]);
      ReadyIsDoable(db, s[0]);
      ExecutionDoes(Finish(db, s[0]), rest);
      assert s == [s[0]] + rest;
      assert ToSet(s) == {s[0]} + ToSet(rest);
      assert s[0] !in ToSet(rest);
    }
  }

  /**
   An execution cannot go on exactly when it has taken all unfinished tasks that nothing
   unstartable holds back; it never takes another one.
   */
  lemma MaximalExecutionIff(db: Db, s: seq<Id>)
    requires Consistent(db) && Executable(db, s)
    ensures NoDup(s) && ToSet(s) <= Doable(db)
    ensures (forall x :: !Ready(FinishAll(db, s), x)) <==> ToSet(s) == Doable(db)
  {
    ExecutionDoes(db, s);
    var last := FinishAll(db, s);
    hide Ready, Consistent, Doable, ToSet;
    if Doable(last) != {} {
      SomethingDoableReady(last);
    }
    if x :| Ready(last, x) {
      ReadyIsDoable(last, x);
    }
    NothingLeft(Doable(db), ToSet(s));
  }

  lemma NothingLeft<T>(whole: set<T>, part: set<T>)
    requires part <= whole
    ensures whole - part == {} <==> part == whole
  {
    assert whole == part + (whole - part);
  }

  /** Finishing a list marks its members done and touches nothing else. */
  lemma {:induction false} FinishAllTasks(db: Db, s: seq<Id>)
    ensures FinishAll(db, s).deps == db.deps && FinishAll(db, s).tasks.Keys == db.tasks.Keys
    ensures forall x :: x in db.tasks ==>
      FinishAll(db, s).tasks[x] == if x in s then db.tasks[x].(status := "done") else db.tasks[x]
    decreases |s|
  {
    if s != [] {
      FinishOne(db, s[0]);
      FinishAllTasks(Finish(db, s[0]), s[1..]);
      assert s == [s[0]] + s[1..];
    }
  }

  /** An execution respects every edge: a dependency was finished before, or comes earlier in it. */
  lemma {:induction false} ExecutionRespectsEdges(db: Db, s: seq<Id>, i: nat, d: Id)
    requires Executable(db, s) && i < |s| && Edge(s[i], d) in db.deps && d in db.tasks
    ensures Finished(db.tasks[d]) || d in s[..i]
    decreases |s|
  {
    FinishOne(db, s[0]);
    if i > 0 {
      ExecutionRespectsEdges(Finish(db, s[0]), s[1..], i - 1, d);
      assert s[..i] == [s[0]] + s[1..][..i - 1];
    }
  }

  // ---- the execution order is an execution ----

  /**
   When the tasks before position i of the execution order have been finished, task i is ready
   exactly if its status allows and nothing outside the order (a failed task, or one of another
   project) holds it back.
   */
  lemma ReadyInTurn(db: Db, project: string, r: seq<Id>, i: nat)
    requires Consistent(db)
    requires IsTopologicalSort(ActiveIds(db, project), ActiveEdges(db, project), r) && i < |r|
    ensures r[i] in db.tasks
    ensures Ready(FinishAll(db, r[..i]), r[i])
            <==> Startable(db.tasks[r[i]])
                 && forall d :: Edge(r[i], d) in db.deps && d !in ActiveIds(db, project) ==> Finished(db.tasks[d])
  {
    hide KahnOrder, Resolvable, WaitsForCycle;
    var ids, E, x := ActiveIds(db, project), ActiveEdges(db, project), r[i];
    var now := FinishAll(db, r[..i]);
    FinishAllTasks(db, r[..i]);
    AcyclicSubset(E, db.deps);
    TailEmptyIffAcyclic(ids, E, r);
    assert x in ToSet(r);
    NotAmongEarlier(r, i);
    forall d | Edge(x, d) in db.deps && d in ids ensures d in r[..i] {
      DependenciesFirst(ids, E, r, i, d);
    }
    forall d | d in r[..i] ensures d in ids {
      assert d in r;
      assert d in ToSet(r);
    }
  }

  lemma NotAmongEarlier<T>(r: seq<T>, i: nat)
    requires NoDup(r) && i < |r|
    ensures r[i] !in r[..i]
  {
  }

  /** Read off from the front, the order is an execution that leaves nothing unfinished. */
  lemma OrderIsExecutable(db: Db, r: seq<Id>)
    requires Consistent(db) && AllStartable(db)
    requires IsTopologicalSort(ActiveIds(db, ""), ActiveEdges(db, ""), r)
    ensures Executable(db, r)
    ensures Unfinished(FinishAll(db, r)) == {}
  {
    assert ActiveIds(db, "") == Unfinished(db);
    CardIffNoDup(r);
    SuffixExecutable(db, r, 0);
    ExecutionCounts(db, r);
    assert r[..0] == [];
    assert r[0..] == r;
  }

  lemma {:induction false} SuffixExecutable(db: Db, r: seq<Id>, i: nat)
    requires Consistent(db) && AllStartable(db) && i <= |r|
    requires IsTopologicalSort(ActiveIds(db, ""), ActiveEdges(db, ""), r)
    ensures Executable(FinishAll(db, r[..i]), r[i..])
    decreases |r| - i
  {
    hide IsTopologicalSort, ActiveEdges, ActiveIds, Ready, Consistent, AllStartable, Finish;
    if i < |r| {
      NextInTurn(db, r, i);
      SuffixExecutable(db, r, i + 1);
      FinishAllAppend(db, r[..i], r[i]);
      TakeOne(r, i);
    }
  }

  lemma TakeOne<T>(r: seq<T>, i: nat)
    requires i < |r|
    ensures r[..i + 1] == r[..i] + [r[i]] && r[i..] == [r[i]] + r[i + 1..]
    ensures r[i..][0] == r[i] && r[i..][1..] == r[i + 1..]
  {
  }

  lemma NextInTurn(db: Db, r: seq<Id>, i: nat)
    requires Consistent(db) && AllStartable(db) && i < |r|
    requires IsTopologicalSort(ActiveIds(db, ""), ActiveEdges(db, ""), r)
    ensures Ready(FinishAll(db, r[..i]), r[i])
  {
    hide IsTopologicalSort, ActiveEdges, FinishAll;
    OrderMembers(db, r, i);
    ReadyInTurn(db, "", r, i);
  }

  lemma OrderMembers(db: Db, r: seq<Id>, i: nat)
    requires Consistent(db) && i < |r|
    requires IsTopologicalSort(ActiveIds(db, ""), ActiveEdges(db, ""), r)
    ensures r[i] in ActiveIds(db, "")
  {
    assert r[i] in ToSet(r);
  }

  lemma {:induction false} FinishAllAppend(db: Db, s: seq<Id>, x: Id)
    ensures FinishAll(db, s + [x]) == Finish(FinishAll(db, s), x)
    decreases |s|
  {
    if s != [] {
      assert (s + [x])[1..] == s[1..] + [x];
      FinishAllAppend(Finish(db, s[0]), s[1..], x);
    }
  }

  /** Before anything runs, the ready tasks are roots of the execution order, so they head it. */
  lemma ReadyAreRoots(db: Db, project: string, r: seq<Id>, x: Id)
    requires Consistent(db)
    requires IsTopologicalSort(ActiveIds(db, project), ActiveEdges(db, project), r)
    requires Ready(db, x) && InProject(db.tasks[x], project)
    ensures x in r && IsRoot(ActiveEdges(db, project), x)
    ensures forall i, j :: 0 <= i < j < |r| && r[j] == x ==> IsRoot(ActiveEdges(db, project), r[i]) && Less(r[i], x)
  {
    hide KahnOrder;
    assert x in ToSet(r);
    forall i, j | 0 <= i < j < |r| && r[j] == x
      ensures IsRoot(ActiveEdges(db, project), r[i]) && Less(r[i], x)
    {
      RootsFirst(ActiveIds(db, project), ActiveEdges(db, project), r, i, j);
    }
  }
}
