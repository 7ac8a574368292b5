/** The task API over its two tables: `tasks` and `task_dependencies`. */
module TaskService {
  import opened Collections
  import opened Graph
  import opened Rows
  import opened Tasks
  import opened Schedule
  import Kahn = TopologicalSort

  datatype Dependencies = Dependencies(dependsOn: seq<Id>, blockedBy: seq<Id>, dependents: seq<Id>, ready: bool)

  /** One entry of the execution order. */
  datatype Scheduled = Scheduled(id: Id, dependsOn: seq<Id>, ready: bool)

  class TaskTables {
    var tasks: map<Id, Task>
    var deps: set<Edge>

    function State(): Db
      reads this
    {
      Db(tasks, deps)
    }

    constructor ()
      ensures State() == Db(map[], {}) && Consistent(State())
    {
      tasks, deps := map[], {};
      new;
      EmptyConsistent();
    }

    // ---- cycle detection ----

    /** Iterative DFS along the dependency rows. */
    method CanReach(start: Id, target: Id) returns (found: bool)
      ensures found <==> Reaches(deps, start, target)
    {
      var visited: set<Id> := {};
      var stack := [start];
      ghost var nodes := {start} + set e | e in deps :: e.dep;
      ReachesSelf(deps, start);
      while stack != []
        invariant visited <= nodes && target !in visited
        invariant forall x :: x in stack ==> x in nodes && Reaches(deps, start, x)
        invariant start in visited || start in stack
        invariant forall e :: e in deps && e.task in visited ==> e.dep in visited || e.dep in stack
        decreases |nodes - visited|, |stack|
      {
        var last := |stack| - 1;
        var current := stack[last];
        ghost var before := stack;
        stack := stack[..last];
        assert before == stack + [current];
        if current == target {
          return true;
        }
        if current !in visited {
          ghost var unseen := nodes - visited;
          visited := visited + {current};
          CardSubset(nodes - visited, unseen);
          var rows := Enumerate(set e | e in deps && e.task == current :: e.dep);
          forall x | x in rows ensures x in nodes && Reaches(deps, start, x) {
            assert x in ToSet(rows);
            ReachesEdge(deps, current, x);
            ReachesTrans(deps, start, current, x);
          }
          forall e | e in deps && e.task == current ensures e.dep in rows {
            assert e.dep in ToSet(rows);
          }
          stack := stack + rows;
        }
      }
      if Reaches(deps, start, target) {
        ClosedReaches(deps, visited, start, target);
      }
      return false;
    }

    method DetectCycle(task: Id, newDep: Id) returns (cycle: bool)
      requires Consistent(State())
      ensures cycle <==> !Acyclic(deps + {Edge(task, newDep)})
    {
      AddEdgeAcyclic(deps, task, newDep);
      if task == newDep {
        ReachesSelf(deps, task);
        return true;
      }
      cycle := CanReach(newDep, task);
    }

    // ---- edges ----

    method AddDependency(task: Id, dep: Id) returns (r: Outcome<()>)
      modifies this
      ensures State() == Step(old(State()), Call.AddDependency(task, dep))
      ensures r == if task !in old(tasks) || dep !in old(tasks) then Err(NotFound)
                   else if Reaches(old(deps), dep, task) then Err(WouldCycle) else Ok(())
      ensures tasks == old(tasks) && deps == if r.Ok? then old(deps) + {Edge(task, dep)} else old(deps)
    {
      if task !in tasks || dep !in tasks {
        return Err(NotFound);
      }
      var cycle := task == dep;
      if cycle {
        ReachesSelf(deps, dep);
      } else {
        cycle := CanReach(dep, task);
      }
      if cycle {
        return Err(WouldCycle);
      }
      deps := deps + {Edge(task, dep)};
      return Ok(());
    }

    method RemoveDependency(task: Id, dep: Id) returns (removed: bool)
      modifies this
      ensures State() == Step(old(State()), Call.RemoveDependency(task, dep))
      ensures removed <==> Edge(task, dep) in old(deps)
      ensures tasks == old(tasks) && deps == old(deps) - {Edge(task, dep)}
    {
      removed := Edge(task, dep) in deps;
      deps := deps - {Edge(task, dep)};
    }

    /**
     What `task` waits for, which of that is unfinished, what waits for `task`, and whether it is
     `ready`. That flag looks at the dependencies only: it agrees with `GetReadyTasks` exactly when
     the task is startable or some dependency is unfinished.
     */
    method GetDependencies(task: Id) returns (r: Outcome<Dependencies>)
      requires Consistent(State())
      ensures r == Err(NotFound) <==> task !in tasks
      ensures r.Ok? <==> task in tasks
      ensures r.Ok? ==>
        && NoDup(r.value.dependsOn) && (forall d :: d in r.value.dependsOn <==> Edge(task, d) in deps)
        && NoDup(r.value.blockedBy) && (forall d :: d in r.value.blockedBy <==> Edge(task, d) in deps && !Finished(tasks[d]))
        && (forall d :: d in r.value.blockedBy <==>
              Edge(task, d) in deps && tasks[d].status != "done" && tasks[d].status != "verified")
        && NoDup(r.value.dependents) && (forall t :: t in r.value.dependents <==> Edge(t, task) in deps)
        && (r.value.ready <==> ReportedReady(State(), task))
        && ((r.value.ready <==> Ready(State(), task)) <==>
              Startable(tasks[task]) || exists d :: Edge(task, d) in deps && !Finished(tasks[d]))
    {
      if task !in tasks {
        return Err(NotFound);
      }
      var dependsOn := Enumerate(set e | e in deps && e.task == task :: e.dep);
      assert forall d :: d in ToSet(dependsOn) <==> Edge(task, d) in deps;
      var dependents := Enumerate(set e | e in deps && e.dep == task :: e.task);
      assert forall t :: t in ToSet(dependents) <==> Edge(t, task) in deps;
      var blockedBy := Enumerate(set d | d in dependsOn && d in tasks && !Finished(tasks[d]));
      forall d ensures d in blockedBy <==> Edge(task, d) in deps && !Finished(tasks[d]) {
        assert d in blockedBy <==> d in ToSet(blockedBy);
        assert d in dependsOn <==> d in ToSet(dependsOn);
      }
      r := Ok(Dependencies(dependsOn, blockedBy, dependents, |blockedBy| == 0));
      if |blockedBy| > 0 {
        assert blockedBy[0] in blockedBy;
      }
    }

    // ---- tasks ----

    method CreateTask(id: Id, body: NewTask) returns (r: Outcome<Task>)
      modifies this
      ensures State() == Step(old(State()), Create(id, body))
      ensures r == if !CreateValid(body) then Err(InvalidValue)
                   else if body.parent.Some? && body.parent.value !in old(tasks) then Err(NotFound)
                   else if id in old(tasks) then Err(DuplicateId) else Ok(Created(body))
      ensures deps == old(deps) && tasks == if r.Ok? then old(tasks)[id := r.value] else old(tasks)
      ensures r.Ok? ==>
        && r.value.project == body.project && r.value.assignedTo == body.assignedTo && r.value.parent == body.parent
        && r.value.status == (if body.assignedTo != "" then "assigned" else "pending")
        && r.value.priority == (if body.priority != "" then body.priority else "medium")
        && r.value.source == (if body.source != "" then body.source else "system")
      ensures r == Err(InvalidValue) <==>
        || body.priority !in {"", "critical", "high", "medium", "low"}
        || body.source !in {"", "user", "backlog", "self-generated", "worker-escalation", "system"}
    {
      if body.priority != "" && body.priority !in VALID_PRIORITIES {
        return Err(InvalidValue);
      }
      if body.source != "" && body.source !in VALID_SOURCES {
        return Err(InvalidValue);
      }
      if body.parent.Some? && body.parent.value !in tasks {
        return Err(NotFound);
      }
      if id in tasks {
        return Err(DuplicateId);
      }
      var status := if body.assignedTo != "" then "assigned" else "pending";
      var task := Task(body.project, body.assignedTo, status,
                       if body.priority == "" then "medium" else body.priority,
                       if body.source == "" then "system" else body.source, body.parent);
      tasks := tasks[id := task];
      return Ok(task);
    }

    method UpdateTask(id: Id, update: Update) returns (r: Outcome<Task>)
      modifies this
      ensures State() == Step(old(State()), Patch(id, update))
      ensures r == if !UpdateValid(update) then Err(InvalidValue)
                   else if id !in old(tasks) then Err(NotFound) else Ok(Patched(old(tasks)[id], update))
      ensures deps == old(deps) && tasks == if r.Ok? then old(tasks)[id := r.value] else old(tasks)
      ensures r.Ok? ==>
        var row := old(tasks)[id];
        && r.value.project == row.project && r.value.parent == row.parent
        && (update.assignedTo.None? ==> r.value.assignedTo == row.assignedTo)
        && (update.priority.None? ==> r.value.priority == row.priority)
        && (update.source.None? ==> r.value.source == row.source)
        && (update.status.None? && (update.assignedTo.None? || row.status != "pending") ==> r.value.status == row.status)
        && (update.status.None? && update.assignedTo.Some? && row.status == "pending" ==> r.value.status == "assigned")
        && (update.status.Some? ==> r.value.status == update.status.value)
        && (update.assignedTo.Some? ==> r.value.assignedTo == update.assignedTo.value)
        && (update.priority.Some? ==> r.value.priority == update.priority.value)
        && (update.source.Some? ==> r.value.source == update.source.value)
      ensures r == Err(InvalidValue) <==>
        || (update.status.Some? && update.status.value !in
              {"backlog", "pending", "assigned", "in-progress", "review", "done", "verified", "blocked", "failed"})
        || (update.priority.Some? && update.priority.value !in {"critical", "high", "medium", "low"})
        || (update.source.Some? && update.source.value !in {"user", "backlog", "self-generated", "worker-escalation", "system"})
    {
      if update.status.Some? && update.status.value !in VALID_STATUSES {
        return Err(InvalidValue);
      }
      if update.priority.Some? && update.priority.value !in VALID_PRIORITIES {
        return Err(InvalidValue);
      }
      if update.source.Some? && update.source.value !in VALID_SOURCES {
        return Err(InvalidValue);
      }
      if id !in tasks {
        return Err(NotFound);
      }
      var row := tasks[id];
      var task := row;
      if update.status.Some? {
        task := task.(status := update.status.value);
      }
      if update.assignedTo.Some? {
        task := task.(assignedTo := update.assignedTo.value);
        if row.status == "pending" && update.status.None? {
          task := task.(status := "assigned");
        }
      }
      if update.priority.Some? {
        task := task.(priority := update.priority.value);
      }
      if update.source.Some? {
        task := task.(source := update.source.value);
      }
      tasks := tasks[id := task];
      return Ok(task);
    }

    method DeleteTask(id: Id) returns (r: Outcome<nat>)
      requires Consistent(State())
      modifies this
      ensures State() == Step(old(State()), Delete(id))
      ensures r == if id in old(tasks) then Ok(|Subtree(old(tasks), id)|) else Err(NotFound)
      ensures r.Ok? ==> forall x :: x in tasks <==> x in old(tasks) && !Reaches(ParentEdges(old(tasks)), x, id)
      ensures forall x :: x in tasks ==> x in old(tasks) && tasks[x] == old(tasks)[x]
      ensures forall e :: e in deps <==> e in old(deps) && e.task in tasks && e.dep in tasks
    {
      if id !in tasks {
        return Err(NotFound);
      }
      var deleted := DeleteRecursive(id);
      return Ok(deleted);
    }

    /** Children first, then the row itself; deleting a row cascades to its edges. */
    method DeleteRecursive(parent: Id) returns (count: nat)
      requires parent in tasks && IsForest(tasks)
      modifies this
      ensures tasks == old(tasks) - Subtree(old(tasks), parent)
      ensures deps == Cascade(old(deps), Subtree(old(tasks), parent))
      ensures count == |Subtree(old(tasks), parent)|
      decreases |Subtree(tasks, parent)|
    {
      hide IsForest, Subtree, Below, Cascade, NoDup;
      ghost var t0, d0 := tasks, deps;
      var children := Enumerate(set x | x in tasks && tasks[x].parent == Some(parent));
      count := 0;
      DeletedBefore(t0, d0, parent, children);
      var i := 0;
      while i < |children|
        invariant 0 <= i <= |children|
        invariant tasks == t0 - Below(t0, ToSet(children[..i]))
        invariant deps == Cascade(d0, Below(t0, ToSet(children[..i])))
        invariant count == |Below(t0, ToSet(children[..i]))|
      {
        DeleteNext(t0, d0, parent, children, i);
        var n := DeleteRecursive(children[i]);
        count := count + n;
        i := i + 1;
      }
      DeletedAll(t0, d0, parent, children);
      tasks := tasks - {parent};
      deps := Cascade(deps, {parent});
      count := count + 1;
    }

    // ---- queries over the graph ----

    method GetReadyTasks(project: string) returns (ready: seq<Id>)
      requires Consistent(State())
      ensures NoDup(ready)
      ensures forall x :: x in ready <==> Ready(State(), x) && InProject(tasks[x], project)
      ensures forall x :: x in ready <==>
                x in tasks && (project == "" || tasks[x].project == project)
                && (tasks[x].status == "pending" || tasks[x].status == "assigned")
                && forall d :: Edge(x, d) in deps && d in tasks ==> tasks[d].status == "done" || tasks[d].status == "verified"
    {
      var candidates := Enumerate(set x | x in tasks && Startable(tasks[x]) && InProject(tasks[x], project));
      var blocked := set e | e in deps && e.task in candidates && e.dep in tasks && !Finished(tasks[e.dep]) :: e.task;
      assert forall x :: x in candidates <==> x in ToSet(candidates);
      ready := [];
      var i := 0;
      while i < |candidates|
        invariant 0 <= i <= |candidates| && NoDup(ready)
        invariant forall x :: x in ready <==> x in candidates[..i] && x !in blocked
      {
        assert candidates[..i + 1] == candidates[..i] + [candidates[i]];
        if candidates[i] !in blocked {
          NoDupAppend(ready, candidates[i]);
          ready := ready + [candidates[i]];
        }
        i := i + 1;
      }
      assert candidates[..i] == candidates;
      forall x | x in candidates ensures x !in blocked <==> Ready(State(), x) {
        if x !in blocked {
          forall d | Edge(x, d) in deps && d in tasks ensures Finished(tasks[d]) {
            assert Edge(x, d).task in candidates;
          }
        }
      }
    }

    /** Exactly the project's tasks that are not done, verified or failed, over all edges between them. */
    method TopologicalSort(project: string) returns (order: seq<Id>)
      ensures Kahn.IsTopologicalSort(ActiveIds(State(), project), ActiveEdges(State(), project), order)
      ensures forall x :: x in order <==>
                x in tasks && (project == "" || tasks[x].project == project)
                && tasks[x].status != "done" && tasks[x].status != "verified" && tasks[x].status != "failed"
      ensures Kahn.IsTopologicalSort(ToSet(order), (set e | e in deps && e.task in order && e.dep in order), order)
      ensures Acyclic(deps) ==> forall i, d :: 0 <= i < |order| && Edge(order[i], d) in deps && d in order ==> d in order[..i]
    {
      hide Kahn.IsTopologicalSort, ActiveIds;
      var ids := ActiveIds(State(), project);
      var rows := Enumerate(ActiveEdges(State(), project));
      order := Kahn.Order(ids, rows);
      WithinMembers(rows, ids);
      forall e ensures e in ToSet(Within(rows, ids)) <==> e in ActiveEdges(State(), project) {
        assert e in rows <==> e in ToSet(rows);
      }
      assert ToSet(Within(rows, ids)) == ActiveEdges(State(), project);
      SortsTheActive(State(), project, order);
    }

    /** The tasks of the project and every edge with at least one end among them. */
    method GetFullDag(project: string) returns (nodes: seq<Id>, edges: seq<Edge>)
      ensures NoDup(nodes) && ToSet(nodes) == set x | x in tasks && InProject(tasks[x], project)
      ensures forall x :: x in nodes <==> x in tasks && (project == "" || tasks[x].project == project)
      ensures NoDup(edges)
      ensures forall e :: e in edges <==> e in deps && (e.task in nodes || e.dep in nodes)
    {
      nodes := Enumerate(set x | x in tasks && InProject(tasks[x], project));
      assert forall x :: x in nodes <==> x in ToSet(nodes);
      edges := [];
      if |nodes| > 0 {
        edges := Enumerate(set e | e in deps && (e.task in nodes || e.dep in nodes));
        assert forall e :: e in edges <==> e in ToSet(edges);
      }
    }

    /** The execution order, each task with its dependencies and its ready flag. */
    method GetExecutionOrder(project: string) returns (order: seq<Scheduled>)
      requires Consistent(State())
      ensures Kahn.IsTopologicalSort(ActiveIds(State(), project), ActiveEdges(State(), project),
                                     seq(|order|, i requires 0 <= i < |order| => order[i].id))
      ensures forall i :: 0 <= i < |order| ==> ScheduledAs(State(), order[i])
      ensures forall x :: (exists i :: 0 <= i < |order| && order[i].id == x) <==>
                x in tasks && (project == "" || tasks[x].project == project)
                && tasks[x].status != "done" && tasks[x].status != "verified" && tasks[x].status != "failed"
      ensures forall i, d :: 0 <= i < |order| && Edge(order[i].id, d) in deps && (exists j :: 0 <= j < |order| && order[j].id == d)
                ==> exists j :: 0 <= j < i && order[j].id == d
    {
      hide Kahn.IsTopologicalSort, Consistent, ScheduledAs, ActiveIds, ActiveEdges, InProject;
      assert Acyclic(deps) by { AcyclicOf(State()); }
      var ids := TopologicalSort(project);
      var ready := GetReadyTasks(project);
      OrderInProject(State(), project, ids);
      order := [];
      var i := 0;
      while i < |ids|
        invariant 0 <= i <= |ids| && |order| == i
        invariant forall k :: 0 <= k < i ==> order[k].id == ids[k] && ScheduledAs(State(), order[k])
      {
        assert ids[i] in ids;
        var dependsOn := Enumerate(set e | e in deps && e.task == ids[i] :: e.dep);
        var entry := Scheduled(ids[i], dependsOn, ids[i] in ready);
        ScheduledIs(State(), entry);
        order := order + [entry];
        i := i + 1;
      }
      assert seq(|order|, i requires 0 <= i < |order| => order[i].id) == ids;
      forall x ensures (exists i :: 0 <= i < |order| && order[i].id == x) <==> x in ids {
        if x in ids {
          var i :| 0 <= i < |ids| && ids[i] == x;
          assert order[i].id == x;
        }
      }
      forall i, d | 0 <= i < |order| && Edge(order[i].id, d) in deps && (exists j :: 0 <= j < |order| && order[j].id == d)
        ensures exists j :: 0 <= j < i && order[j].id == d
      {
        assert Edge(ids[i], d) in deps && d in ids;
        assert d in ids[..i];
        var j :| 0 <= j < i && ids[j] == d;
        assert order[j].id == d;
      }
    }
  }

  lemma AcyclicOf(db: Db)
    requires Consistent(db)
    ensures Acyclic(db.deps)
  {
  }

  /** What is sorted, in the words of the query. */
  lemma SortsTheActive(db: Db, project: string, order: seq<Id>)
    requires Kahn.IsTopologicalSort(ActiveIds(db, project), ActiveEdges(db, project), order)
    ensures forall x :: x in order <==>
              x in db.tasks && (project == "" || db.tasks[x].project == project)
              && db.tasks[x].status != "done" && db.tasks[x].status != "verified" && db.tasks[x].status != "failed"
    ensures Kahn.IsTopologicalSort(ToSet(order), (set e | e in db.deps && e.task in order && e.dep in order), order)
    ensures Acyclic(db.deps) ==> forall i, d :: 0 <= i < |order| && Edge(order[i], d) in db.deps && d in order ==> d in order[..i]
  {
    hide Kahn.KahnOrder, Kahn.Resolvable;
    var ids, E := ActiveIds(db, project), ActiveEdges(db, project);
    assert forall x :: x in order <==> x in ToSet(order);
    assert E == set e | e in db.deps && e.task in order && e.dep in order;
    if Acyclic(db.deps) {
      AcyclicSubset(E, db.deps);
      Kahn.TailEmptyIffAcyclic(ids, E, order);
      forall i, d | 0 <= i < |order| && Edge(order[i], d) in db.deps && d in order ensures d in order[..i] {
        assert order[i] in order;
        Kahn.DependenciesFirst(ids, E, order, i, d);
      }
    }
  }

  /** A table with one task of each status, named after it. */
  function OneOfEach(project: string): map<Id, Task> {
    map s | s in VALID_STATUSES :: Id(s) := Task(project, "", s, "medium", "system", None)
  }

  /** The tasks of such a table are its statuses. */
  lemma OneOfEachIs(project: string)
    ensures forall x :: x in OneOfEach(project) <==> x.text in VALID_STATUSES
    ensures forall x :: x in OneOfEach(project) ==>
              OneOfEach(project)[x].status == x.text && OneOfEach(project)[x].project == project && x == Id(x.text)
  {
    forall x ensures x in OneOfEach(project) <==> x.text in VALID_STATUSES {
      assert x == Id(x.text);
    }
  }

  /** Of one task of each status six are sorted, over the edges between them. */
  lemma EachStatusSorted(project: string, deps: set<Edge>)
    ensures var db := Db(OneOfEach(project), deps);
            var sorted := {Id("backlog"), Id("pending"), Id("assigned"), Id("in-progress"), Id("review"), Id("blocked")};
            ActiveIds(db, project) == sorted && ActiveEdges(db, project) == set e | e in deps && e.task in sorted && e.dep in sorted
  {
    OneOfEachIs(project);
    hide OneOfEach;
    var db := Db(OneOfEach(project), deps);
    forall x ensures x in ActiveIds(db, project) <==>
        x.text in {"backlog", "pending", "assigned", "in-progress", "review", "blocked"}
    {
    }
    forall x: Id ensures x.text in {"backlog", "pending", "assigned", "in-progress", "review", "blocked"} <==>
        x in {Id("backlog"), Id("pending"), Id("assigned"), Id("in-progress"), Id("review"), Id("blocked")}
    {
      assert x == Id(x.text);
    }
  }

  /** Two of them can start, when what they wait for is done or verified. */
  lemma EachStatusReady(project: string, deps: set<Edge>, x: Id)
    requires x.text in VALID_STATUSES
    ensures Ready(Db(OneOfEach(project), deps), x) <==>
      x.text in {"pending", "assigned"} && forall d :: Edge(x, d) in deps && d.text in VALID_STATUSES ==> d.text in {"done", "verified"}
  {
    OneOfEachIs(project);
    hide OneOfEach;
  }

  /** The dependencies are all of the task's, active or not, each once; the flag says whether it can start. */
  ghost predicate ScheduledAs(db: Db, s: Scheduled) {
    && NoDup(s.dependsOn) && (forall d :: d in s.dependsOn <==> Edge(s.id, d) in db.deps)
    && (s.ready <==> Ready(db, s.id))
  }

  lemma ScheduledIs(db: Db, s: Scheduled)
    requires NoDup(s.dependsOn) && ToSet(s.dependsOn) == set e | e in db.deps && e.task == s.id :: e.dep
    requires s.ready <==> Ready(db, s.id)
    ensures ScheduledAs(db, s)
  {
    assert forall d :: d in s.dependsOn <==> d in ToSet(s.dependsOn);
    assert forall d :: d in ToSet(s.dependsOn) <==> Edge(s.id, d) in db.deps;
  }

  /** The flag of a dependency report. */
  ghost predicate ReportedReady(db: Db, x: Id) {
    forall d :: Edge(x, d) in db.deps && d in db.tasks ==> Finished(db.tasks[d])
  }

  /** A single task that is done: its report says ready, and it is not in the list of ready tasks. */
  lemma DoneReportedReady(id: Id, project: string)
    ensures var done := Task(project, "", "done", "medium", "system", None);
            var db := Db(map[id := done], {});
            Consistent(db) && ReportedReady(db, id) && !Ready(db, id)
  {
    var done := Task(project, "", "done", "medium", "system", None);
    var db := Db(map[id := done], {});
    CreateKeepsForest(map[], id, done) by { EmptyConsistent(); }
    EmptyConsistent();
    assert map[][id := done] == db.tasks;
    assert "done"[0] != "pending"[0] && "done"[0] != "assigned"[0];
  }

  lemma OrderInProject(db: Db, project: string, order: seq<Id>)
    requires Kahn.IsTopologicalSort(ActiveIds(db, project), ActiveEdges(db, project), order)
    ensures forall x :: x in order ==> x in db.tasks && InProject(db.tasks[x], project)
  {
    assert forall x :: x in order <==> x in ToSet(order);
  }

  /** The next child's subtree is disjoint from those already removed, which are closed downwards. */
  lemma NextChild(tasks: map<Id, Task>, parent: Id, children: seq<Id>, i: nat)
    requires IsForest(tasks) && NoDup(children) && i < |children|
    requires ToSet(children) == set x | x in tasks && tasks[x].parent == Some(parent)
    ensures var removed := Below(tasks, ToSet(children[..i]));
            && Subtree(tasks, children[i]) !! removed
            && Below(tasks, ToSet(children[..i + 1])) == removed + Subtree(tasks, children[i])
            && (forall x :: x in tasks && tasks[x].parent.Some? && tasks[x].parent.value in removed ==> x in removed)
  {
    var P, child, removed := ParentEdges(tasks), children[i], Below(tasks, ToSet(children[..i]));
    assert child in ToSet(children);
    assert children[..i + 1] == children[..i] + [child];
    ToSetAppend(children[..i], child);
    forall x | x in removed ensures x !in Subtree(tasks, child) {
      var c :| c in ToSet(children[..i]) && x in Subtree(tasks, c);
      assert c in ToSet(children) && c != child;
      SiblingsDisjoint(tasks, parent, c, child);
    }
    forall x | x in tasks && tasks[x].parent.Some? && tasks[x].parent.value in removed ensures x in removed {
      var p := tasks[x].parent.value;
      var c :| c in ToSet(children[..i]) && p in Subtree(tasks, c);
      ReachesEdge(P, x, p);
      ReachesTrans(P, x, p, c);
    }
  }

  /** Before the first child, nothing is gone. */
  lemma DeletedBefore(tasks: map<Id, Task>, deps: set<Edge>, parent: Id, children: seq<Id>)
    ensures Below(tasks, ToSet(children[..0])) == {}
    ensures tasks - {} == tasks && Cascade(deps, {}) == deps
  {
  }

  /** Deleting the next child's subtree from what is left takes exactly that subtree. */
  lemma DeleteNext(tasks: map<Id, Task>, deps: set<Edge>, parent: Id, children: seq<Id>, i: nat)
    requires IsForest(tasks) && parent in tasks && NoDup(children) && i < |children|
    requires ToSet(children) == set x | x in tasks && tasks[x].parent == Some(parent)
    ensures var removed, next := Below(tasks, ToSet(children[..i])), Below(tasks, ToSet(children[..i + 1]));
            var left, child := tasks - removed, children[i];
            && child in left && IsForest(left)
            && |Subtree(left, child)| < |Subtree(tasks, parent)|
            && left - Subtree(left, child) == tasks - next
            && Cascade(Cascade(deps, removed), Subtree(left, child)) == Cascade(deps, next)
            && |removed| + |Subtree(left, child)| == |next|
  {
    hide Below, Subtree, NoDup, IsForest, Cascade;
    var removed, child := Below(tasks, ToSet(children[..i])), children[i];
    NextChild(tasks, parent, children, i);
    assert child in ToSet(children);
    OneChild(tasks, removed, parent, child);
    CascadeTwice(tasks, deps, removed, Subtree(tasks, child));
  }

  lemma CascadeTwice(tasks: map<Id, Task>, deps: set<Edge>, R: set<Id>, S: set<Id>)
    ensures (tasks - R) - S == tasks - (R + S)
    ensures Cascade(Cascade(deps, R), S) == Cascade(deps, R + S)
  {
  }

  lemma OneChild(tasks: map<Id, Task>, removed: set<Id>, parent: Id, child: Id)
    requires IsForest(tasks) && parent in tasks && child in tasks && tasks[child].parent == Some(parent)
    requires Subtree(tasks, child) !! removed
    requires forall x :: x in tasks && tasks[x].parent.Some? && tasks[x].parent.value in removed ==> x in removed
    ensures child in tasks - removed && IsForest(tasks - removed)
    ensures Subtree(tasks - removed, child) == Subtree(tasks, child)
    ensures |Subtree(tasks, child)| < |Subtree(tasks, parent)|
  {
    hide Reaches, OnCycle;
    var P, Q := ParentEdges(tasks), ParentEdges(tasks - removed);
    ChildSmaller(tasks, parent, child);
    SubtreeUntouched(tasks, removed, child);
    ReachesSelf(P, child);
    assert child in Subtree(tasks, child);
    AcyclicSubset(Q, P);
  }

  /** After the last child, only `parent` itself is left to delete. */
  lemma DeletedAll(tasks: map<Id, Task>, deps: set<Edge>, parent: Id, children: seq<Id>)
    requires IsForest(tasks) && parent in tasks
    requires ToSet(children) == set x | x in tasks && tasks[x].parent == Some(parent)
    ensures var removed, sub := Below(tasks, ToSet(children[..|children|])), Subtree(tasks, parent);
            && (tasks - removed) - {parent} == tasks - sub
            && Cascade(Cascade(deps, removed), {parent}) == Cascade(deps, sub)
            && |removed| + 1 == |sub|
  {
    var kids := ToSet(children);
    assert children[..|children|] == children;
    forall x | x in tasks ensures x in Subtree(tasks, parent) <==> x in Below(tasks, kids) + {parent} {
      SubtreeSplit(tasks, parent, x);
    }
    assert Subtree(tasks, parent) == Below(tasks, kids) + {parent};
    if parent in Below(tasks, kids) {
      var c :| c in kids && parent in Subtree(tasks, c);
      assert OnCycle(ParentEdges(tasks), c);
    }
  }

  /** One call of the API. */
  method Perform(tables: TaskTables, call: Call)
    requires Consistent(tables.State())
    modifies tables
    ensures tables.State() == Step(old(tables.State()), call)
  {
    hide Step;
    match call {
      case Create(id, body) => var _ := tables.CreateTask(id, body);
      case Patch(id, update) => var _ := tables.UpdateTask(id, update);
      case Delete(id) => var _ := tables.DeleteTask(id);
      case AddDependency(task, dep) => var _ := tables.AddDependency(task, dep);
      case RemoveDependency(task, dep) => var _ := tables.RemoveDependency(task, dep);
    }
  }

  /**
   A call on a consistent table leaves it consistent: with each method's effect given by `Step`,
   this is the invariant every sequence of API calls keeps.
   */
  method AnyRun(tables: TaskTables, calls: seq<Call>)
    requires Consistent(tables.State())
    modifies tables
    ensures tables.State() == Run(old(tables.State()), calls)
    ensures Consistent(tables.State())
  {
    var i := 0;
    ghost var db := tables.State();
    assert calls[0..] == calls;
    while i < |calls|
      invariant 0 <= i <= |calls|
      invariant Consistent(tables.State())
      invariant Run(tables.State(), calls[i..]) == Run(db, calls)
    {
      hide Step, Consistent;
      StepKeepsConsistent(tables.State(), calls[i]);
      assert calls[i..][1..] == calls[i + 1..];
      Perform(tables, calls[i]);
      i := i + 1;
    }
    assert calls[i..] == [];
  }
}
