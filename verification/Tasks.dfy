/**
 The task table, its dependency edges and what each API call does to them.
 Every call is one transaction, so a run is a sequence of steps.
 */
module Tasks {
  import opened Collections
  import opened Graph

  const VALID_STATUSES: set<string> :=
    {"backlog", "pending", "assigned", "in-progress", "review", "done", "verified", "blocked", "failed"}
  const VALID_PRIORITIES: set<string> := {"critical", "high", "medium", "low"}
  const VALID_SOURCES: set<string> := {"user", "backlog", "self-generated", "worker-escalation", "system"}

  datatype Task = Task(project: string, assignedTo: string, status: string, priority: string, source: string,
                       parent: Option<Id>)

  datatype Db = Db(tasks: map<Id, Task>, deps: set<Edge>)

  datatype Error = InvalidValue | NotFound | DuplicateId | WouldCycle

  datatype Outcome<+T> = Ok(value: T) | Err(error: Error)

  /** The fields a caller may set; None leaves a field as it is. */
  datatype Update = Update(status: Option<string>, assignedTo: Option<string>,
                           priority: Option<string>, source: Option<string>)

  /** The body of a create call; "" where the caller gave nothing. */
  datatype NewTask = NewTask(project: string, assignedTo: string, priority: string, source: string, parent: Option<Id>)

  // ---- parents ----

  /** x is below its parent. */
  function ParentEdges(tasks: map<Id, Task>): (r: set<Edge>)
    ensures forall e :: e in r <==> e.task in tasks && tasks[e.task].parent == Some(e.dep)
  {
    set x | x in tasks && tasks[x].parent.Some? :: Edge(x, tasks[x].parent.value)
  }

  /** A task and everything below it. */
  ghost function Subtree(tasks: map<Id, Task>, top: Id): set<Id> {
    set x | x in tasks && Reaches(ParentEdges(tasks), x, top)
  }

  ghost predicate IsForest(tasks: map<Id, Task>) {
    && (forall x :: x in tasks && tasks[x].parent.Some? ==> tasks[x].parent.value in tasks)
    && Acyclic(ParentEdges(tasks))
  }

  /** What every run keeps. */
  ghost predicate Consistent(db: Db) {
    && (forall e :: e in db.deps ==> e.task in db.tasks && e.dep in db.tasks)
    && Acyclic(db.deps)
    && IsForest(db.tasks)
  }

  // ---- steps ----

  datatype Call =
    | Create(id: Id, body: NewTask)
    | Patch(id: Id, update: Update)
    | Delete(id: Id)
    | AddDependency(task: Id, dep: Id)
    | RemoveDependency(task: Id, dep: Id)

  predicate CreateValid(body: NewTask) {
    && (body.priority != "" ==> body.priority in VALID_PRIORITIES)
    && (body.source != "" ==> body.source in VALID_SOURCES)
  }

  predicate UpdateValid(update: Update) {
    && (update.status.Some? ==> update.status.value in VALID_STATUSES)
    && (update.priority.Some? ==> update.priority.value in VALID_PRIORITIES)
    && (update.source.Some? ==> update.source.value in VALID_SOURCES)
  }

  function Created(body: NewTask): Task {
    Task(body.project, body.assignedTo, if body.assignedTo != "" then "assigned" else "pending",
         if body.priority != "" then body.priority else "medium",
         if body.source != "" then body.source else "system", body.parent)
  }

  function Patched(task: Task, update: Update): Task {
    task.(
      status :=
        if update.status.Some? then update.status.value
        else if update.assignedTo.Some? && task.status == "pending" then "assigned"
        else task.status,
      assignedTo := if update.assignedTo.Some? then update.assignedTo.value else task.assignedTo,
      priority := if update.priority.Some? then update.priority.value else task.priority,
      source := if update.source.Some? then update.source.value else task.source)
  }

  /** The edges that survive when the tasks R are deleted: those that touch none of them. */
  function Cascade(deps: set<Edge>, R: set<Id>): set<Edge> {
    set e | e in deps && e.task !in R && e.dep !in R
  }

  ghost function Step(db: Db, call: Call): Db {
    match call
    case Create(id, body) =>
      if CreateValid(body) && (body.parent.Some? ==> body.parent.value in db.tasks) && id !in db.tasks
      then db.(tasks := db.tasks[id := Created(body)]) else db
    case Patch(id, update) =>
      if UpdateValid(update) && id in db.tasks
      then db.(tasks := db.tasks[id := Patched(db.tasks[id], update)]) else db
    case Delete(id) =>
      if id in db.tasks
      then Db(db.tasks - Subtree(db.tasks, id), Cascade(db.deps, Subtree(db.tasks, id))) else db
    case AddDependency(task, dep) =>
      if task in db.tasks && dep in db.tasks && !Reaches(db.deps, dep, task)
      then db.(deps := db.deps + {Edge(task, dep)}) else db
    case RemoveDependency(task, dep) =>
      db.(deps := db.deps - {Edge(task, dep)})
  }

  ghost function Run(db: Db, calls: seq<Call>): Db
    decreases |calls|
  {
    if calls == [] then db else Run(Step(db, calls[0]), calls[1..])
  }

  // ---- every reachable table is consistent ----

  lemma CreateKeepsForest(tasks: map<Id, Task>, id: Id, task: Task)
    requires IsForest(tasks) && id !in tasks && (task.parent.Some? ==> task.parent.value in tasks)
    ensures IsForest(tasks[id := task])
  {
    var P, Q := ParentEdges(tasks), ParentEdges(tasks[id := task]);
    assert forall e :: e in P ==> e.task in tasks && e.dep in tasks;
    if task.parent.Some? {
      var p := task.parent.value;
      assert Q == P + {Edge(id, p)};
      if Reaches(P, p, id) {
        ClosedReaches(P, tasks.Keys, p, id);
      }
      AddEdgeAcyclic(P, id, p);
    } else {
      assert Q == P;
    }
  }

  lemma PatchKeepsForest(tasks: map<Id, Task>, id: Id, update: Update)
    requires IsForest(tasks) && id in tasks
    ensures IsForest(tasks[id := Patched(tasks[id], update)])
  {
    assert ParentEdges(tasks[id := Patched(tasks[id], update)]) == ParentEdges(tasks);
  }

  lemma DeleteKeepsForest(tasks: map<Id, Task>, id: Id)
    requires IsForest(tasks) && id in tasks
    ensures IsForest(tasks - Subtree(tasks, id))
  {
    var P := ParentEdges(tasks);
    var rest := tasks - Subtree(tasks, id);
    AcyclicSubset(ParentEdges(rest), P);
    forall x | x in rest && rest[x].parent.Some? ensures rest[x].parent.value in rest {
      var p := tasks[x].parent.value;
      if p in Subtree(tasks, id) {
        ReachesEdge(P, x, p);
        ReachesTrans(P, x, p, id);
      }
    }
  }

  lemma StepKeepsConsistent(db: Db, call: Call)
    requires Consistent(db)
    ensures Consistent(Step(db, call))
  {
    match call
    case Create(id, body) =>
      if Step(db, call) != db {
        CreateKeepsForest(db.tasks, id, Created(body));
      }
    case Patch(id, update) =>
      if Step(db, call) != db {
        PatchKeepsForest(db.tasks, id, update);
      }
    case Delete(id) =>
      if id in db.tasks {
        DeleteKeepsForest(db.tasks, id);
        AcyclicSubset(Cascade(db.deps, Subtree(db.tasks, id)), db.deps);
      }
    case AddDependency(task, dep) =>
      AddEdgeAcyclic(db.deps, task, dep);
    case RemoveDependency(task, dep) =>
      AcyclicSubset(db.deps - {Edge(task, dep)}, db.deps);
  }

  /** Over every run: edges join existing tasks without a cycle, and parents form a forest. */
  lemma {:induction false} RunKeepsConsistent(db: Db, calls: seq<Call>)
    requires Consistent(db)
    ensures Consistent(Run(db, calls))
    decreases |calls|
  {
    if calls != [] {
      StepKeepsConsistent(db, calls[0]);
      RunKeepsConsistent(Step(db, calls[0]), calls[1..]);
    }
  }

  lemma EmptyConsistent()
    ensures Consistent(Db(map[], {}))
  {
    assert ParentEdges(map[]) == {};
  }

  /** An add between existing tasks is refused exactly when the edge would close a cycle. */
  lemma AddRefusesExactlyCycles(db: Db, task: Id, dep: Id)
    requires Consistent(db) && task in db.tasks && dep in db.tasks
    ensures Edge(task, dep) in Step(db, AddDependency(task, dep)).deps
            <==> Acyclic(db.deps + {Edge(task, dep)})
  {
    AddEdgeAcyclic(db.deps, task, dep);
    if Edge(task, dep) in db.deps {
      assert db.deps + {Edge(task, dep)} == db.deps;
    }
  }

  // ---- subtrees ----

  /** The tasks in the subtrees of any of these. */
  ghost function Below(tasks: map<Id, Task>, tops: set<Id>): set<Id> {
    set x | x in tasks && exists c :: c in tops && x in Subtree(tasks, c)
  }

  lemma {:induction false} LastStep(E: set<Edge>, p: seq<Id>) returns (c: Id)
    requires IsPath(E, p) && |p| > 1
    ensures Edge(c, p[|p| - 1]) in E && Reaches(E, p[0], c)
  {
    c := p[|p| - 2];
    assert Linked(E, p, |p| - 1);
    SubPath(E, p, 0, |p| - 2);
  }

  /** x is below `top` exactly when it is `top` or below one of its children. */
  lemma SubtreeSplit(tasks: map<Id, Task>, top: Id, x: Id)
    requires top in tasks && x in tasks
    ensures x in Subtree(tasks, top)
            <==> x == top || exists c :: c in tasks && tasks[c].parent == Some(top) && x in Subtree(tasks, c)
  {
    var P := ParentEdges(tasks);
    ReachesSelf(P, top);
    if x in Subtree(tasks, top) && x != top {
      var p :| PathBetween(P, p, x, top);
      var c := LastStep(P, p);
      assert c in tasks && tasks[c].parent == Some(top) && x in Subtree(tasks, c);
    }
    forall c | c in tasks && tasks[c].parent == Some(top) && x in Subtree(tasks, c) ensures x in Subtree(tasks, top) {
      assert Edge(c, top) in P;
      ReachesEdge(P, c, top);
      ReachesTrans(P, x, c, top);
    }
  }

  /** Going up is deterministic: of two tasks above x one is above the other. */
  lemma {:induction false} AncestorsLinear(tasks: map<Id, Task>, p: seq<Id>, q: seq<Id>)
    requires IsPath(ParentEdges(tasks), p) && IsPath(ParentEdges(tasks), q) && p[0] == q[0] && |p| <= |q|
    ensures Reaches(ParentEdges(tasks), p[|p| - 1], q[|q| - 1])
  {
    var P := ParentEdges(tasks);
    AncestorsAgree(tasks, p, q, |p| - 1);
    SubPath(P, q, |p| - 1, |q| - 1);
  }

  lemma {:induction false} AncestorsAgree(tasks: map<Id, Task>, p: seq<Id>, q: seq<Id>, k: nat)
    requires IsPath(ParentEdges(tasks), p) && IsPath(ParentEdges(tasks), q) && p[0] == q[0]
    requires k < |p| && k < |q|
    ensures p[k] == q[k]
  {
    if k > 0 {
      AncestorsAgree(tasks, p, q, k - 1);
      assert Linked(ParentEdges(tasks), p, k) && Linked(ParentEdges(tasks), q, k);
    }
  }

  /** Tasks of which neither is above the other have disjoint subtrees. */
  lemma ApartDisjoint(tasks: map<Id, Task>, c: Id, d: Id)
    requires !Reaches(ParentEdges(tasks), c, d) && !Reaches(ParentEdges(tasks), d, c)
    ensures Subtree(tasks, c) !! Subtree(tasks, d)
  {
    var P := ParentEdges(tasks);
    forall x | x in Subtree(tasks, c) ensures x !in Subtree(tasks, d) {
      if x in Subtree(tasks, d) {
        var p :| PathBetween(P, p, x, c);
        var q :| PathBetween(P, q, x, d);
        if |p| <= |q| {
          AncestorsLinear(tasks, p, q);
        } else {
          AncestorsLinear(tasks, q, p);
        }
      }
    }
  }

  /** The subtrees of two siblings are disjoint. */
  lemma SiblingsDisjoint(tasks: map<Id, Task>, top: Id, c: Id, d: Id)
    requires Acyclic(ParentEdges(tasks)) && c in tasks && d in tasks && c != d
    requires tasks[c].parent == Some(top) && tasks[d].parent == Some(top)
    ensures Subtree(tasks, c) !! Subtree(tasks, d)
  {
    NotBelowSibling(tasks, top, c, d);
    NotBelowSibling(tasks, top, d, c);
    ApartDisjoint(tasks, c, d);
  }

  lemma NotBelowSibling(tasks: map<Id, Task>, top: Id, c: Id, d: Id)
    requires Acyclic(ParentEdges(tasks)) && c in tasks && d in tasks && c != d
    requires tasks[c].parent == Some(top) && tasks[d].parent == Some(top)
    ensures !Reaches(ParentEdges(tasks), c, d)
  {
    var P := ParentEdges(tasks);
    assert !OnCycle(P, d);
    assert Edge(d, top) in P;
    if Reaches(P, c, d) {
      var b := FirstStep(P, c, d);
    }
  }

  /** A child's subtree is a proper part of its parent's. */
  lemma ChildSmaller(tasks: map<Id, Task>, top: Id, c: Id)
    requires Acyclic(ParentEdges(tasks)) && top in tasks && c in tasks && tasks[c].parent == Some(top)
    ensures |Subtree(tasks, c)| < |Subtree(tasks, top)|
  {
    var P := ParentEdges(tasks);
    assert Edge(c, top) in P;
    ReachesSelf(P, top);
    forall x | x in Subtree(tasks, c) ensures x in Subtree(tasks, top) {
      ReachesEdge(P, c, top);
      ReachesTrans(P, x, c, top);
    }
    assert !OnCycle(P, c);
    assert top in Subtree(tasks, top) && top !in Subtree(tasks, c);
    CardSubset(Subtree(tasks, c), Subtree(tasks, top));
  }

  /** Removing whole subtrees elsewhere leaves this one as it was. */
  lemma SubtreeUntouched(tasks: map<Id, Task>, R: set<Id>, c: Id)
    requires forall x :: x in tasks && tasks[x].parent.Some? && tasks[x].parent.value in R ==> x in R
    requires Subtree(tasks, c) !! R
    ensures Subtree(tasks - R, c) == Subtree(tasks, c)
  {
    var P, Q := ParentEdges(tasks), ParentEdges(tasks - R);
    forall x | x in Subtree(tasks - R, c) ensures x in Subtree(tasks, c) {
      PathMonotone(Q, P, x, c);
    }
    forall x | x in Subtree(tasks, c) ensures x in Subtree(tasks - R, c) {
      var p :| PathBetween(P, p, x, c);
      forall i | 0 < i < |p| ensures Linked(Q, p, i) {
        assert Linked(P, p, i);
        SubPath(P, p, i - 1, |p| - 1);
        assert p[i - 1] in Subtree(tasks, c);
      }
      assert PathBetween(Q, p, x, c);
    }
  }
}
