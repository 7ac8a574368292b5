/** The task tree: visible tasks nested under their parents. */
module TaskTree {
  import opened Collections
  import opened Graph
  import opened Tasks

  datatype Tree = Node(id: Id, children: seq<Tree>)

  ghost function Ids(t: Tree): seq<Id>
    decreases t, 1
  {
    [t.id] + AllIds(t.children)
  }

  ghost function AllIds(ts: seq<Tree>): seq<Id>
    decreases ts, 0
  {
    if ts == [] then [] else AllIds(ts[..|ts| - 1]) + Ids(ts[|ts| - 1])
  }

  ghost function Tops(ts: seq<Tree>): seq<Id> {
    seq(|ts|, i requires 0 <= i < |ts| => ts[i].id)
  }

  /** The rows the query returns. */
  function Visible(tasks: map<Id, Task>, project: Option<string>, includeDone: bool): map<Id, Task> {
    map x | x in tasks && (includeDone || tasks[x].status != "done")
            && (project.Some? ==> tasks[x].project == project.value) :: tasks[x]
  }

  function ChildrenOf(rows: map<Id, Task>, parent: Option<Id>): set<Id> {
    set x | x in rows && rows[x].parent == parent
  }

  /** Every node's children are exactly the rows that name it as parent, each once. */
  ghost predicate Mirrors(rows: map<Id, Task>, t: Tree)
    decreases t
  {
    && t.id in rows
    && NoDup(Tops(t.children)) && ToSet(Tops(t.children)) == ChildrenOf(rows, Some(t.id))
    && forall i :: 0 <= i < |t.children| ==> Mirrors(rows, t.children[i])
  }

  /** What each place of the tree's top level is: rows apart from each other, each mirrored. */
  ghost predicate TopLevel(rows: map<Id, Task>, ts: seq<Tree>) {
    && NoDup(Tops(ts))
    && (forall i :: 0 <= i < |ts| ==> Mirrors(rows, ts[i]))
    && (forall i, j :: 0 <= i < |ts| && 0 <= j < |ts| && i != j ==> !Reaches(ParentEdges(rows), ts[i].id, ts[j].id))
  }

  /** A mirrored tree lists its whole subtree, each task once. */
  lemma {:induction false} TreeIds(rows: map<Id, Task>, t: Tree)
    requires Acyclic(ParentEdges(rows)) && Mirrors(rows, t)
    ensures NoDup(Ids(t)) && ToSet(Ids(t)) == Subtree(rows, t.id)
    decreases t, 1
  {
    var kids := t.children;
    forall i, j | 0 <= i < |kids| && 0 <= j < |kids| && i != j
      ensures !Reaches(ParentEdges(rows), kids[i].id, kids[j].id)
    {
      assert kids[i].id == Tops(kids)[i] && kids[j].id == Tops(kids)[j];
      assert kids[i].id in ToSet(Tops(kids)) && kids[j].id in ToSet(Tops(kids));
      NotBelowSibling(rows, t.id, kids[i].id, kids[j].id);
    }
    ForestIds(rows, kids);
    SubtreeOfTree(rows, t.id, ToSet(Tops(kids)));
    assert forall x :: x in Ids(t) <==> x == t.id || x in AllIds(kids);
    assert t.id !in ToSet(AllIds(kids));
    assert NoDup(Ids(t));
  }

  lemma SubtreeOfTree(rows: map<Id, Task>, top: Id, kids: set<Id>)
    requires Acyclic(ParentEdges(rows)) && top in rows && kids == ChildrenOf(rows, Some(top))
    ensures Subtree(rows, top) == Below(rows, kids) + {top} && top !in Below(rows, kids)
  {
    forall x | x in rows ensures x in Subtree(rows, top) <==> x in Below(rows, kids) + {top} {
      SubtreeSplit(rows, top, x);
    }
    if top in Below(rows, kids) {
      var c :| c in kids && top in Subtree(rows, c);
      assert OnCycle(ParentEdges(rows), c);
    }
  }

  lemma {:induction false} ForestIds(rows: map<Id, Task>, ts: seq<Tree>)
    requires Acyclic(ParentEdges(rows)) && TopLevel(rows, ts)
    ensures NoDup(AllIds(ts)) && ToSet(AllIds(ts)) == Below(rows, ToSet(Tops(ts)))
    decreases ts, 0
  {
    if ts == [] {
      assert Tops(ts) == [];
    } else {
      var n := |ts| - 1;
      var init, last := ts[..n], ts[n];
      assert Tops(init) == Tops(ts)[..n];
      ForestIds(rows, init);
      TreeIds(rows, last);
      assert Tops(ts) == Tops(init) + [last.id];
      ToSetAppend(Tops(init), last.id);
      LastApart(rows, ts, init, last);
      DisjointConcat(AllIds(init), Ids(last));
      assert Below(rows, ToSet(Tops(ts))) == Below(rows, ToSet(Tops(init))) + Subtree(rows, last.id);
    }
  }

  /** The last tree shares no task with those before it. */
  lemma LastApart(rows: map<Id, Task>, ts: seq<Tree>, init: seq<Tree>, last: Tree)
    requires ts == init + [last] && TopLevel(rows, ts)
    requires ToSet(AllIds(init)) == Below(rows, ToSet(Tops(init))) && ToSet(Ids(last)) == Subtree(rows, last.id)
    ensures forall x :: x in AllIds(init) ==> x !in Ids(last)
  {
    hide Mirrors, Reaches, Subtree, Ids, AllIds;
    var n := |ts| - 1;
    forall x | x in AllIds(init) ensures x !in Ids(last) {
      assert x in ToSet(AllIds(init));
      var c :| c in ToSet(Tops(init)) && x in Subtree(rows, c);
      var i :| 0 <= i < n && Tops(init)[i] == c;
      ApartDisjoint(rows, ts[i].id, ts[n].id);
      assert x !in ToSet(Ids(last));
    }
  }

  // ---- which tasks the whole tree shows ----

  /** x and all tasks above it are visible. */
  ghost predicate Shown(tasks: map<Id, Task>, rows: map<Id, Task>, x: Id) {
    forall a :: Reaches(ParentEdges(tasks), x, a) ==> a in rows
  }

  ghost function Ancestors(tasks: map<Id, Task>, x: Id): set<Id> {
    set a | a in tasks && Reaches(ParentEdges(tasks), x, a)
  }

  lemma {:induction false} TopAncestor(tasks: map<Id, Task>, x: Id) returns (r: Id)
    requires IsForest(tasks) && x in tasks
    ensures r in tasks && tasks[r].parent == None && Reaches(ParentEdges(tasks), x, r)
    decreases |Ancestors(tasks, x)|
  {
    var P := ParentEdges(tasks);
    ReachesSelf(P, x);
    if tasks[x].parent == None {
      r := x;
    } else {
      var p := tasks[x].parent.value;
      ReachesEdge(P, x, p);
      forall a | a in Ancestors(tasks, p) ensures a in Ancestors(tasks, x) {
        ReachesTrans(P, x, p, a);
      }
      assert !OnCycle(P, x);
      assert x in Ancestors(tasks, x) && x !in Ancestors(tasks, p);
      CardSubset(Ancestors(tasks, p), Ancestors(tasks, x));
      r := TopAncestor(tasks, p);
      ReachesTrans(P, x, p, r);
    }
  }

  /** A task is below a visible top-level task through visible tasks exactly when it is shown. */
  lemma BelowRootsIffShown(tasks: map<Id, Task>, rows: map<Id, Task>, x: Id)
    requires IsForest(tasks) && x in rows
    requires forall y :: y in rows ==> y in tasks && rows[y] == tasks[y]
    ensures x in Below(rows, ChildrenOf(rows, None)) <==> Shown(tasks, rows, x)
  {
    var P, Q := ParentEdges(tasks), ParentEdges(rows);
    if x in Below(rows, ChildrenOf(rows, None)) {
      var r :| r in ChildrenOf(rows, None) && x in Subtree(rows, r);
      var p :| PathBetween(Q, p, x, r);
      forall a | Reaches(P, x, a) ensures a in rows {
        VisiblePath(tasks, rows, p, a);
      }
    }
    if Shown(tasks, rows, x) {
      var r := TopAncestor(tasks, x);
      var p :| PathBetween(P, p, x, r);
      forall i | 0 < i < |p| ensures Linked(Q, p, i) {
        assert Linked(P, p, i);
        SubPath(P, p, 0, i - 1);
      }
      assert PathBetween(Q, p, x, r);
      assert r in ChildrenOf(rows, None) && x in Subtree(rows, r);
    }
  }

  /** Every ancestor lies on the visible path up to a top-level task. */
  lemma VisiblePath(tasks: map<Id, Task>, rows: map<Id, Task>, p: seq<Id>, a: Id)
    requires IsPath(ParentEdges(rows), p) && p[|p| - 1] in rows && rows[p[|p| - 1]].parent == None
    requires forall y :: y in rows ==> y in tasks && rows[y] == tasks[y]
    requires Reaches(ParentEdges(tasks), p[0], a)
    ensures a in rows
  {
    var P, Q := ParentEdges(tasks), ParentEdges(rows);
    var q :| PathBetween(P, q, p[0], a);
    forall i | 0 < i < |p| ensures Linked(P, p, i) {
      assert Linked(Q, p, i);
    }
    if |q| > |p| {
      assert Linked(P, q, |p|);
      AncestorsAgree(tasks, p, q, |p| - 1);
    } else {
      AncestorsAgree(tasks, p, q, |q| - 1);
      if |q| < |p| {
        assert Linked(Q, p, |q|);
      }
    }
  }

  /** The tree of any filter: exactly the tasks that are visible with all tasks above them, each once. */
  lemma TreeShowsExactly(tasks: map<Id, Task>, rows: map<Id, Task>, ts: seq<Tree>)
    requires IsForest(tasks)
    requires forall y :: y in rows ==> y in tasks && rows[y] == tasks[y]
    requires NoDup(Tops(ts)) && ToSet(Tops(ts)) == ChildrenOf(rows, None)
    requires forall i :: 0 <= i < |ts| ==> Mirrors(rows, ts[i])
    ensures NoDup(AllIds(ts))
    ensures ToSet(AllIds(ts)) == set x | x in rows && Shown(tasks, rows, x)
  {
    AcyclicSubset(ParentEdges(rows), ParentEdges(tasks));
    forall i, j | 0 <= i < |ts| && 0 <= j < |ts| && i != j ensures !Reaches(ParentEdges(rows), ts[i].id, ts[j].id) {
      assert ts[i].id == Tops(ts)[i] && ts[j].id == Tops(ts)[j];
      assert ts[i].id in ToSet(Tops(ts));
      if Reaches(ParentEdges(rows), ts[i].id, ts[j].id) {
        var b := FirstStep(ParentEdges(rows), ts[i].id, ts[j].id);
      }
    }
    ForestIds(rows, ts);
    forall x | x in rows ensures x in Below(rows, ChildrenOf(rows, None)) <==> Shown(tasks, rows, x) {
      BelowRootsIffShown(tasks, rows, x);
    }
  }

  lemma AncestorsExist(tasks: map<Id, Task>, x: Id)
    requires IsForest(tasks) && x in tasks
    ensures Shown(tasks, tasks, x)
  {
    forall a | Reaches(ParentEdges(tasks), x, a) ensures a in tasks {
      ClosedReaches(ParentEdges(tasks), tasks.Keys, x, a);
    }
  }

  /** Done tasks included and no project filter: every task exactly once. */
  lemma FullTreeShowsAll(tasks: map<Id, Task>, ts: seq<Tree>)
    requires IsForest(tasks)
    requires var rows := Visible(tasks, None, true);
             && NoDup(Tops(ts)) && ToSet(Tops(ts)) == ChildrenOf(rows, None)
             && forall i :: 0 <= i < |ts| ==> Mirrors(rows, ts[i])
    ensures NoDup(AllIds(ts)) && ToSet(AllIds(ts)) == tasks.Keys
  {
    var rows := Visible(tasks, None, true);
    assert rows == tasks;
    TreeShowsExactly(tasks, rows, ts);
    forall x | x in tasks ensures Shown(tasks, rows, x) {
      AncestorsExist(tasks, x);
    }
  }

  /** `total` counts the rows; the tree shows them all only when no shown row hangs under a hidden one. */
  lemma TotalIsTreeSizeIff(tasks: map<Id, Task>, rows: map<Id, Task>, ts: seq<Tree>)
    requires IsForest(tasks)
    requires forall y :: y in rows ==> y in tasks && rows[y] == tasks[y]
    requires NoDup(Tops(ts)) && ToSet(Tops(ts)) == ChildrenOf(rows, None)
    requires forall i :: 0 <= i < |ts| ==> Mirrors(rows, ts[i])
    ensures |AllIds(ts)| == |rows| <==> forall x :: x in rows && rows[x].parent.Some? ==> rows[x].parent.value in rows
  {
    TreeShowsExactly(tasks, rows, ts);
    CardIffNoDup(AllIds(ts));
    var shown := set x | x in rows && Shown(tasks, rows, x);
    CardSubset(shown, rows.Keys);
    if forall x :: x in rows && rows[x].parent.Some? ==> rows[x].parent.value in rows {
      forall x, a | x in rows && Reaches(ParentEdges(tasks), x, a) ensures a in rows {
        ClosedReaches(ParentEdges(tasks), rows.Keys, x, a);
      }
      assert shown == rows.Keys;
    }
    if shown == rows.Keys {
      forall x | x in rows && rows[x].parent.Some? ensures rows[x].parent.value in rows {
        assert Shown(tasks, rows, x);
        ReachesEdge(ParentEdges(tasks), x, rows[x].parent.value);
      }
    }
  }

  /** A pending task under a done one: without done tasks it counts in `total`, and the tree is empty. */
  lemma HiddenParent(top: Id, child: Id, done: Task, pending: Task, ts: seq<Tree>)
    requires top != child && done.status == "done" && done.parent == None
    requires pending.status == "pending" && pending.parent == Some(top)
    requires var rows := Visible(map[top := done, child := pending], None, false);
             NoDup(Tops(ts)) && ToSet(Tops(ts)) == ChildrenOf(rows, None)
    ensures ts == [] && |Visible(map[top := done, child := pending], None, false)| == 1
  {
    var rows := Visible(map[top := done, child := pending], None, false);
    assert "done"[0] != "pending"[0];
    assert rows.Keys == {child};
    assert |rows| == |rows.Keys|;
    CardIffNoDup(Tops(ts));
    assert ChildrenOf(rows, None) == {};
  }

  // ---- the code ----

  function Siblings(byParent: map<Option<Id>, seq<Id>>, parent: Option<Id>): seq<Id> {
    if parent in byParent then byParent[parent] else []
  }

  ghost predicate Indexed(rows: map<Id, Task>, seen: set<Id>, byParent: map<Option<Id>, seq<Id>>) {
    forall k :: NoDup(Siblings(byParent, k)) && ToSet(Siblings(byParent, k)) == ChildrenOf(rows, k) * seen
  }

  lemma IndexRow(rows: map<Id, Task>, seen: set<Id>, byParent: map<Option<Id>, seq<Id>>, x: Id)
    requires Indexed(rows, seen, byParent) && x in rows && x !in seen
    ensures var k := rows[x].parent; Indexed(rows, seen + {x}, byParent[k := Siblings(byParent, k) + [x]])
  {
    var k := rows[x].parent;
    var before := Siblings(byParent, k);
    assert x !in ToSet(before);
    NoDupAppend(before, x);
    ToSetAppend(before, x);
  }

  /** Index the rows by parent, then attach children recursively from the top-level tasks down. */
  method GetTaskTree(tasks: map<Id, Task>, project: Option<string>, includeDone: bool) returns (tree: seq<Tree>, total: nat)
    requires IsForest(tasks)
    ensures var rows := Visible(tasks, project, includeDone);
            && NoDup(AllIds(tree))
            && ToSet(AllIds(tree)) == (set x | x in rows && Shown(tasks, rows, x))
            && NoDup(Tops(tree)) && ToSet(Tops(tree)) == ChildrenOf(rows, None)
            && (forall i :: 0 <= i < |tree| ==> Mirrors(rows, tree[i]))
            && total == |rows|
    ensures forall x :: x in AllIds(tree) <==>
              x in tasks && forall a :: Reaches(ParentEdges(tasks), x, a) ==>
                a in tasks && (tasks[a].status == "done" ==> includeDone) && (project.Some? ==> tasks[a].project == project.value)
    ensures total == |set x | x in tasks && (tasks[x].status == "done" ==> includeDone)
                              && (project.Some? ==> tasks[x].project == project.value)|
  {
    hide Indexed, Mirrors, NoDup, IsForest, AllIds, ToSet, Acyclic, Shown, Visible, Reaches;
    var rows := Visible(tasks, project, includeDone);
    var allTasks := Enumerate(rows.Keys);
    var byParent: map<Option<Id>, seq<Id>> := map[];
    NothingIndexed(rows, allTasks);
    var i := 0;
    while i < |allTasks|
      invariant 0 <= i <= |allTasks|
      invariant Indexed(rows, ToSet(allTasks[..i]), byParent)
    {
      var task := allTasks[i];
      PrefixGrows(allTasks, i);
      IndexRow(rows, ToSet(allTasks[..i]), byParent, task);
      var key := rows[task].parent;
      ghost var next := byParent[key := Siblings(byParent, key) + [task]];
      if key !in byParent {
        byParent := byParent[key := []];
      }
      byParent := byParent[key := byParent[key] + [task]];
      assert byParent == next;
      i := i + 1;
    }
    AllIndexed(rows, allTasks, byParent);
    VisibleAcyclic(tasks, project, includeDone);
    tree := AttachAll(rows, byParent, None);
    total := |allTasks|;
    CardOfRows(rows, allTasks);
    VisibleRows(tasks, project, includeDone);
    TreeShowsExactly(tasks, rows, tree);
    ShownByFilter(tasks, project, includeDone, tree);
  }

  lemma VisibleRows(tasks: map<Id, Task>, project: Option<string>, includeDone: bool)
    ensures var rows := Visible(tasks, project, includeDone);
            && (forall x :: x in rows <==> x in tasks && (tasks[x].status == "done" ==> includeDone)
                                           && (project.Some? ==> tasks[x].project == project.value))
            && (forall x :: x in rows ==> rows[x] == tasks[x])
            && |rows| == |set x | x in tasks && (tasks[x].status == "done" ==> includeDone)
                                  && (project.Some? ==> tasks[x].project == project.value)|
  {
    var rows := Visible(tasks, project, includeDone);
    assert rows.Keys == set x | x in tasks && (tasks[x].status == "done" ==> includeDone)
                                && (project.Some? ==> tasks[x].project == project.value);
    assert |rows| == |rows.Keys|;
  }

  lemma ShownByFilter(tasks: map<Id, Task>, project: Option<string>, includeDone: bool, tree: seq<Tree>)
    requires var rows := Visible(tasks, project, includeDone);
             ToSet(AllIds(tree)) == set x | x in rows && Shown(tasks, rows, x)
    ensures forall x :: x in AllIds(tree) <==>
              x in tasks && forall a :: Reaches(ParentEdges(tasks), x, a) ==>
                a in tasks && (tasks[a].status == "done" ==> includeDone) && (project.Some? ==> tasks[a].project == project.value)
  {
    hide Visible, Reaches, AllIds;
    var rows := Visible(tasks, project, includeDone);
    VisibleRows(tasks, project, includeDone);
    forall x ensures x in AllIds(tree) <==>
      x in tasks && forall a :: Reaches(ParentEdges(tasks), x, a) ==>
        a in tasks && (tasks[a].status == "done" ==> includeDone) && (project.Some? ==> tasks[a].project == project.value)
    {
      ReachesSelf(ParentEdges(tasks), x);
      assert x in AllIds(tree) <==> x in ToSet(AllIds(tree));
    }
  }

  lemma NothingIndexed(rows: map<Id, Task>, allTasks: seq<Id>)
    ensures Indexed(rows, ToSet(allTasks[..0]), map[])
  {
  }

  lemma AllIndexed(rows: map<Id, Task>, allTasks: seq<Id>, byParent: map<Option<Id>, seq<Id>>)
    requires ToSet(allTasks) == rows.Keys && Indexed(rows, ToSet(allTasks[..|allTasks|]), byParent)
    ensures Indexed(rows, rows.Keys, byParent)
  {
    assert allTasks[..|allTasks|] == allTasks;
  }

  lemma CardOfRows(rows: map<Id, Task>, allTasks: seq<Id>)
    requires NoDup(allTasks) && ToSet(allTasks) == rows.Keys
    ensures |allTasks| == |rows|
  {
    CardIffNoDup(allTasks);
  }

  lemma VisibleAcyclic(tasks: map<Id, Task>, project: Option<string>, includeDone: bool)
    requires IsForest(tasks)
    ensures Acyclic(ParentEdges(Visible(tasks, project, includeDone)))
  {
    AcyclicSubset(ParentEdges(Visible(tasks, project, includeDone)), ParentEdges(tasks));
  }

  /** How many rows are below a parent: what the recursion comes down on. */
  ghost function Size(rows: map<Id, Task>, parent: Option<Id>): nat {
    if parent.Some? then |Subtree(rows, parent.value)| else |rows| + 1
  }

  method AttachAll(rows: map<Id, Task>, byParent: map<Option<Id>, seq<Id>>, parent: Option<Id>) returns (trees: seq<Tree>)
    requires Acyclic(ParentEdges(rows)) && Indexed(rows, rows.Keys, byParent)
    requires parent.Some? ==> parent.value in rows
    ensures NoDup(Tops(trees)) && ToSet(Tops(trees)) == ChildrenOf(rows, parent)
    ensures forall i :: 0 <= i < |trees| ==> Mirrors(rows, trees[i])
    decreases Size(rows, parent)
  {
    hide Indexed, Mirrors, Acyclic, NoDup;
    var children := if parent in byParent then byParent[parent] else [];
    IndexedChildren(rows, byParent, parent);
    trees := [];
    var i := 0;
    while i < |children|
      invariant 0 <= i <= |children| && |trees| == i
      invariant forall k :: 0 <= k < i ==> trees[k].id == children[k] && Mirrors(rows, trees[k])
    {
      var c := children[i];
      assert c in ToSet(children);
      SmallerBelow(rows, parent, c);
      var below := AttachAll(rows, byParent, Some(c));
      NewNode(rows, c, below);
      trees := trees + [Node(c, below)];
      i := i + 1;
    }
    assert Tops(trees) == children;
  }

  lemma IndexedChildren(rows: map<Id, Task>, byParent: map<Option<Id>, seq<Id>>, parent: Option<Id>)
    requires Indexed(rows, rows.Keys, byParent)
    ensures NoDup(Siblings(byParent, parent)) && ToSet(Siblings(byParent, parent)) == ChildrenOf(rows, parent)
  {
    assert ChildrenOf(rows, parent) * rows.Keys == ChildrenOf(rows, parent);
  }

  lemma NewNode(rows: map<Id, Task>, c: Id, below: seq<Tree>)
    requires c in rows && NoDup(Tops(below)) && ToSet(Tops(below)) == ChildrenOf(rows, Some(c))
    requires forall i :: 0 <= i < |below| ==> Mirrors(rows, below[i])
    ensures Mirrors(rows, Node(c, below))
  {
  }

  lemma SmallerBelow(rows: map<Id, Task>, parent: Option<Id>, c: Id)
    requires Acyclic(ParentEdges(rows)) && c in ChildrenOf(rows, parent)
    requires parent.Some? ==> parent.value in rows
    ensures Size(rows, Some(c)) < Size(rows, parent)
  {
    if parent.Some? {
      ChildSmaller(rows, parent.value, c);
    } else {
      CardSubset(Subtree(rows, c), rows.Keys);
    }
  }
}
