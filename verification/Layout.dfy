/** From layers to coordinates: layers wrap into sub-columns and start past the width of earlier ones. */
module Layout {
  import opened Collections
  import opened Graph
  import opened Rows
  import opened LayoutDepth
  import TopologicalSort

  const COLUMN_WIDTH := 260
  const ROW_HEIGHT := 90
  const MAX_ROWS_PER_LAYER := 8
  const SUBCOLUMN_WIDTH := 220

  datatype Placed = Placed(id: Id, x: int, y: int)

  /** The nodes of one layer, in node order. */
  function LayerNodes(nodes: seq<Id>, depth: map<Id, nat>, d: nat): seq<Id>
    requires ToSet(nodes) <= depth.Keys
  {
    if nodes == [] then []
    else
      var n := |nodes| - 1;
      assert ToSet(nodes[..n]) <= ToSet(nodes) && nodes[n] in ToSet(nodes);
      LayerNodes(nodes[..n], depth, d) + if depth[nodes[n]] == d then [nodes[n]] else []
  }

  function SubColumns(count: nat): nat {
    (count + MAX_ROWS_PER_LAYER - 1) / MAX_ROWS_PER_LAYER
  }

  /** The horizontal room a layer takes: nothing when it is empty. */
  ghost function LayerWidth(nodes: seq<Id>, depth: map<Id, nat>, d: nat): nat
    requires ToSet(nodes) <= depth.Keys
  {
    var count := |LayerNodes(nodes, depth, d)|;
    if count == 0 then 0 else SubColumns(count) * SUBCOLUMN_WIDTH + (COLUMN_WIDTH - SUBCOLUMN_WIDTH)
  }

  /** The left edge of layer d: the room taken by all layers before it. */
  ghost function LayerX(nodes: seq<Id>, depth: map<Id, nat>, d: nat): nat
    requires ToSet(nodes) <= depth.Keys
  {
    if d == 0 then 0 else LayerX(nodes, depth, d - 1) + LayerWidth(nodes, depth, d - 1)
  }

  /** p is the i-th node of its layer, at its grid place. */
  ghost predicate AtGridPlace(nodes: seq<Id>, depth: map<Id, nat>, p: Placed, i: nat)
    requires ToSet(nodes) <= depth.Keys
  {
    && p.id in depth && i < |LayerNodes(nodes, depth, depth[p.id])| && LayerNodes(nodes, depth, depth[p.id])[i] == p.id
    && p.x == LayerX(nodes, depth, depth[p.id]) + (i / MAX_ROWS_PER_LAYER) * SUBCOLUMN_WIDTH
    && p.y == (i % MAX_ROWS_PER_LAYER) * ROW_HEIGHT
  }

  ghost predicate InPlace(nodes: seq<Id>, depth: map<Id, nat>, p: Placed)
    requires ToSet(nodes) <= depth.Keys
  {
    exists i: nat :: AtGridPlace(nodes, depth, p, i)
  }

  ghost function PlacedIds(placed: seq<Placed>): seq<Id> {
    seq(|placed|, i requires 0 <= i < |placed| => placed[i].id)
  }

  /** Every node once, each in its place. */
  ghost predicate IsLayout(nodes: seq<Id>, depth: map<Id, nat>, placed: seq<Placed>)
    requires ToSet(nodes) <= depth.Keys
  {
    && NoDup(PlacedIds(placed)) && ToSet(PlacedIds(placed)) == ToSet(nodes)
    && forall k :: 0 <= k < |placed| ==> InPlace(nodes, depth, placed[k])
  }

  // ---- geometry ----

  lemma {:induction false} LayerMembers(nodes: seq<Id>, depth: map<Id, nat>, d: nat)
    requires ToSet(nodes) <= depth.Keys
    ensures forall v :: v in LayerNodes(nodes, depth, d) <==> v in nodes && depth[v] == d
    ensures NoDup(nodes) ==> NoDup(LayerNodes(nodes, depth, d))
  {
    if nodes != [] {
      var n := |nodes| - 1;
      assert ToSet(nodes[..n]) <= ToSet(nodes) && nodes[n] in ToSet(nodes);
      LayerMembers(nodes[..n], depth, d);
      assert nodes == nodes[..n] + [nodes[n]];
      if NoDup(nodes) && depth[nodes[n]] == d {
        assert nodes[n] !in nodes[..n];
        NoDupAppend(LayerNodes(nodes[..n], depth, d), nodes[n]);
      }
    }
  }

  lemma {:induction false} LayerEmpty(nodes: seq<Id>, depth: map<Id, nat>, d: nat)
    requires ToSet(nodes) <= depth.Keys && forall v :: v in nodes ==> depth[v] != d
    ensures LayerNodes(nodes, depth, d) == []
  {
    if nodes != [] {
      var n := |nodes| - 1;
      assert ToSet(nodes[..n]) <= ToSet(nodes) && nodes[n] in nodes;
      LayerEmpty(nodes[..n], depth, d);
    }
  }

  /** What one more node adds to a layer. */
  lemma LayerAppend(nodes: seq<Id>, n: Id, depth: map<Id, nat>, d: nat)
    requires ToSet(nodes + [n]) <= depth.Keys && ToSet(nodes) <= depth.Keys && n in depth
    ensures LayerNodes(nodes + [n], depth, d) == LayerNodes(nodes, depth, d) + if depth[n] == d then [n] else []
  {
    assert (nodes + [n])[..|nodes|] == nodes;
  }

  lemma {:induction false} LayerXGrows(nodes: seq<Id>, depth: map<Id, nat>, c: nat, d: nat)
    requires ToSet(nodes) <= depth.Keys && c < d
    ensures LayerX(nodes, depth, c) + LayerWidth(nodes, depth, c) <= LayerX(nodes, depth, d)
    decreases d
  {
    if c < d - 1 {
      LayerXGrows(nodes, depth, c, d - 1);
    }
  }

  /** A node of an earlier layer is left of every node of a later one by a full column. */
  lemma LaterLayerRight(nodes: seq<Id>, depth: map<Id, nat>, p: Placed, q: Placed)
    requires ToSet(nodes) <= depth.Keys && InPlace(nodes, depth, p) && InPlace(nodes, depth, q)
    requires depth[p.id] < depth[q.id]
    ensures p.x + COLUMN_WIDTH <= q.x
  {
    hide LayerNodes, LayerX, SubColumns;
    var i: nat :| AtGridPlace(nodes, depth, p, i);
    var j: nat :| AtGridPlace(nodes, depth, q, j);
    var c := depth[p.id];
    var count := |LayerNodes(nodes, depth, c)|;
    LayerXGrows(nodes, depth, c, depth[q.id]);
    LastSubColumn(i, count);
  }

  lemma LastSubColumn(i: nat, count: nat)
    requires i < count
    ensures (i / MAX_ROWS_PER_LAYER) + 1 <= SubColumns(count)
  {
  }

  lemma SameCell(i: nat, j: nat)
    requires i / MAX_ROWS_PER_LAYER == j / MAX_ROWS_PER_LAYER && i % MAX_ROWS_PER_LAYER == j % MAX_ROWS_PER_LAYER
    ensures i == j
  {
    assert i == MAX_ROWS_PER_LAYER * (i / MAX_ROWS_PER_LAYER) + i % MAX_ROWS_PER_LAYER;
    assert j == MAX_ROWS_PER_LAYER * (j / MAX_ROWS_PER_LAYER) + j % MAX_ROWS_PER_LAYER;
  }

  ghost function Gap(a: int, b: int): nat {
    if a < b then b - a else a - b
  }

  /** Whatever the graph, two nodes are a sub-column apart sideways or a row apart vertically. */
  lemma NoOverlap(nodes: seq<Id>, depth: map<Id, nat>, placed: seq<Placed>, k: nat, l: nat)
    requires ToSet(nodes) <= depth.Keys && IsLayout(nodes, depth, placed) && k < |placed| && l < |placed| && k != l
    ensures Gap(placed[k].x, placed[l].x) >= SUBCOLUMN_WIDTH || Gap(placed[k].y, placed[l].y) >= ROW_HEIGHT
  {
    var p, q := placed[k], placed[l];
    assert PlacedIds(placed)[k] == p.id && PlacedIds(placed)[l] == q.id;
    assert p.id != q.id;
    if depth[p.id] < depth[q.id] {
      LaterLayerRight(nodes, depth, p, q);
    } else if depth[q.id] < depth[p.id] {
      LaterLayerRight(nodes, depth, q, p);
    } else {
      var i: nat :| AtGridPlace(nodes, depth, p, i);
      var j: nat :| AtGridPlace(nodes, depth, q, j);
      if i / MAX_ROWS_PER_LAYER == j / MAX_ROWS_PER_LAYER && i % MAX_ROWS_PER_LAYER == j % MAX_ROWS_PER_LAYER {
        SameCell(i, j);
      }
    }
  }

  /** Every edge out of a resolved node goes right by a full column; on acyclic input that is every edge. */
  lemma EdgesGoRight(nodes: seq<Id>, E: set<Edge>, depth: map<Id, nat>, placed: seq<Placed>, k: nat, l: nat)
    requires DepthsAre(ToSet(nodes), E, depth) && IsLayout(nodes, depth, placed) && k < |placed| && l < |placed|
    requires Edge(placed[l].id, placed[k].id) in E
    requires Acyclic(E) || placed[k].id in TopologicalSort.Resolvable(ToSet(nodes), E)
    ensures placed[k].x + COLUMN_WIDTH <= placed[l].x
  {
    hide IsDepth, InPlace;
    var p, q := placed[k], placed[l];
    assert PlacedIds(placed)[k] == p.id && PlacedIds(placed)[l] == q.id;
    assert p.id in ToSet(nodes) && q.id in ToSet(nodes);
    assert p.id in TopologicalSort.Resolvable(ToSet(nodes), E);
    ResolvedDepBelow(ToSet(nodes), E, depth, q.id, p.id);
    LaterLayerRight(nodes, depth, p, q);
  }

  // ---- exact places, in pixels ----

  /** Where the i-th node of a layer stands, from the layer's left edge. */
  lemma PlaceInLayer(nodes: seq<Id>, depth: map<Id, nat>, placed: seq<Placed>, k: nat, i: nat)
    requires ToSet(nodes) <= depth.Keys && NoDup(nodes) && IsLayout(nodes, depth, placed) && k < |placed|
    requires placed[k].id in depth
    requires var layer := LayerNodes(nodes, depth, depth[placed[k].id]); i < |layer| && layer[i] == placed[k].id
    ensures placed[k].x == LayerX(nodes, depth, depth[placed[k].id]) + (i / 8) * 220 && placed[k].y == (i % 8) * 90
  {
    hide LayerNodes, LayerX;
    LayerMembers(nodes, depth, depth[placed[k].id]);
    assert InPlace(nodes, depth, placed[k]);
    var j: nat :| AtGridPlace(nodes, depth, placed[k], j);
    assert j == i;
  }

  ghost predicate InLayer(depth: map<Id, nat>, p: Placed, d: nat) {
    p.id in depth && depth[p.id] == d
  }

  /** The i-th node of the layer at depth d. */
  ghost predicate NthOfLayer(nodes: seq<Id>, depth: map<Id, nat>, p: Placed, d: nat, i: nat)
    requires ToSet(nodes) <= depth.Keys
  {
    InLayer(depth, p, d) && i < |LayerNodes(nodes, depth, d)| && LayerNodes(nodes, depth, d)[i] == p.id
  }

  /** Every place of a layer is taken, and every node of the layer has one. */
  lemma NthPlaced(nodes: seq<Id>, depth: map<Id, nat>, placed: seq<Placed>, d: nat, i: nat) returns (k: nat)
    requires ToSet(nodes) <= depth.Keys && IsLayout(nodes, depth, placed) && i < |LayerNodes(nodes, depth, d)|
    ensures k < |placed| && NthOfLayer(nodes, depth, placed[k], d, i)
  {
    LayerMembers(nodes, depth, d);
    var v := LayerNodes(nodes, depth, d)[i];
    assert v in LayerNodes(nodes, depth, d);
    assert v in ToSet(nodes) && v in ToSet(PlacedIds(placed));
    k :| 0 <= k < |PlacedIds(placed)| && PlacedIds(placed)[k] == v;
  }

  lemma PlacedNth(nodes: seq<Id>, depth: map<Id, nat>, placed: seq<Placed>, k: nat) returns (i: nat)
    requires ToSet(nodes) <= depth.Keys && IsLayout(nodes, depth, placed) && k < |placed|
    ensures placed[k].id in depth && NthOfLayer(nodes, depth, placed[k], depth[placed[k].id], i)
  {
    assert InPlace(nodes, depth, placed[k]);
    i :| AtGridPlace(nodes, depth, placed[k], i);
  }

  ghost predicate Leftmost(depth: map<Id, nat>, placed: seq<Placed>, d: nat, k: nat) {
    && k < |placed| && InLayer(depth, placed[k], d)
    && forall l :: 0 <= l < |placed| && InLayer(depth, placed[l], d) ==> placed[k].x <= placed[l].x
  }

  ghost predicate Rightmost(depth: map<Id, nat>, placed: seq<Placed>, d: nat, k: nat) {
    && k < |placed| && InLayer(depth, placed[k], d)
    && forall l :: 0 <= l < |placed| && InLayer(depth, placed[l], d) ==> placed[l].x <= placed[k].x
  }

  /** The first node of a layer is leftmost, at the layer's left edge. */
  lemma FirstIsLeftmost(nodes: seq<Id>, depth: map<Id, nat>, placed: seq<Placed>, d: nat, k: nat)
    requires ToSet(nodes) <= depth.Keys && NoDup(nodes) && IsLayout(nodes, depth, placed)
    requires k < |placed| && NthOfLayer(nodes, depth, placed[k], d, 0)
    ensures Leftmost(depth, placed, d, k) && placed[k].x == LayerX(nodes, depth, d)
  {
    hide LayerNodes, LayerX, IsLayout;
    PlaceInLayer(nodes, depth, placed, k, 0);
    forall l | 0 <= l < |placed| && InLayer(depth, placed[l], d) ensures placed[k].x <= placed[l].x {
      var i := PlacedNth(nodes, depth, placed, l);
      PlaceInLayer(nodes, depth, placed, l, i);
    }
  }

  /** The last node of a layer is rightmost. */
  lemma LastIsRightmost(nodes: seq<Id>, depth: map<Id, nat>, placed: seq<Placed>, d: nat, k: nat, n: nat)
    requires ToSet(nodes) <= depth.Keys && NoDup(nodes) && IsLayout(nodes, depth, placed)
    requires n == |LayerNodes(nodes, depth, d)| && n > 0 && k < |placed| && NthOfLayer(nodes, depth, placed[k], d, n - 1)
    ensures Rightmost(depth, placed, d, k) && placed[k].x == LayerX(nodes, depth, d) + ((n - 1) / 8) * 220
  {
    hide LayerNodes, LayerX, IsLayout;
    PlaceInLayer(nodes, depth, placed, k, n - 1);
    forall l | 0 <= l < |placed| && InLayer(depth, placed[l], d) ensures placed[l].x <= placed[k].x {
      var i := PlacedNth(nodes, depth, placed, l);
      PlaceInLayer(nodes, depth, placed, l, i);
      assert i / 8 <= (n - 1) / 8;
    }
  }

  /** The first layer that has nodes starts at 0. */
  lemma FirstLayerAtZero(nodes: seq<Id>, depth: map<Id, nat>, placed: seq<Placed>, v: Id) returns (k: nat)
    requires ToSet(nodes) <= depth.Keys && NoDup(nodes) && IsLayout(nodes, depth, placed)
    requires v in nodes && forall w :: w in nodes ==> v in depth && w in depth && depth[v] <= depth[w]
    ensures Leftmost(depth, placed, depth[v], k) && placed[k].x == 0 && placed[k].y == 0
  {
    hide LayerNodes, LayerX, IsLayout;
    var d := depth[v];
    LayerMembers(nodes, depth, d);
    k := NthPlaced(nodes, depth, placed, d, 0);
    FirstIsLeftmost(nodes, depth, placed, d, k);
    PlaceInLayer(nodes, depth, placed, k, 0);
    EmptyLayersTakeNoRoom(nodes, depth, 0, d);
    StartsAtZero(nodes, depth);
  }

  lemma StartsAtZero(nodes: seq<Id>, depth: map<Id, nat>)
    requires ToSet(nodes) <= depth.Keys
    ensures LayerX(nodes, depth, 0) == 0
  {
  }

  /** The next layer that has nodes starts exactly one column right of the last sub-column of the one before it. */
  lemma NextLayerExactly(nodes: seq<Id>, depth: map<Id, nat>, placed: seq<Placed>, v: Id, w: Id) returns (k: nat, l: nat)
    requires ToSet(nodes) <= depth.Keys && NoDup(nodes) && IsLayout(nodes, depth, placed)
    requires v in nodes && w in nodes && v in depth && w in depth && depth[v] < depth[w]
    requires forall u :: u in nodes ==> u in depth && (depth[u] <= depth[v] || depth[w] <= depth[u])
    ensures Rightmost(depth, placed, depth[v], k) && Leftmost(depth, placed, depth[w], l) && placed[l].x == placed[k].x + 260
  {
    hide LayerNodes, LayerX, IsLayout;
    var c, d := depth[v], depth[w];
    LayerMembers(nodes, depth, c);
    LayerMembers(nodes, depth, d);
    var n := |LayerNodes(nodes, depth, c)|;
    assert v in LayerNodes(nodes, depth, c) && w in LayerNodes(nodes, depth, d);
    k := NthPlaced(nodes, depth, placed, c, n - 1);
    l := NthPlaced(nodes, depth, placed, d, 0);
    LastIsRightmost(nodes, depth, placed, c, k, n);
    FirstIsLeftmost(nodes, depth, placed, d, l);
    EmptyLayersTakeNoRoom(nodes, depth, c + 1, d);
    WidthOf(nodes, depth, c, n);
  }

  lemma WidthOf(nodes: seq<Id>, depth: map<Id, nat>, d: nat, n: nat)
    requires ToSet(nodes) <= depth.Keys && n == |LayerNodes(nodes, depth, d)| && n > 0
    ensures LayerX(nodes, depth, d + 1) == LayerX(nodes, depth, d) + ((n - 1) / 8) * 220 + 260
  {
  }

  /** Within a layer: the i-th node heads the next sub-column exactly when 8 divides i, and stands under the one before it otherwise. */
  lemma EightToASubColumn(nodes: seq<Id>, depth: map<Id, nat>, placed: seq<Placed>, d: nat, k: nat, l: nat, i: nat)
    requires ToSet(nodes) <= depth.Keys && NoDup(nodes) && IsLayout(nodes, depth, placed) && k < |placed| && l < |placed|
    requires NthOfLayer(nodes, depth, placed[k], d, i) && NthOfLayer(nodes, depth, placed[l], d, i + 1)
    ensures if (i + 1) % 8 == 0 then placed[l].x == placed[k].x + 220 && placed[l].y == 0
            else placed[l].x == placed[k].x && placed[l].y == placed[k].y + 90
  {
    hide LayerNodes, LayerX, IsLayout;
    PlaceInLayer(nodes, depth, placed, k, i);
    PlaceInLayer(nodes, depth, placed, l, i + 1);
  }

  /** Two roots under each other, and what waits for both one column to their right. */
  lemma TwoRoots(a: Id, b: Id, c: Id, depth: map<Id, nat>, placed: seq<Placed>, k: nat)
    requires a != b && a != c && b != c && DepthsAre({a, b, c}, {Edge(c, a), Edge(c, b)}, depth)
    requires ToSet([a, b, c]) <= depth.Keys && IsLayout([a, b, c], depth, placed) && k < |placed|
    ensures placed[k] == if placed[k].id == a then Placed(a, 0, 0) else if placed[k].id == b then Placed(b, 0, 90) else Placed(c, 260, 0)
  {
    hide DepthsAre, LayerNodes, IsLayout, LayerX, NthOfLayer, ToSet, NoDup;
    TwoRootDepths(a, b, c, depth);
    TwoRootLayers(a, b, c, depth);
    ThreeDistinct(a, b, c);
    var i := PlacedNth([a, b, c], depth, placed, k);
    PlaceNth([a, b, c], depth, placed, k, i);
    TwoRootPlace(a, b, c, depth, placed[k], i);
  }

  lemma ThreeDistinct(a: Id, b: Id, c: Id)
    requires a != b && a != c && b != c
    ensures NoDup([a, b, c])
  {
  }

  lemma PlaceNth(nodes: seq<Id>, depth: map<Id, nat>, placed: seq<Placed>, k: nat, i: nat)
    requires ToSet(nodes) <= depth.Keys && NoDup(nodes) && IsLayout(nodes, depth, placed) && k < |placed|
    requires placed[k].id in depth && NthOfLayer(nodes, depth, placed[k], depth[placed[k].id], i)
    ensures placed[k].x == LayerX(nodes, depth, depth[placed[k].id]) + (i / 8) * 220 && placed[k].y == (i % 8) * 90
  {
    PlaceInLayer(nodes, depth, placed, k, i);
  }

  lemma TwoRootPlace(a: Id, b: Id, c: Id, depth: map<Id, nat>, p: Placed, i: nat)
    requires a != b && a != c && b != c && depth == map[a := 0, b := 0, c := 1] && ToSet([a, b, c]) <= depth.Keys
    requires p.id in depth && NthOfLayer([a, b, c], depth, p, depth[p.id], i)
    requires forall d: nat :: LayerNodes([a, b, c], depth, d) == if d == 0 then [a, b] else if d == 1 then [c] else []
    requires p.y == (i % 8) * 90 && p.x == LayerX([a, b, c], depth, depth[p.id]) + (i / 8) * 220
    ensures p == if p.id == a then Placed(a, 0, 0) else if p.id == b then Placed(b, 0, 90) else Placed(c, 260, 0)
  {
    TwoRootEdges(a, b, c, depth);
    hide LayerNodes, LayerX, ToSet;
    assert p.id == a || p.id == b || p.id == c;
  }

  lemma TwoRootEdges(a: Id, b: Id, c: Id, depth: map<Id, nat>)
    requires ToSet([a, b, c]) <= depth.Keys
    requires forall d: nat :: LayerNodes([a, b, c], depth, d) == if d == 0 then [a, b] else if d == 1 then [c] else []
    ensures LayerX([a, b, c], depth, 0) == 0 && LayerX([a, b, c], depth, 1) == 260
  {
    hide ToSet;
    StartsAtZero([a, b, c], depth);
    WidthOf([a, b, c], depth, 0, 2);
  }

  lemma TwoRootLayers(a: Id, b: Id, c: Id, depth: map<Id, nat>)
    requires depth == map[a := 0, b := 0, c := 1] && a != b && a != c && b != c
    ensures ToSet([a, b, c]) <= depth.Keys
    ensures forall d: nat :: LayerNodes([a, b, c], depth, d) == if d == 0 then [a, b] else if d == 1 then [c] else []
  {
    var nodes := [a, b, c];
    assert nodes[..2] == [a, b] && [a, b][..1] == [a] && [a][..0] == [];
    forall d: nat ensures LayerNodes(nodes, depth, d) == if d == 0 then [a, b] else if d == 1 then [c] else [] {
      assert LayerNodes([], depth, d) == [];
      assert LayerNodes([a], depth, d) == if d == 0 then [a] else [];
      assert LayerNodes([a, b], depth, d) == if d == 0 then [a, b] else [];
    }
  }

  lemma TwoRootDepths(a: Id, b: Id, c: Id, depth: map<Id, nat>)
    requires a != b && a != c && b != c && DepthsAre({a, b, c}, {Edge(c, a), Edge(c, b)}, depth)
    ensures depth == map[a := 0, b := 0, c := 1]
  {
    var level: map<Id, nat> := map[a := 0, b := 0, c := 1];
    TwoRootLevels(a, b, c);
    LevelIsDepth({a, b, c}, {Edge(c, a), Edge(c, b)}, level, depth);
    assert level.Keys == {a, b, c};
  }

  /** A level numbering of all nodes is what the pass computes. */
  lemma LevelIsDepth(ids: set<Id>, E: set<Edge>, level: map<Id, nat>, depth: map<Id, nat>)
    requires Levels(E, ids, level) && DepthsAre(ids, E, depth)
    ensures depth.Keys == ids && forall v :: v in ids ==> v in level && depth[v] == level[v]
  {
    DepthKeys(ids, E, depth);
    assert ids <= level.Keys;
    hide DepthsAre, IsDepth, Levels, WaitsForCycle;
    forall v | v in ids ensures depth[v] == level[v] {
      LevelsAreDepths(E, ids, level, v);
      ResolvedDepth(ids, E, depth, v);
      DepthUnique(E, v, depth[v], level[v]);
    }
  }

  lemma TwoRootLevels(a: Id, b: Id, c: Id)
    requires a != b && a != c && b != c
    ensures Levels({Edge(c, a), Edge(c, b)}, {a, b, c}, map[a := 0, b := 0, c := 1])
  {
    assert HasDepAt({Edge(c, a), Edge(c, b)}, {a, b, c}, map[a := 0, b := 0, c := 1], c, 0);
  }

  lemma ResolvedDepth(ids: set<Id>, E: set<Edge>, depth: map<Id, nat>, v: Id)
    requires DepthsAre(ids, E, depth) && v in ids && !WaitsForCycle(E, v)
    ensures v in depth && IsDepth(E, v, depth[v])
  {
    hide IsDepth, WaitsForCycle, OneAboveDeps, IsMaxOver;
    assert v in TopologicalSort.Resolvable(ids, E);
  }

  /** What the API sends: all edges that touch the project. What is drawn: those inside it. */
  lemma DrawnEdges(deps: set<Edge>, nodes: seq<Id>, edges: seq<Edge>)
    requires forall e :: e in edges <==> e in deps && (e.task in nodes || e.dep in nodes)
    ensures forall e :: e in Within(edges, ToSet(nodes)) <==> e in deps && e.task in nodes && e.dep in nodes
  {
    WithinMembers(edges, ToSet(nodes));
  }

  // ---- the code ----

  function InsertNat(x: nat, s: seq<nat>): seq<nat> {
    if s == [] then [x]
    else if x <= s[0] then [x] + s
    else [s[0]] + InsertNat(x, s[1..])
  }

  /** `sort((a, b) => a - b)` */
  function SortNats(s: seq<nat>): seq<nat> {
    if s == [] then [] else InsertNat(s[0], SortNats(s[1..]))
  }

  ghost predicate Rising(s: seq<nat>) {
    forall i, j :: 0 <= i < j < |s| ==> s[i] < s[j]
  }

  lemma {:induction false} InsertRising(x: nat, s: seq<nat>)
    requires Rising(s) && x !in s
    ensures Rising(InsertNat(x, s)) && ToSet(InsertNat(x, s)) == ToSet(s) + {x}
  {
    if s != [] && x > s[0] {
      assert s == [s[0]] + s[1..];
      InsertRising(x, s[1..]);
      var t := InsertNat(x, s[1..]);
      forall k | 0 <= k < |t| ensures s[0] < t[k] {
        assert t[k] in ToSet(t);
      }
      assert ToSet([s[0]] + t) == ToSet(t) + {s[0]};
      assert ToSet(s) == ToSet(s[1..]) + {s[0]};
    } else if s != [] {
      assert ToSet([x] + s) == ToSet(s) + {x};
    } else {
      assert ToSet([x]) == {x} && ToSet(s) == {};
    }
  }

  lemma {:induction false} SortRising(s: seq<nat>)
    requires NoDup(s)
    ensures Rising(SortNats(s)) && ToSet(SortNats(s)) == ToSet(s)
  {
    if s != [] {
      assert s == [s[0]] + s[1..];
      SortRising(s[1..]);
      assert s[0] !in ToSet(s[1..]);
      InsertRising(s[0], SortNats(s[1..]));
      assert ToSet(s) == ToSet(s[1..]) + {s[0]};
    }
  }

  /** The layers in the order their first node came, and the nodes of each in node order. */
  ghost predicate Grouped(nodes: seq<Id>, depth: map<Id, nat>, layers: seq<nat>, byLayer: map<nat, seq<Id>>)
    requires ToSet(nodes) <= depth.Keys
  {
    && NoDup(layers) && ToSet(layers) == byLayer.Keys
    && (forall d :: d in byLayer ==> byLayer[d] == LayerNodes(nodes, depth, d) && byLayer[d] != [])
    && (forall v :: v in nodes ==> depth[v] in byLayer)
  }

  lemma GroupNext(nodes: seq<Id>, n: Id, depth: map<Id, nat>, layers: seq<nat>, byLayer: map<nat, seq<Id>>)
    requires ToSet(nodes + [n]) <= depth.Keys && ToSet(nodes) <= depth.Keys && n in depth && Grouped(nodes, depth, layers, byLayer)
    ensures var d := depth[n];
            Grouped(nodes + [n], depth, if d in byLayer then layers else layers + [d],
                    byLayer[d := (if d in byLayer then byLayer[d] else []) + [n]])
  {
    hide LayerNodes;
    var d := depth[n];
    forall c ensures LayerNodes(nodes + [n], depth, c) == LayerNodes(nodes, depth, c) + if d == c then [n] else [] {
      LayerAppend(nodes, n, depth, c);
    }
    if d !in byLayer {
      LayerEmpty(nodes, depth, d);
      assert d !in ToSet(layers);
      NoDupAppend(layers, d);
      ToSetAppend(layers, d);
    }
  }

  method GroupByLayer(nodes: seq<Id>, depth: map<Id, nat>) returns (layers: seq<nat>, byLayer: map<nat, seq<Id>>)
    requires ToSet(nodes) <= depth.Keys
    ensures Grouped(nodes, depth, layers, byLayer)
  {
    hide Grouped;
    layers, byLayer := [], map[];
    GroupNothing(nodes, depth);
    var i := 0;
    while i < |nodes|
      invariant 0 <= i <= |nodes| && ToSet(nodes[..i]) <= depth.Keys
      invariant Grouped(nodes[..i], depth, layers, byLayer)
    {
      var n := nodes[i];
      assert n in ToSet(nodes);
      assert nodes[..i + 1] == nodes[..i] + [n];
      ToSetAppend(nodes[..i], n);
      GroupNext(nodes[..i], n, depth, layers, byLayer);
      var d := depth[n];
      if d in byLayer {
        byLayer := byLayer[d := byLayer[d] + [n]];
      } else {
        layers := layers + [d];
        byLayer := byLayer[d := [] + [n]];
      }
      i := i + 1;
    }
    assert nodes[..i] == nodes;
  }

  lemma GroupNothing(nodes: seq<Id>, depth: map<Id, nat>)
    ensures ToSet(nodes[..0]) <= depth.Keys && Grouped(nodes[..0], depth, [], map[])
  {
  }

  /** Between two neighbouring non-empty layers nothing takes room. */
  lemma {:induction false} EmptyLayersTakeNoRoom(nodes: seq<Id>, depth: map<Id, nat>, c: nat, d: nat)
    requires ToSet(nodes) <= depth.Keys && c <= d
    requires forall v :: v in nodes ==> depth[v] < c || d <= depth[v]
    ensures LayerX(nodes, depth, d) == LayerX(nodes, depth, c)
    decreases d
  {
    if c < d {
      EmptyLayersTakeNoRoom(nodes, depth, c, d - 1);
      LayerEmpty(nodes, depth, d - 1);
    }
  }

  method LayerOffsets(nodes: seq<Id>, depth: map<Id, nat>, layers: seq<nat>, byLayer: map<nat, seq<Id>>)
    returns (layerBaseX: map<nat, nat>)
    requires ToSet(nodes) <= depth.Keys && Grouped(nodes, depth, layers, byLayer)
    ensures layerBaseX.Keys == byLayer.Keys
    ensures forall d :: d in layerBaseX ==> layerBaseX[d] == LayerX(nodes, depth, d)
  {
    hide LayerNodes, NoDup, Rising, SortNats, SubColumns, ToSet, Grouped, LayerX;
    GroupedFacts(nodes, depth, layers, byLayer);
    var sortedDepths := SortNats(layers);
    SortRising(layers);
    RisingNoDup(sortedDepths);
    layerBaseX := map[];
    FirstLayer(nodes, depth, sortedDepths);
    var cumulativeX := 0;
    var k := 0;
    ghost var next: nat := 0;
    while k < |sortedDepths|
      invariant 0 <= k <= |sortedDepths|
      invariant layerBaseX.Keys == ToSet(sortedDepths[..k])
      invariant forall d :: d in layerBaseX ==> layerBaseX[d] == LayerX(nodes, depth, d)
      invariant next == if k == 0 then 0 else sortedDepths[k - 1] + 1
      invariant cumulativeX == LayerX(nodes, depth, next)
    {
      var d := sortedDepths[k];
      PrefixGrows(sortedDepths, k);
      NextLayer(nodes, depth, sortedDepths, k, byLayer, next);
      StepRight(nodes, depth, byLayer, d);
      layerBaseX := layerBaseX[d := cumulativeX];
      var subcols := SubColumns(|byLayer[d]|);
      cumulativeX := cumulativeX + subcols * SUBCOLUMN_WIDTH + (COLUMN_WIDTH - SUBCOLUMN_WIDTH);
      next := d + 1;
      k := k + 1;
    }
    assert sortedDepths[..k] == sortedDepths;
  }

  lemma GroupedFacts(nodes: seq<Id>, depth: map<Id, nat>, layers: seq<nat>, byLayer: map<nat, seq<Id>>)
    requires ToSet(nodes) <= depth.Keys && Grouped(nodes, depth, layers, byLayer)
    ensures NoDup(layers) && ToSet(layers) == byLayer.Keys
    ensures forall d :: d in byLayer ==> byLayer[d] == LayerNodes(nodes, depth, d) && byLayer[d] != []
    ensures forall v :: v in nodes ==> v in depth && depth[v] in byLayer
  {
    assert forall v :: v in nodes ==> v in ToSet(nodes);
  }

  lemma FirstLayer(nodes: seq<Id>, depth: map<Id, nat>, sorted: seq<nat>)
    requires ToSet(nodes) <= depth.Keys
    ensures ToSet(sorted[..0]) == {} && LayerX(nodes, depth, 0) == 0
  {
  }

  lemma RisingNoDup(sorted: seq<nat>)
    requires Rising(sorted)
    ensures NoDup(sorted)
  {
  }

  lemma StepRight(nodes: seq<Id>, depth: map<Id, nat>, byLayer: map<nat, seq<Id>>, d: nat)
    requires ToSet(nodes) <= depth.Keys && d in byLayer && byLayer[d] == LayerNodes(nodes, depth, d) && byLayer[d] != []
    ensures LayerX(nodes, depth, d + 1)
         == LayerX(nodes, depth, d) + SubColumns(|byLayer[d]|) * SUBCOLUMN_WIDTH + (COLUMN_WIDTH - SUBCOLUMN_WIDTH)
  {
  }

  lemma NextLayer(nodes: seq<Id>, depth: map<Id, nat>, sorted: seq<nat>, k: nat, byLayer: map<nat, seq<Id>>, next: nat)
    requires ToSet(nodes) <= depth.Keys && k < |sorted| && Rising(sorted) && ToSet(sorted) == byLayer.Keys
    requires forall v :: v in nodes ==> v in depth && depth[v] in byLayer
    requires next == if k == 0 then 0 else sorted[k - 1] + 1
    ensures LayerX(nodes, depth, sorted[k]) == LayerX(nodes, depth, next)
  {
    var d := sorted[k];
    forall v | v in nodes ensures depth[v] < next || d <= depth[v] {
      assert depth[v] in ToSet(sorted);
      var j :| 0 <= j < |sorted| && sorted[j] == depth[v];
    }
    EmptyLayersTakeNoRoom(nodes, depth, next, d);
  }

  /** One layer, placed row by row and sub-column by sub-column. */
  method PlaceLayer(nodes: seq<Id>, depth: map<Id, nat>, d: nat, layerNodes: seq<Id>, baseX: nat) returns (placed: seq<Placed>)
    requires ToSet(nodes) <= depth.Keys && layerNodes == LayerNodes(nodes, depth, d) && baseX == LayerX(nodes, depth, d)
    ensures PlacedIds(placed) == layerNodes
    ensures forall k :: 0 <= k < |placed| ==> InPlace(nodes, depth, placed[k])
  {
    hide InPlace, LayerNodes, LayerX;
    LayerMembers(nodes, depth, d);
    placed := [];
    var i := 0;
    while i < |layerNodes|
      invariant 0 <= i <= |layerNodes| && |placed| == i
      invariant forall k :: 0 <= k < i ==> placed[k].id == layerNodes[k] && InPlace(nodes, depth, placed[k])
    {
      var subcol := i / MAX_ROWS_PER_LAYER;
      var row := i % MAX_ROWS_PER_LAYER;
      var p := Placed(layerNodes[i], baseX + subcol * SUBCOLUMN_WIDTH, row * ROW_HEIGHT);
      assert layerNodes[i] in layerNodes;
      GridPlace(nodes, depth, p, i);
      placed := placed + [p];
      i := i + 1;
    }
  }

  lemma GridPlace(nodes: seq<Id>, depth: map<Id, nat>, p: Placed, i: nat)
    requires ToSet(nodes) <= depth.Keys && AtGridPlace(nodes, depth, p, i)
    ensures InPlace(nodes, depth, p)
  {
  }

  ghost function InLayers(nodes: seq<Id>, depth: map<Id, nat>, layers: set<nat>): set<Id>
    requires ToSet(nodes) <= depth.Keys
  {
    set v | v in nodes && depth[v] in layers
  }

  /** The nodes of finished layers, each once, in place. */
  ghost predicate PlacedSoFar(nodes: seq<Id>, depth: map<Id, nat>, layers: set<nat>, placed: seq<Placed>)
    requires ToSet(nodes) <= depth.Keys
  {
    && NoDup(PlacedIds(placed)) && ToSet(PlacedIds(placed)) == InLayers(nodes, depth, layers)
    && forall k :: 0 <= k < |placed| ==> InPlace(nodes, depth, placed[k])
  }

  lemma PlaceNext(nodes: seq<Id>, depth: map<Id, nat>, layers: set<nat>, placed: seq<Placed>, d: nat, more: seq<Placed>)
    requires ToSet(nodes) <= depth.Keys && NoDup(nodes) && PlacedSoFar(nodes, depth, layers, placed) && d !in layers
    requires PlacedIds(more) == LayerNodes(nodes, depth, d)
    requires forall k :: 0 <= k < |more| ==> InPlace(nodes, depth, more[k])
    ensures PlacedSoFar(nodes, depth, layers + {d}, placed + more)
  {
    hide InPlace, LayerNodes;
    LayerMembers(nodes, depth, d);
    var a, b := PlacedIds(placed), PlacedIds(more);
    forall x | x in a ensures x !in b {
      assert x in ToSet(a);
    }
    DisjointConcat(a, b);
    assert PlacedIds(placed + more) == a + b;
    LayersUnion(nodes, depth, layers, d);
  }

  lemma LayersUnion(nodes: seq<Id>, depth: map<Id, nat>, layers: set<nat>, d: nat)
    requires ToSet(nodes) <= depth.Keys
    ensures InLayers(nodes, depth, layers + {d}) == InLayers(nodes, depth, layers) + ToSet(LayerNodes(nodes, depth, d))
  {
    LayerMembers(nodes, depth, d);
  }

  method LayoutDag(dagNodes: seq<Id>, dagEdges: seq<Edge>) returns (placed: seq<Placed>, edges: seq<Edge>, ghost depth: map<Id, nat>)
    requires NoDup(dagNodes)
    ensures edges == Within(dagEdges, ToSet(dagNodes))
    ensures DepthsAre(ToSet(dagNodes), ToSet(edges), depth) && IsLayout(dagNodes, depth, placed)
  {
    hide DepthsAre, InPlace, Grouped, PlacedSoFar, NoDup, Within;
    edges := Within(dagEdges, ToSet(dagNodes));
    WithinMembers(dagEdges, ToSet(dagNodes));
    var depths, processed := Depths(dagNodes, edges);
    depth := depths;
    DepthKeys(ToSet(dagNodes), ToSet(edges), depths);
    var layers, byLayer := GroupByLayer(dagNodes, depths);
    var layerBaseX := LayerOffsets(dagNodes, depths, layers, byLayer);
    placed := [];
    NothingPlaced(dagNodes, depths, layers, byLayer);
    var k := 0;
    while k < |layers|
      invariant 0 <= k <= |layers|
      invariant PlacedSoFar(dagNodes, depths, ToSet(layers[..k]), placed)
    {
      var d := layers[k];
      LayerStep(dagNodes, depths, layers, byLayer, k);
      var more := PlaceLayer(dagNodes, depths, d, byLayer[d], layerBaseX[d]);
      PlaceNext(dagNodes, depths, ToSet(layers[..k]), placed, d, more);
      placed := placed + more;
      k := k + 1;
    }
    AllPlaced(dagNodes, depths, layers, byLayer, placed);
  }

  lemma DepthKeys(ids: set<Id>, E: set<Edge>, depth: map<Id, nat>)
    requires DepthsAre(ids, E, depth)
    ensures depth.Keys == ids
  {
  }

  lemma NothingPlaced(nodes: seq<Id>, depth: map<Id, nat>, layers: seq<nat>, byLayer: map<nat, seq<Id>>)
    requires ToSet(nodes) <= depth.Keys
    ensures PlacedSoFar(nodes, depth, ToSet(layers[..0]), [])
  {
    assert PlacedIds([]) == [];
  }

  lemma LayerStep(nodes: seq<Id>, depth: map<Id, nat>, layers: seq<nat>, byLayer: map<nat, seq<Id>>, k: nat)
    requires ToSet(nodes) <= depth.Keys && Grouped(nodes, depth, layers, byLayer) && k < |layers|
    ensures layers[k] in byLayer && byLayer[layers[k]] == LayerNodes(nodes, depth, layers[k])
    ensures layers[k] !in ToSet(layers[..k]) && ToSet(layers[..k + 1]) == ToSet(layers[..k]) + {layers[k]}
  {
    PrefixGrows(layers, k);
  }

  lemma AllPlaced(nodes: seq<Id>, depth: map<Id, nat>, layers: seq<nat>, byLayer: map<nat, seq<Id>>, placed: seq<Placed>)
    requires ToSet(nodes) <= depth.Keys && Grouped(nodes, depth, layers, byLayer)
    requires PlacedSoFar(nodes, depth, ToSet(layers[..|layers|]), placed)
    ensures IsLayout(nodes, depth, placed)
  {
    hide InPlace, LayerNodes;
    assert layers[..|layers|] == layers;
    assert InLayers(nodes, depth, ToSet(layers)) == ToSet(nodes);
  }
}
