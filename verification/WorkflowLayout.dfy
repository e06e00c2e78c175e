/** A workflow's graph laid out : a column per depth (the longest path from the start), each column
    centered, everything moved down when the arcs over the columns need room. */
module WorkflowLayout {
  import opened WorkflowModel
  import opened Graphs

  // ─── the depth of each node ──────────────────────────────────────────────────

  /** The links between nodes there are, in the order the file lists them. */
  method ListEdges(nodes: seq<Node>) returns (edges: seq<(Id, Id)>)
    ensures Elements(edges) == Edges(nodes)
  {
    var ids := Ids(nodes);
    edges := [];
    for i := 0 to |nodes|
      invariant forall e :: e in edges <==>
        exists n :: n in nodes[..i] && e.0 == n.id && e.1 in n.AllLinks() && e.1 in ids
    {
      var n := nodes[i];
      var links := n.AllLinks();
      ghost var before := edges;
      for j := 0 to |links|
        invariant forall e :: e in edges <==> e in before || (e.0 == n.id && e.1 in links[..j] && e.1 in ids)
      {
        if links[j] in ids {
          edges := edges + [(n.id, links[j])];
        }
        assert links[..j + 1] == links[..j] + [links[j]];
      }
      assert links[..|links|] == links;
      assert nodes[..i + 1] == nodes[..i] + [n];
    }
    assert nodes[..|nodes|] == nodes;
  }

  /** A walk of `d` links leads to the node. */
  ghost predicate Reached(g: set<(Id, Id)>, v: Id, d: nat) {
    exists p :: Walk(g, p) && p[|p| - 1] == v && |p| == d + 1
  }

  /** No walk of at most `k` links is longer than the depth of the node it leads to. */
  ghost predicate Covers(g: set<(Id, Id)>, depth: map<Id, nat>, k: nat) {
    forall p :: Walk(g, p) && |p| <= k + 1 && p[|p| - 1] in depth ==> |p| <= depth[p[|p| - 1]] + 1
  }

  /** Each depth is the length of a walk to the node, and at most the number of nodes. */
  ghost predicate Real(g: set<(Id, Id)>, depth: map<Id, nat>, most: nat) {
    forall v :: v in depth ==> Reached(g, v, depth[v]) && depth[v] <= most
  }

  ghost predicate Within(g: set<(Id, Id)>, ids: set<Id>) {
    forall e :: e in g ==> e.0 in ids && e.1 in ids
  }

  lemma EdgesWithin(nodes: seq<Node>)
    ensures Within(Edges(nodes), Ids(nodes))
  {
  }

  lemma ReachedNext(g: set<(Id, Id)>, u: Id, v: Id, d: nat)
    requires Reached(g, u, d) && (u, v) in g
    ensures Reached(g, v, d + 1)
  {
    var p :| Walk(g, p) && p[|p| - 1] == u && |p| == d + 1;
    Extended(g, p, v);
    assert (p + [v])[|p + [v]| - 1] == v;
  }

  lemma WalkStaysWithin(g: set<(Id, Id)>, ids: set<Id>, p: seq<Id>)
    requires Within(g, ids) && Walk(g, p) && p[|p| - 1] in ids
    ensures Elements(p) <= ids
  {
    forall i | 0 <= i < |p| ensures p[i] in ids {
      if i < |p| - 1 {
        assert (p[i + 1 - 1], p[i + 1]) in g;
      }
    }
  }

  /** Without a loop, a node that leads on is less deep than there are nodes. */
  lemma AcyclicIsShallow(g: set<(Id, Id)>, depth: map<Id, nat>, most: nat, u: Id, v: Id)
    requires Acyclic(g) && Within(g, depth.Keys) && Real(g, depth, most) && |depth.Keys| <= most
    requires (u, v) in g
    ensures depth[u] + 1 <= most
  {
    assert u in depth;
    ReachedNext(g, u, v, depth[u]);
    var p :| Walk(g, p) && p[|p| - 1] == v && |p| == depth[u] + 2;
    WalkStaysWithin(g, depth.Keys, p);
    AcyclicWalkIsShort(g, p, depth.Keys);
  }

  /** One pass over the links : a node is put one deeper than what leads to it. */
  method Relax(edges: seq<(Id, Id)>, depth0: map<Id, nat>, most: nat) returns (depth: map<Id, nat>, changed: bool)
    requires Within(Elements(edges), depth0.Keys) && Real(Elements(edges), depth0, most)
    ensures depth.Keys == depth0.Keys && Real(Elements(edges), depth, most)
    ensures forall v :: v in depth ==> depth0[v] <= depth[v]
    ensures forall u, v {:trigger (u, v) in edges} :: (u, v) in edges ==> depth0[u] + 1 <= depth[v] || most <= depth[u]
    ensures !changed ==> depth == depth0
  {
    hide Reached;
    depth, changed := depth0, false;
    for j := 0 to |edges|
      invariant depth.Keys == depth0.Keys && Real(Elements(edges), depth, most)
      invariant forall v :: v in depth ==> depth0[v] <= depth[v]
      invariant forall i :: 0 <= i < j ==> depth0[edges[i].0] + 1 <= depth[edges[i].1] || most <= depth[edges[i].0]
      invariant !changed ==> depth == depth0
    {
      var from, to := edges[j].0, edges[j].1;
      assert (from, to) in edges;
      if depth[from] + 1 > depth[to] && depth[from] + 1 <= most {
        ReachedNext(Elements(edges), from, to, depth[from]);
        depth := depth[to := depth[from] + 1];
        changed := true;
      }
    }
  }

  /** After one more pass, walks of one more link are covered. */
  lemma PassCovers(g: set<(Id, Id)>, depth0: map<Id, nat>, depth: map<Id, nat>, most: nat, k: nat)
    requires Acyclic(g) && Within(g, depth.Keys) && Real(g, depth, most) && |depth.Keys| <= most
    requires depth.Keys == depth0.Keys && Covers(g, depth0, k)
    requires forall v :: v in depth ==> depth0[v] <= depth[v]
    requires forall u, v {:trigger (u, v) in g} :: (u, v) in g ==> depth0[u] + 1 <= depth[v] || most <= depth[u]
    ensures Covers(g, depth, k + 1)
  {
    forall p | Walk(g, p) && |p| <= k + 2 && p[|p| - 1] in depth
      ensures |p| <= depth[p[|p| - 1]] + 1
    {
      if |p| == k + 2 {
        var q := p[..|p| - 1];
        Slice(g, p, 0, |p| - 1);
        assert q == p[0..|p| - 1];
        var u, v := q[|q| - 1], p[|p| - 1];
        assert (u, v) in g;
        AcyclicIsShallow(g, depth, most, u, v);
      }
    }
  }

  /** When a pass changes nothing, every walk is covered. */
  lemma {:induction false} NoChangeCovers(g: set<(Id, Id)>, depth: map<Id, nat>, most: nat, k: nat)
    requires Acyclic(g) && Within(g, depth.Keys) && Real(g, depth, most) && |depth.Keys| <= most
    requires forall u, v {:trigger (u, v) in g} :: (u, v) in g ==> depth[u] + 1 <= depth[v] || most <= depth[u]
    ensures Covers(g, depth, k)
  {
    if k > 0 {
      NoChangeCovers(g, depth, most, k - 1);
      PassCovers(g, depth, depth, most, k - 1);
    }
  }

  /** What the depths have become after some passes : every depth is that of a walk, and without a loop
      walks of as many links are covered. */
  ghost predicate Relaxed(nodes: seq<Node>, depth: map<Id, nat>, passes: nat) {
    && depth.Keys == Ids(nodes) && Real(Edges(nodes), depth, |nodes|)
    && (Acyclic(Edges(nodes)) ==> Covers(Edges(nodes), depth, passes))
  }

  lemma OneMorePass(nodes: seq<Node>, edges: seq<(Id, Id)>, depth: map<Id, nat>, next: map<Id, nat>, k: nat)
    requires Elements(edges) == Edges(nodes) && Relaxed(nodes, depth, k)
    requires next.Keys == depth.Keys && Real(Edges(nodes), next, |nodes|)
    requires forall v :: v in depth ==> depth[v] <= next[v]
    requires forall u, v {:trigger (u, v) in edges} ::
      (u, v) in edges ==> u in depth && v in depth && (depth[u] + 1 <= next[v] || |nodes| <= next[u])
    ensures Relaxed(nodes, next, k + 1)
    ensures next == depth ==> Relaxed(nodes, depth, |nodes|)
  {
    hide Acyclic, Covers, Real, Edges;
    RelaxedPairs(nodes, edges, depth, next);
    EdgesWithin(nodes);
    IdsSize(nodes);
    if Acyclic(Edges(nodes)) {
      PassCovers(Edges(nodes), depth, next, |nodes|, k);
      if next == depth {
        NoChangeCovers(Edges(nodes), depth, |nodes|, |nodes|);
      }
    }
  }

  /** Each node's depth, the links relaxed at most once per node (a loop stops it there). Without a
      loop the depth is the longest path to the node ; with one it stays within the number of nodes. */
  method Depths(nodes: seq<Node>, edges: seq<(Id, Id)>) returns (depth: map<Id, nat>)
    requires Elements(edges) == Edges(nodes)
    ensures depth.Keys == Ids(nodes) && Real(Edges(nodes), depth, |nodes|)
    ensures Acyclic(Edges(nodes)) ==> Covers(Edges(nodes), depth, |nodes|)
  {
    hide Acyclic, Covers, Real, Edges;
    depth := map id | id in Ids(nodes) :: 0;
    StartDepths(Edges(nodes), depth, |nodes|);
    EdgesWithin(nodes);
    for i := 0 to |nodes|
      invariant Relaxed(nodes, depth, i)
    {
      var next, changed := Relax(edges, depth, |nodes|);
      OneMorePass(nodes, edges, depth, next, i);
      if !changed {
        return;
      }
      depth := next;
    }
  }

  lemma RelaxedPairs(nodes: seq<Node>, edges: seq<(Id, Id)>, depth: map<Id, nat>, next: map<Id, nat>)
    requires Elements(edges) == Edges(nodes) && depth.Keys == next.Keys == Ids(nodes)
    requires forall u, v {:trigger (u, v) in edges} ::
      (u, v) in edges ==> u in depth && v in depth && (depth[u] + 1 <= next[v] || |nodes| <= next[u])
    ensures forall u, v {:trigger (u, v) in Edges(nodes)} ::
      (u, v) in Edges(nodes) ==> u in depth && v in depth && (depth[u] + 1 <= next[v] || |nodes| <= next[u])
  {
    forall u, v | (u, v) in Edges(nodes) ensures (u, v) in edges {
      assert (u, v) in Elements(edges);
    }
  }

  lemma StartDepths(g: set<(Id, Id)>, depth: map<Id, nat>, most: nat)
    requires forall v :: v in depth ==> depth[v] == 0
    ensures Real(g, depth, most) && Covers(g, depth, 0)
  {
    forall v | v in depth ensures Reached(g, v, 0) {
      assert Walk(g, [v]);
    }
  }

  /** Layered exactly by longest path : in a workflow without a loop each link leads strictly deeper,
      and a node is as deep as the longest of the walks to it is long. */
  lemma LayeredByLongestPath(nodes: seq<Node>, depth: map<Id, nat>)
    requires depth.Keys == Ids(nodes) && Real(Edges(nodes), depth, |nodes|)
    requires Acyclic(Edges(nodes)) && Covers(Edges(nodes), depth, |nodes|)
    ensures forall u, v {:trigger (u, v) in Edges(nodes)} :: (u, v) in Edges(nodes) ==> depth[u] < depth[v]
    ensures forall p :: Walk(Edges(nodes), p) && p[|p| - 1] in depth ==> |p| <= depth[p[|p| - 1]] + 1
    ensures forall v :: v in depth ==> Reached(Edges(nodes), v, depth[v]) && depth[v] < |nodes|
  {
    var g := Edges(nodes);
    EdgesWithin(nodes);
    IdsSize(nodes);
    forall p | Walk(g, p) && p[|p| - 1] in depth ensures |p| <= depth[p[|p| - 1]] + 1 && |p| <= |nodes| {
      WalkStaysWithin(g, depth.Keys, p);
      AcyclicWalkIsShort(g, p, depth.Keys);
    }
    forall v | v in depth ensures depth[v] < |nodes| {
      var p :| Walk(g, p) && p[|p| - 1] == v && |p| == depth[v] + 1;
    }
    forall u, v | (u, v) in g ensures depth[u] < depth[v] {
      ReachedNext(g, u, v, depth[u]);
      var p :| Walk(g, p) && p[|p| - 1] == v && |p| == depth[u] + 2;
    }
  }

  // ─── where each node goes ────────────────────────────────────────────────────

  const NODE_W := 190
  const NODE_H := 56
  const GAP_X := 70
  const GAP_Y := 26
  const MARGIN := 16
  const START_W := 70
  const START_H := 32

  datatype Point = Point(x: int, y: int)

  datatype Graph = Graph(pos: map<Id, Point>, start: Point, width: int, height: int)

  /** The nodes of one depth, in the order the file lists them. */
  function Column(nodes: seq<Node>, depth: map<Id, nat>, d: nat): seq<Id>
    requires Ids(nodes) <= depth.Keys
  {
    if nodes == [] then []
    else
      var front, n := nodes[..|nodes| - 1], nodes[|nodes| - 1];
      assert nodes == front + [n];
      Column(front, depth, d) + if depth[n.id] == d then [n.id] else []
  }

  lemma {:induction false} ColumnIff(nodes: seq<Node>, depth: map<Id, nat>, d: nat, id: Id)
    requires Ids(nodes) <= depth.Keys
    ensures id in Column(nodes, depth, d) <==> id in Ids(nodes) && depth[id] == d
  {
    if nodes != [] {
      var front, n := nodes[..|nodes| - 1], nodes[|nodes| - 1];
      assert nodes == front + [n];
      assert Ids(nodes) == Ids(front) + {n.id};
      ColumnIff(front, depth, d, id);
    }
  }

  type Columns = map<nat, seq<Id>>

  ghost predicate ColumnsAre(nodes: seq<Node>, depth: map<Id, nat>, columns: Columns)
    requires Ids(nodes) <= depth.Keys
  {
    && (forall d :: d in columns ==> columns[d] == Column(nodes, depth, d) && columns[d] != [])
    && (forall id :: id in Ids(nodes) ==> depth[id] in columns)
  }

  ghost predicate Gathered(nodes: seq<Node>, depth: map<Id, nat>, columns: Columns)
    requires Ids(nodes) <= depth.Keys
  {
    && (forall d: nat :: Column(nodes, depth, d) == if d in columns then columns[d] else [])
    && (forall d :: d in columns ==> columns[d] != [])
  }

  method ColumnsOf(nodes: seq<Node>, depth: map<Id, nat>) returns (columns: Columns)
    requires Ids(nodes) <= depth.Keys
    ensures ColumnsAre(nodes, depth, columns)
  {
    columns := map[];
    for i := 0 to |nodes|
      invariant Ids(nodes[..i]) <= depth.Keys && Gathered(nodes[..i], depth, columns)
    {
      assert nodes[i].id in Ids(nodes);
      assert nodes[..i + 1][..i] == nodes[..i];
      var d := depth[nodes[i].id];
      if d !in columns {
        columns := columns[d := []];
      }
      columns := columns[d := columns[d] + [nodes[i].id]];
    }
    assert nodes[..|nodes|] == nodes;
    forall id | id in Ids(nodes) ensures depth[id] in columns {
      ColumnIff(nodes, depth, depth[id], id);
    }
  }

  function Max(a: int, b: int): (m: int)
    ensures a <= m && b <= m && m in {a, b}
  {
    if a < b then b else a
  }

  function Min(a: int, b: int): (m: int)
    ensures m <= a && m <= b && m in {a, b}
  {
    if a < b then a else b
  }

  /** The deepest column, and the most nodes in one. */
  method Extent(columns: Columns) returns (maxDepth: int, maxRows: int)
    ensures 0 <= maxDepth && forall d :: d in columns ==> d <= maxDepth
    ensures 1 <= maxRows && forall d :: d in columns ==> |columns[d]| <= maxRows
    ensures maxDepth == 0 || maxDepth in columns
    ensures maxRows == 1 || exists d :: d in columns && |columns[d]| == maxRows
  {
    maxDepth, maxRows := 0, 1;
    var left := columns.Keys;
    while left != {}
      invariant left <= columns.Keys && 0 <= maxDepth && 1 <= maxRows
      invariant forall d :: d in columns && d !in left ==> d <= maxDepth && |columns[d]| <= maxRows
      invariant maxDepth == 0 || maxDepth in columns
      invariant maxRows == 1 || exists d :: d in columns && |columns[d]| == maxRows
      decreases left
    {
      var d :| d in left;
      maxDepth := Max(maxDepth, d);
      maxRows := Max(maxRows, |columns[d]|);
      left := left - {d};
    }
  }

  /** The top left corner of the `i`th node of a column of `rows` nodes. */
  function Spot(d: nat, i: nat, rows: nat, height: int): Point {
    Point(MARGIN + START_W + GAP_X + d * (NODE_W + GAP_X),
          (height - (rows * NODE_H + (rows - 1) * GAP_Y)) / 2 + i * (NODE_H + GAP_Y))
  }

  function Width(maxDepth: int): int {
    MARGIN * 2 + START_W + GAP_X + (maxDepth + 1) * NODE_W + maxDepth * GAP_X
  }

  function Height(maxRows: int): int {
    MARGIN * 2 + maxRows * NODE_H + (maxRows - 1) * GAP_Y
  }

  /** No later place of the list has what this one has. */
  ghost predicate IsLast(list: seq<Id>, i: int) {
    0 <= i < |list| && forall j :: i < j < |list| ==> list[j] != list[i]
  }

  lemma {:induction false} LastOf(list: seq<Id>, id: Id) returns (i: nat)
    requires id in list
    ensures IsLast(list, i) && list[i] == id
  {
    i := |list| - 1;
    if list[i] != id {
      var front := list[..i];
      assert list == front + [list[i]];
      i := LastOf(front, id);
    }
  }

  /** Each node of each column is at its spot, moved down by `shift` : the last spot of its column that has
      its identifier, when several nodes have one. */
  ghost predicate Placed(columns: Columns, pos: map<Id, Point>, height: int, shift: int) {
    forall d, i :: d in columns && IsLast(columns[d], i) ==>
      columns[d][i] in pos
      && pos[columns[d][i]] == Point(Spot(d, i, |columns[d]|, height).x, Spot(d, i, |columns[d]|, height).y + shift)
  }

  lemma LastSoFar(list: seq<Id>, i: nat, j: nat)
    requires i < |list| && IsLast(list[..i + 1], j)
    ensures j == i || (IsLast(list[..i], j) && list[j] != list[i])
  {
    var shown := list[..i + 1];
    assert shown[i] == list[i];
    if j != i {
      assert shown[i] != shown[j];
      forall k | j < k < i ensures list[..i][k] != list[..i][j] {
        assert shown[k] != shown[j];
      }
    }
  }

  method PlaceColumn(list: seq<Id>, d: nat, height: int, pos0: map<Id, Point>) returns (pos: map<Id, Point>)
    ensures pos.Keys == pos0.Keys + Elements(list)
    ensures forall id :: id in pos0 && id !in list ==> pos[id] == pos0[id]
    ensures forall i :: IsLast(list, i) ==> pos[list[i]] == Spot(d, i, |list|, height)
  {
    hide IsLast;
    pos := pos0;
    for i := 0 to |list|
      invariant pos.Keys == pos0.Keys + Elements(list[..i])
      invariant forall id :: id in pos0 && id !in list ==> pos[id] == pos0[id]
      invariant forall j :: 0 <= j < i && IsLast(list[..i], j) ==>
        list[j] in pos && pos[list[j]] == Spot(d, j, |list|, height)
    {
      ghost var before := pos;
      pos := pos[list[i] := Spot(d, i, |list|, height)];
      assert list[..i + 1] == list[..i] + [list[i]];
      forall j | 0 <= j < i + 1 && IsLast(list[..i + 1], j)
        ensures list[j] in pos && pos[list[j]] == Spot(d, j, |list|, height)
      {
        LastSoFar(list, i, j);
      }
    }
    assert list[..|list|] == list;
    forall i | IsLast(list, i) ensures 0 <= i < |list| {
      LastIsIn(list, i);
    }
  }

  lemma LastIsIn(list: seq<Id>, i: int)
    requires IsLast(list, i)
    ensures 0 <= i < |list|
  {
  }

  lemma ColumnsApart(nodes: seq<Node>, depth: map<Id, nat>, columns: Columns, d: nat)
    requires Ids(nodes) <= depth.Keys && ColumnsAre(nodes, depth, columns) && d in columns
    ensures forall id :: id in columns[d] <==> id in Ids(nodes) && depth[id] == d
  {
    forall id ensures id in columns[d] <==> id in Ids(nodes) && depth[id] == d {
      ColumnIff(nodes, depth, d, id);
    }
  }

  method PlaceNodes(nodes: seq<Node>, ghost depth: map<Id, nat>, columns: Columns, height: int)
    returns (pos: map<Id, Point>)
    requires Ids(nodes) <= depth.Keys && ColumnsAre(nodes, depth, columns)
    ensures Placed(columns, pos, height, 0) && pos.Keys == Ids(nodes)
  {
    hide IsLast, Spot;
    pos := map[];
    var left := columns.Keys;
    forall d | d in columns {
      ColumnsApart(nodes, depth, columns, d);
    }
    forall d, i | d in columns && IsLast(columns[d], i) ensures 0 <= i < |columns[d]| && columns[d][i] in columns[d] {
      LastIsIn(columns[d], i);
    }
    while left != {}
      invariant left <= columns.Keys
      invariant forall id :: id in pos <==> id in Ids(nodes) && depth[id] !in left
      invariant forall d, i :: d in columns && d !in left && IsLast(columns[d], i) ==>
        columns[d][i] in pos && pos[columns[d][i]] == Spot(d, i, |columns[d]|, height)
      decreases left
    {
      var d :| d in left;
      pos := PlaceColumn(columns[d], d, height, pos);
      left := left - {d};
    }
  }

  // ─── room for the arcs ───────────────────────────────────────────────────────

  /** How many columns a link runs over. */
  function Skipped(a: Point, b: Point): int {
    (b.x - a.x) / (NODE_W + GAP_X) - 1
  }

  /** The level an arc between two nodes climbs to. */
  function ArcTop(a: Point, b: Point): int {
    Min(a.y, b.y) - 16 - 10 * ((b.x - a.x) / 260 - 2)
  }

  /** A link leads over one column at least. */
  predicate LeadsOver(a: Point, b: Point) {
    520 <= b.x - a.x
  }

  method Lift(edges: seq<(Id, Id)>, pos: map<Id, Point>) returns (lift: int)
    requires forall e :: e in edges ==> e.0 in pos && e.1 in pos
    ensures 0 <= lift
    ensures forall e :: e in edges && LeadsOver(pos[e.0], pos[e.1]) ==> 16 <= ArcTop(pos[e.0], pos[e.1]) + lift
    ensures lift == 0 || exists e :: e in edges && LeadsOver(pos[e.0], pos[e.1])
                                     && 16 == ArcTop(pos[e.0], pos[e.1]) + lift
  {
    lift := 0;
    for j := 0 to |edges|
      invariant 0 <= lift
      invariant forall i :: 0 <= i < j && LeadsOver(pos[edges[i].0], pos[edges[i].1]) ==>
        16 <= ArcTop(pos[edges[i].0], pos[edges[i].1]) + lift
      invariant lift == 0 ||
        exists e :: e in edges && LeadsOver(pos[e.0], pos[e.1]) && 16 == ArcTop(pos[e.0], pos[e.1]) + lift
    {
      var a, b := pos[edges[j].0], pos[edges[j].1];
      var y1, y2 := a.y + NODE_H / 2, b.y + NODE_H / 2;
      var skipped := Skipped(a, b);
      if skipped > 0 {
        lift := Max(lift, NODE_H / 2 + 16 + 10 * (skipped - 1) - Min(y1, y2) + MARGIN);
        assert edges[j] in edges;
      }
    }
  }

  function MovedDown(pos: map<Id, Point>, shift: int): (moved: map<Id, Point>)
    ensures moved.Keys == pos.Keys
  {
    map id | id in pos :: Point(pos[id].x, pos[id].y + shift)
  }

  /** How a workflow is drawn, once everything was moved down by `lift` : each node in the column of its depth, boxes
      that do not touch, all of them inside the margins, each column in the order of the file and centred, a
      canvas no larger than it must be, the start centred, and room for the arcs. */
  ghost predicate WellDrawn(nodes: seq<Node>, depth: map<Id, nat>, graph: Graph, lift: int) {
    && graph.pos.Keys == depth.Keys == Ids(nodes)
    && (forall id :: id in depth ==> graph.pos[id].x == 156 + 260 * depth[id])
    && (forall a, b :: a in graph.pos && b in graph.pos && a != b ==> Apart(graph.pos[a], graph.pos[b]))
    && (forall id :: id in graph.pos ==> Inside(graph.pos[id], graph.width, graph.height))
    && InFileOrder(nodes, depth, graph.pos)
    && (UniqueIds(nodes) ==> Stacked(nodes, depth, graph.pos, graph.height + lift))
    && FitsTheWidth(depth, graph.width) && (UniqueIds(nodes) ==> FitsTheHeight(graph.pos, graph.height, lift))
    && graph.start.x == 16 && 2 * graph.start.y + 32 == graph.height + lift
    && ArcsFit(nodes, graph.pos, lift)
  }

  lemma IsWellDrawn(nodes: seq<Node>, depth: map<Id, nat>, columns: Columns, maxDepth: int, maxRows: int,
                    edges: seq<(Id, Id)>, pos: map<Id, Point>, shift: int)
    requires Ids(nodes) == depth.Keys == pos.Keys && ColumnsAre(nodes, depth, columns)
    requires Elements(edges) == Edges(nodes)
    requires maxDepth == 0 || maxDepth in columns
    requires maxRows == 1 || exists d :: d in columns && |columns[d]| == maxRows
    requires forall d :: d in columns ==> d <= maxDepth && |columns[d]| <= maxRows
    requires Placed(columns, pos, Height(maxRows), 0) && 0 <= shift
    requires forall e :: e in edges ==> e.0 in pos && e.1 in pos
    requires forall e :: e in edges && LeadsOver(pos[e.0], pos[e.1]) ==> 16 <= ArcTop(pos[e.0], pos[e.1]) + shift
    requires shift == 0 || exists e ::
               e in edges && LeadsOver(pos[e.0], pos[e.1]) && 16 == ArcTop(pos[e.0], pos[e.1]) + shift
    ensures var height := Height(maxRows);
            var start := Point(MARGIN, height / 2 - START_H / 2 + shift);
            WellDrawn(nodes, depth, Graph(MovedDown(pos, shift), start, Width(maxDepth), height + shift), shift)
  {
    hide Placed, ColumnsAre, Apart, Inside, InFileOrder, LeadsOver, ArcTop, Height, Width, Edges, Stacked, FitsTheWidth,
         ArcsFit, UniqueIds, MovedDown, Elements, FitsTheHeight;
    var moved := MovedDown(pos, shift);
    StartIsCentred(maxRows);
    WidthFits(nodes, depth, columns, maxDepth);
    MovedIsPlaced(columns, pos, Height(maxRows), shift);
    if UniqueIds(nodes) {
      EachIsStacked(nodes, depth, columns, moved, maxRows, shift);
      HeightFits(nodes, depth, columns, moved, maxRows, shift);
    }
    WellPlaced(nodes, depth, columns, moved, maxDepth, maxRows, shift);
    StackedInFileOrder(nodes, depth, columns, moved, Height(maxRows), shift);
    ArcsHaveRoom(nodes, edges, pos, shift);
  }

  /** A workflow's graph laid out. */
  method WorkflowGraph(nodes: seq<Node>) returns (graph: Graph, ghost depth: map<Id, nat>, ghost lift: int)
    ensures depth.Keys == Ids(nodes) && Real(Edges(nodes), depth, |nodes|)
    ensures Acyclic(Edges(nodes)) ==> Covers(Edges(nodes), depth, |nodes|)
    ensures WellDrawn(nodes, depth, graph, lift)
  {
    hide Placed, ColumnsAre, Real, Covers, Acyclic, LeadsOver, ArcTop, Height, Width, Edges, WellDrawn;
    var edges := ListEdges(nodes);
    var depths := Depths(nodes, edges);
    depth := depths;
    var columns := ColumnsOf(nodes, depths);
    var maxDepth, maxRows := Extent(columns);
    var height := Height(maxRows);
    var pos := PlaceNodes(nodes, depth, columns, height);
    EdgesWithin(nodes);
    var shift := Lift(edges, pos);
    lift := shift;
    var start := Point(MARGIN, height / 2 - START_H / 2 + shift);
    graph := Graph(MovedDown(pos, shift), start, Width(maxDepth), height + shift);
    IsWellDrawn(nodes, depth, columns, maxDepth, maxRows, edges, pos, shift);
  }

  /** The file lists no later node of that identifier. */
  ghost predicate LastNode(nodes: seq<Node>, i: int) {
    0 <= i < |nodes| && forall j :: i < j < |nodes| ==> nodes[j].id != nodes[i].id
  }

  /** In a column, a node the file lists before another stands above it ; of several nodes of one
      identifier the last is meant. */
  ghost predicate InFileOrder(nodes: seq<Node>, depth: map<Id, nat>, pos: map<Id, Point>)
    requires Ids(nodes) <= depth.Keys && Ids(nodes) <= pos.Keys
  {
    forall i, j :: i < j && LastNode(nodes, i) && LastNode(nodes, j) && depth[nodes[i].id] == depth[nodes[j].id] ==>
      pos[nodes[i].id].y < pos[nodes[j].id].y
  }

  lemma LastOfMore(list: seq<Id>, r: nat, more: seq<Id>)
    requires IsLast(list, r) && list[r] !in more
    ensures IsLast(list + more, r)
  {
  }

  lemma LastBefore(nodes: seq<Node>, i: int)
    requires LastNode(nodes, i) && i < |nodes| - 1
    ensures LastNode(nodes[..|nodes| - 1], i) && nodes[i].id != nodes[|nodes| - 1].id
  {
  }

  lemma {:induction false} ColumnInFileOrder(nodes: seq<Node>, depth: map<Id, nat>, d: nat, i: nat, j: nat)
    returns (r: nat, s: nat)
    requires Ids(nodes) <= depth.Keys && i < j && LastNode(nodes, i) && LastNode(nodes, j)
    requires depth[nodes[i].id] == d && depth[nodes[j].id] == d
    ensures r < s && IsLast(Column(nodes, depth, d), r) && IsLast(Column(nodes, depth, d), s)
    ensures Column(nodes, depth, d)[r] == nodes[i].id && Column(nodes, depth, d)[s] == nodes[j].id
  {
    var front, n := nodes[..|nodes| - 1], nodes[|nodes| - 1];
    assert nodes == front + [n];
    var column, more := Column(front, depth, d), if depth[n.id] == d then [n.id] else [];
    LastBefore(nodes, i);
    if j < |front| {
      LastBefore(nodes, j);
      r, s := ColumnInFileOrder(front, depth, d, i, j);
      LastOfMore(column, s, more);
    } else {
      assert front[i].id in Ids(front);
      ColumnIff(front, depth, d, front[i].id);
      r := LastOf(column, front[i].id);
      s := |column|;
    }
    LastOfMore(column, r, more);
  }

  lemma StackedInFileOrder(nodes: seq<Node>, depth: map<Id, nat>, columns: Columns, pos: map<Id, Point>, height: int,
                           shift: int)
    requires Ids(nodes) <= depth.Keys && ColumnsAre(nodes, depth, columns)
    requires Placed(columns, pos, height, shift) && pos.Keys == Ids(nodes)
    ensures InFileOrder(nodes, depth, pos)
  {
    hide IsLast;
    forall i, j | i < j && LastNode(nodes, i) && LastNode(nodes, j) && depth[nodes[i].id] == depth[nodes[j].id]
      ensures pos[nodes[i].id].y < pos[nodes[j].id].y
    {
      var d := depth[nodes[i].id];
      assert nodes[i].id in Ids(nodes);
      var r, s := ColumnInFileOrder(nodes, depth, d, i, j);
      assert columns[d][r] == nodes[i].id && columns[d][s] == nodes[j].id;
    }
  }

  lemma MovedIsPlaced(columns: Columns, pos: map<Id, Point>, height: int, shift: int)
    requires Placed(columns, pos, height, 0)
    ensures Placed(columns, MovedDown(pos, shift), height, shift)
  {
  }

  lemma ArcMoves(edges: seq<(Id, Id)>, pos: map<Id, Point>, shift: int, e: (Id, Id))
    requires e in edges && e.0 in pos && e.1 in pos
    ensures var moved := MovedDown(pos, shift);
            && (LeadsOver(moved[e.0], moved[e.1]) <==> LeadsOver(pos[e.0], pos[e.1]))
            && ArcTop(moved[e.0], moved[e.1]) == ArcTop(pos[e.0], pos[e.1]) + shift
  {
  }

  /** Every arc over the columns has its room below the top margin, and the highest touches the margin when
      everything is moved down. */
  ghost predicate ArcsFit(nodes: seq<Node>, pos: map<Id, Point>, lift: int)
    requires Ids(nodes) <= pos.Keys
  {
    && (forall u, v {:trigger (u, v) in Edges(nodes)} ::
          (u, v) in Edges(nodes) && u in pos && v in pos && LeadsOver(pos[u], pos[v]) ==> 16 <= ArcTop(pos[u], pos[v]))
    && (lift == 0
        || exists u, v {:trigger (u, v) in Edges(nodes)} ::
             (u, v) in Edges(nodes) && u in pos && v in pos && LeadsOver(pos[u], pos[v])
             && 16 == ArcTop(pos[u], pos[v]))
  }

  lemma ArcsHaveRoom(nodes: seq<Node>, edges: seq<(Id, Id)>, pos: map<Id, Point>, shift: int)
    requires Elements(edges) == Edges(nodes) && Ids(nodes) <= pos.Keys
    requires forall e :: e in edges ==> e.0 in pos && e.1 in pos
    requires forall e :: e in edges && LeadsOver(pos[e.0], pos[e.1]) ==> 16 <= ArcTop(pos[e.0], pos[e.1]) + shift
    requires shift == 0 || exists e ::
               e in edges && LeadsOver(pos[e.0], pos[e.1]) && 16 == ArcTop(pos[e.0], pos[e.1]) + shift
    ensures ArcsFit(nodes, MovedDown(pos, shift), shift)
  {
    hide LeadsOver, ArcTop, MovedDown, Edges;
    var moved := MovedDown(pos, shift);
    forall u, v | (u, v) in Edges(nodes)
      ensures u in moved && v in moved && (LeadsOver(moved[u], moved[v]) ==> 16 <= ArcTop(moved[u], moved[v]))
    {
      assert (u, v) in Elements(edges);
      ArcMoves(edges, pos, shift, (u, v));
    }
    if shift != 0 {
      var e :| e in edges && LeadsOver(pos[e.0], pos[e.1]) && 16 == ArcTop(pos[e.0], pos[e.1]) + shift;
      ArcMoves(edges, pos, shift, e);
      assert e in Elements(edges) && e == (e.0, e.1);
    }
  }

  /** The boxes of two nodes, 190 by 56, do not touch : a gap is left between them. */
  predicate Apart(p: Point, q: Point) {
    p.x + 190 + 70 <= q.x || q.x + 190 + 70 <= p.x || p.y + 56 + 26 <= q.y || q.y + 56 + 26 <= p.y
  }

  /** The node's box is inside the canvas, margins of 16 left free. */
  predicate Inside(p: Point, width: int, height: int) {
    16 <= p.x && p.x + 190 <= width - 16 && 16 <= p.y && p.y + 56 <= height - 16
  }

  /** The canvas is as wide as the deepest node asks, or as one column does. */
  ghost predicate FitsTheWidth(depth: map<Id, nat>, width: int) {
    width == 362 || exists id :: id in depth && width == 156 + 260 * depth[id] + 190 + 16
  }

  lemma WidthFits(nodes: seq<Node>, depth: map<Id, nat>, columns: Columns, maxDepth: int)
    requires Ids(nodes) == depth.Keys && ColumnsAre(nodes, depth, columns)
    requires maxDepth == 0 || maxDepth in columns
    ensures FitsTheWidth(depth, Width(maxDepth))
  {
    if maxDepth != 0 {
      ColumnIff(nodes, depth, maxDepth, columns[maxDepth][0]);
      assert columns[maxDepth][0] in columns[maxDepth];
    }
  }

  /** Above the highest node is just the margin ; without a node the canvas is as high as one asks. */
  ghost predicate FitsTheHeight(pos: map<Id, Point>, height: int, lift: int) {
    if pos == map[] then height - lift == 88 else exists id :: id in pos && pos[id].y - lift == 16
  }

  lemma HeightFits(nodes: seq<Node>, depth: map<Id, nat>, columns: Columns, pos: map<Id, Point>, maxRows: int,
                   shift: int)
    requires UniqueIds(nodes) && Ids(nodes) == depth.Keys == pos.Keys && ColumnsAre(nodes, depth, columns)
    requires Placed(columns, pos, Height(maxRows), shift)
    requires maxRows == 1 || exists d :: d in columns && |columns[d]| == maxRows
    requires forall d :: d in columns ==> |columns[d]| <= maxRows
    ensures FitsTheHeight(pos, Height(maxRows) + shift, shift)
  {
    if maxRows != 1 {
      var d :| d in columns && |columns[d]| == maxRows;
      HighestColumn(nodes, depth, columns, pos, maxRows, shift, d);
    } else if id :| id in pos {
      HighestColumn(nodes, depth, columns, pos, maxRows, shift, depth[id]);
    }
  }

  lemma HighestColumn(nodes: seq<Node>, depth: map<Id, nat>, columns: Columns, pos: map<Id, Point>, maxRows: int,
                      shift: int, d: nat)
    requires UniqueIds(nodes) && Ids(nodes) == depth.Keys == pos.Keys && ColumnsAre(nodes, depth, columns)
    requires Placed(columns, pos, Height(maxRows), shift)
    requires d in columns && |columns[d]| == maxRows
    ensures exists id :: id in pos && pos[id].y - shift == 16
  {
    ColumnOnce(nodes, depth, d);
    DistinctIsLast(columns[d], 0);
    ColumnIff(nodes, depth, d, columns[d][0]);
    assert pos[columns[d][0]].y == Spot(d, 0, maxRows, Height(maxRows)).y + shift;
  }

  lemma StartIsCentred(maxRows: int)
    ensures 2 * (Height(maxRows) / 2 - START_H / 2) + 32 == Height(maxRows)
  {
    assert Height(maxRows) == 2 * (41 * maxRows + 3);
  }

  // ─── each column, centred ────────────────────────────────────────────────────

  /** No node between two places of the file has that depth. */
  ghost predicate NoneBetween(nodes: seq<Node>, depth: map<Id, nat>, d: nat, i: int, j: int)
    requires Ids(nodes) <= depth.Keys && 0 <= i <= j <= |nodes|
  {
    forall k :: i <= k < j ==> depth[nodes[k].id] != d
  }

  /** In each column the nodes stand 82 apart, in the order of the file, as far from the top as from the
      bottom ; `sides` : the height, with what everything is moved down once more. */
  ghost predicate Stacked(nodes: seq<Node>, depth: map<Id, nat>, pos: map<Id, Point>, sides: int)
    requires Ids(nodes) <= depth.Keys && Ids(nodes) <= pos.Keys
  {
    forall i, j :: 0 <= i <= j < |nodes| && depth[nodes[i].id] == depth[nodes[j].id] ==>
      var d, p, q := depth[nodes[i].id], pos[nodes[i].id], pos[nodes[j].id];
      && (i < j && NoneBetween(nodes, depth, d, i + 1, j) ==> q.y == p.y + 82)
      && (NoneBetween(nodes, depth, d, 0, i) && NoneBetween(nodes, depth, d, j + 1, |nodes|) ==>
            p.y + q.y + 56 == sides)
  }

  lemma FrontIds(nodes: seq<Node>, a: nat)
    requires a <= |nodes|
    ensures Ids(nodes[..a]) <= Ids(nodes)
  {
  }

  lemma {:induction false} ColumnSkips(nodes: seq<Node>, depth: map<Id, nat>, d: nat, a: nat, b: nat)
    requires Ids(nodes) <= depth.Keys && a <= b <= |nodes| && NoneBetween(nodes, depth, d, a, b)
    ensures Ids(nodes[..a]) <= depth.Keys && Ids(nodes[..b]) <= depth.Keys
    ensures Column(nodes[..b], depth, d) == Column(nodes[..a], depth, d)
  {
    FrontIds(nodes, a);
    FrontIds(nodes, b);
    if a < b {
      ColumnSkips(nodes, depth, d, a, b - 1);
      assert nodes[..b][..b - 1] == nodes[..b - 1];
    }
  }

  lemma {:induction false} ColumnTakes(nodes: seq<Node>, depth: map<Id, nat>, i: nat)
    requires Ids(nodes) <= depth.Keys && i < |nodes|
    ensures Ids(nodes[..i]) <= depth.Keys && Ids(nodes[..i + 1]) <= depth.Keys && nodes[i].id in depth
    ensures Column(nodes[..i + 1], depth, depth[nodes[i].id]) ==
      Column(nodes[..i], depth, depth[nodes[i].id]) + [nodes[i].id]
  {
    FrontIds(nodes, i);
    FrontIds(nodes, i + 1);
    assert nodes[i].id in Ids(nodes);
    assert nodes[..i + 1][..i] == nodes[..i];
  }

  lemma {:induction false} ColumnGrows(nodes: seq<Node>, depth: map<Id, nat>, d: nat, a: nat)
    requires Ids(nodes) <= depth.Keys && a <= |nodes|
    ensures Ids(nodes[..a]) <= depth.Keys && Column(nodes[..a], depth, d) <= Column(nodes, depth, d)
  {
    FrontIds(nodes, a);
    if a == |nodes| {
      assert nodes[..a] == nodes;
    } else {
      var front := nodes[..|nodes| - 1];
      FrontIds(nodes, |nodes| - 1);
      ColumnGrows(front, depth, d, a);
      assert front[..a] == nodes[..a];
      assert nodes == front + [nodes[|nodes| - 1]];
    }
  }

  /** The row of a node in its column : how many nodes of that depth the file lists before it. */
  ghost function RowIn(nodes: seq<Node>, depth: map<Id, nat>, i: nat): nat
    requires Ids(nodes) <= depth.Keys && i < |nodes|
  {
    FrontIds(nodes, i);
    assert nodes[i].id in Ids(nodes);
    |Column(nodes[..i], depth, depth[nodes[i].id])|
  }

  lemma {:induction false} ColumnOnce(nodes: seq<Node>, depth: map<Id, nat>, d: nat)
    requires UniqueIds(nodes) && Ids(nodes) <= depth.Keys
    ensures Distinct(Column(nodes, depth, d))
  {
    if nodes != [] {
      var front, n := nodes[..|nodes| - 1], nodes[|nodes| - 1];
      assert nodes == front + [n];
      ColumnOnce(front, depth, d);
      ColumnIff(front, depth, d, n.id);
      forall m | m in front ensures m.id != n.id {
        var i :| 0 <= i < |front| && front[i] == m;
        assert nodes[i] == m;
      }
    }
  }

  lemma DistinctIsLast(list: seq<Id>, i: nat)
    requires Distinct(list) && i < |list|
    ensures IsLast(list, i)
  {
  }

  lemma {:induction false} RowIs(
    nodes: seq<Node>, depth: map<Id, nat>, columns: Columns, pos: map<Id, Point>, height: int, shift: int,
    i: nat)
    requires UniqueIds(nodes) && Ids(nodes) <= depth.Keys && ColumnsAre(nodes, depth, columns)
    requires Placed(columns, pos, height, shift) && i < |nodes|
    ensures nodes[i].id in depth && depth[nodes[i].id] in columns && nodes[i].id in pos
    ensures var d := depth[nodes[i].id];
            && columns[d] == Column(nodes, depth, d) && RowIn(nodes, depth, i) < |columns[d]|
            && pos[nodes[i].id].y == Spot(d, RowIn(nodes, depth, i), |columns[d]|, height).y + shift
  {
    hide Spot, IsLast;
    assert nodes[i].id in Ids(nodes);
    var d := depth[nodes[i].id];
    ColumnTakes(nodes, depth, i);
    ColumnGrows(nodes, depth, d, i + 1);
    ColumnOnce(nodes, depth, d);
    DistinctIsLast(columns[d], RowIn(nodes, depth, i));
    assert columns[d][RowIn(nodes, depth, i)] == nodes[i].id;
  }

  lemma SpotsStacked(d: nat, rows: nat, maxRows: int)
    requires 0 < rows
    ensures forall r: nat :: Spot(d, r + 1, rows, Height(maxRows)).y == Spot(d, r, rows, Height(maxRows)).y + 82
    ensures Spot(d, 0, rows, Height(maxRows)).y + Spot(d, rows - 1, rows, Height(maxRows)).y + 56 == Height(maxRows)
  {
    assert Height(maxRows) - (rows * NODE_H + (rows - 1) * GAP_Y) == 2 * (41 * (maxRows - rows) + 16);
  }

  lemma EachIsStacked(nodes: seq<Node>, depth: map<Id, nat>, columns: Columns, pos: map<Id, Point>, maxRows: int,
                      shift: int)
    requires UniqueIds(nodes) && Ids(nodes) == depth.Keys == pos.Keys && ColumnsAre(nodes, depth, columns)
    requires Placed(columns, pos, Height(maxRows), shift)
    ensures Stacked(nodes, depth, pos, Height(maxRows) + 2 * shift)
  {
    hide Placed, ColumnsAre, Spot, Height, Column, UniqueIds;
    forall i, j | 0 <= i <= j < |nodes| && depth[nodes[i].id] == depth[nodes[j].id]
      ensures var d, p, q := depth[nodes[i].id], pos[nodes[i].id], pos[nodes[j].id];
              && (i < j && NoneBetween(nodes, depth, d, i + 1, j) ==> q.y == p.y + 82)
              && (NoneBetween(nodes, depth, d, 0, i) && NoneBetween(nodes, depth, d, j + 1, |nodes|) ==>
                    p.y + q.y + 56 == Height(maxRows) + 2 * shift)
    {
      TwoStacked(nodes, depth, columns, pos, maxRows, shift, i, j);
    }
  }

  lemma TwoStacked(nodes: seq<Node>, depth: map<Id, nat>, columns: Columns, pos: map<Id, Point>, maxRows: int,
                   shift: int, i: nat, j: nat)
    requires UniqueIds(nodes) && Ids(nodes) == depth.Keys == pos.Keys && ColumnsAre(nodes, depth, columns)
    requires Placed(columns, pos, Height(maxRows), shift)
    requires i <= j < |nodes| && nodes[i].id in depth && nodes[j].id in depth
    requires depth[nodes[i].id] == depth[nodes[j].id]
    ensures var d, p, q := depth[nodes[i].id], pos[nodes[i].id], pos[nodes[j].id];
            && (i < j && NoneBetween(nodes, depth, d, i + 1, j) ==> q.y == p.y + 82)
            && (NoneBetween(nodes, depth, d, 0, i) && NoneBetween(nodes, depth, d, j + 1, |nodes|) ==>
                  p.y + q.y + 56 == Height(maxRows) + 2 * shift)
  {
    hide Placed, ColumnsAre, Spot, Height, UniqueIds, Column, RowIn, NoneBetween;
    var d := depth[nodes[i].id];
    RowIs(nodes, depth, columns, pos, Height(maxRows), shift, i);
    RowIs(nodes, depth, columns, pos, Height(maxRows), shift, j);
    SpotsStacked(d, |columns[d]|, maxRows);
    RowsAre(nodes, depth, i, j);
  }

  lemma {:induction false} RowsAre(nodes: seq<Node>, depth: map<Id, nat>, i: nat, j: nat)
    requires Ids(nodes) <= depth.Keys
    requires i <= j < |nodes| && nodes[i].id in depth && nodes[j].id in depth
    requires depth[nodes[i].id] == depth[nodes[j].id]
    ensures var d := depth[nodes[i].id];
            && (i < j && NoneBetween(nodes, depth, d, i + 1, j) ==>
                  RowIn(nodes, depth, j) == RowIn(nodes, depth, i) + 1)
            && (NoneBetween(nodes, depth, d, 0, i) ==> RowIn(nodes, depth, i) == 0)
            && (NoneBetween(nodes, depth, d, j + 1, |nodes|) ==>
                  RowIn(nodes, depth, j) == |Column(nodes, depth, d)| - 1)
  {
    hide NoneBetween, Ids;
    var d := depth[nodes[i].id];
    ColumnTakes(nodes, depth, i);
    ColumnTakes(nodes, depth, j);
    assert nodes[..0] == [] && nodes[..|nodes|] == nodes;
    if i < j && NoneBetween(nodes, depth, d, i + 1, j) { ColumnSkips(nodes, depth, d, i + 1, j); }
    if NoneBetween(nodes, depth, d, 0, i) { ColumnSkips(nodes, depth, d, 0, i); }
    if NoneBetween(nodes, depth, d, j + 1, |nodes|) { ColumnSkips(nodes, depth, d, j + 1, |nodes|); }
  }

  /** Where a node is : its column, and its row there. */
  lemma Located(nodes: seq<Node>, depth: map<Id, nat>, columns: Columns, pos: map<Id, Point>, height: int, shift: int,
                id: Id)
    returns (row: nat)
    requires Ids(nodes) <= depth.Keys && ColumnsAre(nodes, depth, columns)
    requires Placed(columns, pos, height, shift) && id in Ids(nodes)
    ensures depth[id] in columns && row < |columns[depth[id]]| && columns[depth[id]][row] == id && id in pos
    ensures var spot := Spot(depth[id], row, |columns[depth[id]]|, height); pos[id] == Point(spot.x, spot.y + shift)
  {
    ColumnsApart(nodes, depth, columns, depth[id]);
    row := LastOf(columns[depth[id]], id);
  }

  lemma SpotsApart(d: nat, i: nat, rows: nat, d': nat, i': nat, rows': nat, height: int)
    requires d != d' || (rows == rows' && i != i')
    ensures var p, q := Spot(d, i, rows, height), Spot(d', i', rows', height);
            Apart(p, q)
  {
  }

  lemma SpotInside(d: nat, i: nat, rows: nat, maxDepth: int, maxRows: int)
    requires i < rows && d <= maxDepth && rows <= maxRows
    ensures Inside(Spot(d, i, rows, Height(maxRows)), Width(maxDepth), Height(maxRows))
  {
  }

  lemma WellPlaced(nodes: seq<Node>, depth: map<Id, nat>, columns: Columns, pos: map<Id, Point>, maxDepth: int,
                   maxRows: int, shift: int)
    requires Ids(nodes) <= depth.Keys && ColumnsAre(nodes, depth, columns)
    requires Placed(columns, pos, Height(maxRows), shift) && pos.Keys == Ids(nodes) && 0 <= shift
    requires forall d :: d in columns ==> d <= maxDepth && |columns[d]| <= maxRows
    ensures forall id :: id in pos ==> pos[id].x == 156 + 260 * depth[id]
    ensures forall a, b :: a in pos && b in pos && a != b ==> Apart(pos[a], pos[b])
    ensures forall id :: id in pos ==> Inside(pos[id], Width(maxDepth), Height(maxRows) + shift)
  {
    hide ColumnsAre, Placed, Height, Width;
    forall id | id in pos
      ensures pos[id].x == 156 + 260 * depth[id] && Inside(pos[id], Width(maxDepth), Height(maxRows) + shift)
    {
      var row := Located(nodes, depth, columns, pos, Height(maxRows), shift, id);
      SpotInside(depth[id], row, |columns[depth[id]]|, maxDepth, maxRows);
    }
    forall a, b | a in pos && b in pos && a != b ensures Apart(pos[a], pos[b]) {
      var i := Located(nodes, depth, columns, pos, Height(maxRows), shift, a);
      var j := Located(nodes, depth, columns, pos, Height(maxRows), shift, b);
      SpotsApart(depth[a], i, |columns[depth[a]]|, depth[b], j, |columns[depth[b]]|, Height(maxRows));
    }
  }
}
