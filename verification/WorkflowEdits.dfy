/** The edits of a workflow's nodes and links, and what any run of them keeps. */
module WorkflowEdits {
  import opened Wrappers
  import opened WorkflowModel
  import opened Graphs
  import opened Names

  // ─── what each edit makes of the list of nodes ───────────────────────────────

  function Replaced(list: seq<Id>, a: Id, b: Id): seq<Id> {
    seq(|list|, i requires 0 <= i < |list| => if list[i] == a then b else list[i])
  }

  function Without(list: seq<Id>, id: Id): (rest: seq<Id>)
    ensures forall x :: x in rest <==> x in list && x != id
  {
    if list == [] then []
    else
      var last := list[|list| - 1];
      assert list == list[..|list| - 1] + [last];
      Without(list[..|list| - 1], id) + if last == id then [] else [last]
  }

  /** The place of the first node with an identifier. */
  function Find(nodes: seq<Node>, id: Id): (at: Option<nat>)
    ensures at.None? <==> id !in Ids(nodes)
    ensures at.Some? ==> at.value < |nodes| && nodes[at.value].id == id
                         && forall i :: 0 <= i < at.value ==> nodes[i].id != id
  {
    if nodes == [] then None
    else if nodes[0].id == id then Some(0)
    else
      assert nodes == [nodes[0]] + nodes[1..];
      match Find(nodes[1..], id)
      case None => None
      case Some(i) => Some(i + 1)
  }

  function Relinked(n: Node, a: Id, b: Id): Node {
    n.(success := Replaced(n.success, a, b), failure := Replaced(n.failure, a, b), always := Replaced(n.always, a, b))
  }

  function Unlinked(n: Node, id: Id): Node {
    n.(success := Without(n.success, id), failure := Without(n.failure, id), always := Without(n.always, id))
  }

  function LinkedOn(n: Node, to: Id, kind: Kind): Node {
    match kind
    case Success => n.(success := n.success + [to])
    case Failure => n.(failure := n.failure + [to])
    case Always => n.(always := n.always + [to])
  }

  function AllRelinked(nodes: seq<Node>, a: Id, b: Id): seq<Node> {
    seq(|nodes|, i requires 0 <= i < |nodes| => Relinked(nodes[i], a, b))
  }

  function AllUnlinked(nodes: seq<Node>, id: Id): seq<Node> {
    seq(|nodes|, i requires 0 <= i < |nodes| => Unlinked(nodes[i], id))
  }

  /** The first node `a` becomes `b`, and every link to `a` leads to `b`. */
  function Renamed(nodes: seq<Node>, a: Id, b: Id): seq<Node>
    requires a in Ids(nodes)
  {
    var at := Find(nodes, a).value;
    AllRelinked(nodes[at := nodes[at].(id := b)], a, b)
  }

  /** What is left of the nodes when the first `id` is dropped. */
  function Left(nodes: seq<Node>, id: Id): seq<Node> {
    var at := Find(nodes, id);
    if at.Some? then nodes[..at.value] + nodes[at.value + 1..] else nodes
  }

  /** The first node `id` is gone, and every link to `id`. */
  function Removed(nodes: seq<Node>, id: Id): seq<Node> {
    AllUnlinked(Left(nodes, id), id)
  }

  function NewNode(id: Id): Node {
    Node(id, false, [], [], [])
  }

  /** A node more, linked from the first node `from` names when one is given. */
  function Added(nodes: seq<Node>, id: Id, from: Option<Link>): seq<Node>
    requires from.Some? ==> from.value.from in Ids(nodes + [NewNode(id)])
  {
    var more := nodes + [NewNode(id)];
    match from
    case None => more
    case Some(link) =>
      var at := Find(more, link.from).value;
      more[at := LinkedOn(more[at], id, link.kind)]
  }

  /** `from` leads to `to` on `kind`, and on that only. */
  function LinkedTo(nodes: seq<Node>, from: Id, to: Id, kind: Kind): seq<Node>
    requires from in Ids(nodes)
  {
    var at := Find(nodes, from).value;
    nodes[at := LinkedOn(Unlinked(nodes[at], to), to, kind)]
  }

  function UnlinkedFrom(nodes: seq<Node>, from: Id, to: Id): seq<Node>
    requires from in Ids(nodes)
  {
    var at := Find(nodes, from).value;
    nodes[at := Unlinked(nodes[at], to)]
  }

  function IdentifiersOf(nodes: seq<Node>): seq<Id> {
    seq(|nodes|, i requires 0 <= i < |nodes| => nodes[i].id)
  }

  // ─── the edits ───────────────────────────────────────────────────────────────

  function Wanted(identifier: Id): Id {
    if identifier == "" then "node" else identifier
  }

  /** The node as it was, but for its links to another : the others stay, in order. */
  ghost predicate SameBut(n: Node, m: Node, to: Id) {
    m.id == n.id && m.converge == n.converge && forall k: Kind :: Without(m.Links(k), to) == Without(n.Links(k), to)
  }

  /** The place of the first node of an identifier. */
  ghost predicate IsFirst(nodes: seq<Node>, at: int, id: Id) {
    0 <= at < |nodes| && nodes[at].id == id && forall i :: 0 <= i < at ==> nodes[i].id != id
  }

  /** The same node with one more link, the last of its kind. */
  ghost predicate OneMoreLink(n: Node, m: Node, to: Id, kind: Kind) {
    && m.id == n.id && m.converge == n.converge
    && forall k: Kind :: m.Links(k) == if k == kind then n.Links(k) + [to] else n.Links(k)
  }

  /** A node of that identifier at the end, without links ; the first node `link` names has one link more,
      to it, and all else is as it was. */
  ghost predicate OnlyAdds(nodes: seq<Node>, after: seq<Node>, id: Id, link: Option<Link>) {
    var more := nodes + [Node(id, false, [], [], [])];
    match link
    case None => after == more
    case Some(l) =>
      && |after| == |more|
      && exists at :: IsFirst(more, at, l.from) && OneMoreLink(more[at], after[at], id, l.kind)
                      && forall i :: 0 <= i < |more| && i != at ==> after[i] == more[i]
  }

  /** The first node `a` is named `b` and every link to `a` leads to `b`, at its place ; all else is as it was. */
  ghost predicate OnlyRenames(nodes: seq<Node>, after: seq<Node>, a: Id, b: Id) {
    && |after| == |nodes|
    && (forall i :: 0 <= i < |nodes| ==> RenamesLinks(nodes[i], after[i], a, b))
    && (exists at :: IsFirst(nodes, at, a)
                     && forall i :: 0 <= i < |nodes| ==> after[i].id == if i == at then b else nodes[i].id)
  }

  ghost predicate RenamesLinks(n: Node, m: Node, a: Id, b: Id) {
    && m.converge == n.converge
    && forall k: Kind :: |m.Links(k)| == |n.Links(k)|
                         && forall j :: 0 <= j < |n.Links(k)| ==>
                              m.Links(k)[j] == if n.Links(k)[j] == a then b else n.Links(k)[j]
  }

  /** The first node `id` is gone and the others stay, in order ; no link to `id` is left, and every other
      link stays, in order. */
  ghost predicate OnlyRemoves(nodes: seq<Node>, after: seq<Node>, id: Id) {
    && (forall i :: 0 <= i < |after| ==> id !in after[i].AllLinks())
    && if id !in Ids(nodes)
       then |after| == |nodes| && forall i :: 0 <= i < |nodes| ==> SameBut(nodes[i], after[i], id)
       else
         exists at :: IsFirst(nodes, at, id) && |after| == |nodes| - 1
                      && forall i :: 0 <= i < |after| ==> SameBut(nodes[if i < at then i else i + 1], after[i], id)
  }

  /** Adds a node, its identifier made free of the others' ; Err : the node to link it from is none. */
  method EditAddNode(nodes: seq<Node>, wanted: Id, from: Option<Link>) returns (r: Result<seq<Node>, Id>, id: Id)
    ensures IsFreeName(if wanted == "" then "node" else wanted, IdentifiersOf(nodes), id)
    ensures var link := if from.Some? && from.value.from != "" then from else None;
            && (r.Err? <==> link.Some? && link.value.from !in Ids(nodes) && link.value.from != id)
            && (r.Err? ==> r.error == link.value.from)
            && (r.Ok? ==> OnlyAdds(nodes, r.value, id, link))
    ensures var link := if from.Some? && from.value.from != "" then from else None;
            r == if link.Some? && link.value.from !in Ids(nodes + [NewNode(id)]) then Err(link.value.from)
                 else Ok(Added(nodes, id, link))
  {
    id := FreeName(Wanted(wanted), IdentifiersOf(nodes));
    var more := nodes + [NewNode(id)];
    IdsOfMore(nodes, NewNode(id));
    AddedEffect(nodes, id, if from.Some? && from.value.from != "" then from else None);
    hide OnlyAdds;
    if from.Some? && from.value.from != "" {
      var at := Find(more, from.value.from);
      if at.None? {
        return Err(from.value.from), id;
      }
      more := more[at.value := LinkedOn(more[at.value], id, from.value.kind)];
    }
    r := Ok(more);
  }

  /** Renames a node : the links to it follow ; Err : there is no such node. */
  method EditRename(nodes: seq<Node>, id: Id, to: Id) returns (r: Result<seq<Node>, Id>)
    ensures r.Err? <==> id !in Ids(nodes)
    ensures r.Err? ==> r.error == id
    ensures r.Ok? ==> OnlyRenames(nodes, r.value, id, to)
    ensures r == if id in Ids(nodes) then Ok(Renamed(nodes, id, to)) else Err(id)
  {
    var at := Find(nodes, id);
    if at.None? {
      return Err(id);
    }
    RenamedEffect(nodes, id, to);
    hide OnlyRenames, Relinked;
    var doc := nodes[at.value := nodes[at.value].(id := to)];
    ghost var named := doc;
    for i := 0 to |doc|
      invariant |doc| == |named|
      invariant forall j :: 0 <= j < |doc| ==> doc[j] == if j < i then Relinked(named[j], id, to) else named[j]
    {
      doc := doc[i := Relinked(doc[i], id, to)];
    }
    assert doc == AllRelinked(named, id, to);
    r := Ok(doc);
  }

  /** Removes a node and the links to it. */
  method EditRemoveNode(nodes: seq<Node>, id: Id) returns (doc: seq<Node>)
    ensures OnlyRemoves(nodes, doc, id)
    ensures doc == Removed(nodes, id)
  {
    var at := Find(nodes, id);
    doc := if at.Some? then nodes[..at.value] + nodes[at.value + 1..] else nodes;
    ghost var left := doc;
    for i := 0 to |doc|
      invariant |doc| == |left|
      invariant forall j :: 0 <= j < |doc| ==> doc[j] == if j < i then Unlinked(left[j], id) else left[j]
    {
      doc := doc[i := Unlinked(doc[i], id)];
    }
    assert doc == AllUnlinked(left, id);
    RemovedEffect(nodes, id);
  }

  lemma IdsOfMore(nodes: seq<Node>, n: Node)
    ensures Ids(nodes + [n]) == Ids(nodes) + {n.id}
  {
  }

  lemma AddedEffect(nodes: seq<Node>, id: Id, link: Option<Link>)
    ensures (link.Some? ==> link.value.from in Ids(nodes + [NewNode(id)])) ==>
              OnlyAdds(nodes, Added(nodes, id, link), id, link)
  {
    if link.Some? && link.value.from in Ids(nodes + [NewNode(id)]) {
      var more := nodes + [NewNode(id)];
      var at := Find(more, link.value.from).value;
      assert IsFirst(more, at, link.value.from);
      assert OneMoreLink(more[at], LinkedOn(more[at], id, link.value.kind), id, link.value.kind);
    }
  }

  lemma RenamedEffect(nodes: seq<Node>, a: Id, b: Id)
    ensures a in Ids(nodes) ==> OnlyRenames(nodes, Renamed(nodes, a, b), a, b)
  {
    if a in Ids(nodes) {
      var at, after := Find(nodes, a).value, Renamed(nodes, a, b);
      assert IsFirst(nodes, at, a);
      forall i | 0 <= i < |nodes| ensures RenamesLinks(nodes[i], after[i], a, b) {
        forall k: Kind ensures after[i].Links(k) == Replaced(nodes[i].Links(k), a, b) {
        }
      }
    }
  }

  lemma RemovedEffect(nodes: seq<Node>, id: Id)
    ensures OnlyRemoves(nodes, Removed(nodes, id), id)
  {
    hide Unlinked, SameBut;
    var left, after := Left(nodes, id), Removed(nodes, id);
    forall i | 0 <= i < |after| ensures SameBut(left[i], after[i], id) && id !in after[i].AllLinks() {
      NodeUnlinked(left[i], id);
    }
    if id in Ids(nodes) {
      var at := Find(nodes, id).value;
      assert IsFirst(nodes, at, id);
      forall i | 0 <= i < |after| ensures left[i] == nodes[if i < at then i else i + 1] {
      }
    }
  }

  /** One link to the other, on this kind, its newest. */
  ghost predicate OnceOn(n: Node, to: Id, kind: Kind) {
    multiset(n.AllLinks())[to] == 1 && n.Links(kind) != [] && n.Links(kind)[|n.Links(kind)| - 1] == to
  }

  /** The nodes as they were, but for the links from the one to the other. */
  ghost predicate OnlyLinksTo(nodes: seq<Node>, after: seq<Node>, from: Id, to: Id)
    requires from in Ids(nodes)
  {
    var at := Find(nodes, from).value;
    && |after| == |nodes| && (forall i :: 0 <= i < |nodes| && i != at ==> after[i] == nodes[i])
    && SameBut(nodes[at], after[at], to)
  }

  /** A node's list of one kind without the links to another. */
  function UnlinkedOn(n: Node, to: Id, kind: Kind): Node {
    match kind
    case Success => n.(success := Without(n.success, to))
    case Failure => n.(failure := Without(n.failure, to))
    case Always => n.(always := Without(n.always, to))
  }

  /** Every list of a node without the links to another. */
  method DropLinks(n: Node, to: Id) returns (m: Node)
    ensures m.id == n.id && m.converge == n.converge
    ensures forall k: Kind :: m.Links(k) == Without(n.Links(k), to)
    ensures m == Unlinked(n, to)
  {
    hide Without;
    m := n;
    for i := 0 to |LINK_KINDS|
      invariant m.id == n.id && m.converge == n.converge
      invariant forall j :: 0 <= j < |LINK_KINDS| ==>
        m.Links(LINK_KINDS[j]) == if j < i then Without(n.Links(LINK_KINDS[j]), to) else n.Links(LINK_KINDS[j])
    {
      m := UnlinkedOn(m, to, LINK_KINDS[i]);
    }
    assert m.success == m.Links(LINK_KINDS[0]) && m.failure == m.Links(LINK_KINDS[1])
      && m.always == m.Links(LINK_KINDS[2]);
  }

  /** Links a node to another on one kind : its links to it of any kind go, the others stay in order. */
  method EditLink(nodes: seq<Node>, from: Id, to: Id, kind: Kind) returns (r: Result<seq<Node>, Id>)
    ensures r.Err? <==> from !in Ids(nodes)
    ensures r.Err? ==> r.error == from
    ensures r.Ok? ==> OnlyLinksTo(nodes, r.value, from, to) && OnceOn(r.value[Find(nodes, from).value], to, kind)
    ensures r.Ok? ==> r.value == LinkedTo(nodes, from, to, kind)
  {
    var at := Find(nodes, from);
    if at.None? {
      return Err(from);
    }
    hide SameBut, OnceOn, LinkedOn, Unlinked;
    var node := DropLinks(nodes[at.value], to);
    r := Ok(nodes[at.value := LinkedOn(node, to, kind)]);
    LinkedToEffect(nodes, from, to, kind);
  }

  /** Removes the links from a node to another, the others stay in order. */
  method EditUnlink(nodes: seq<Node>, from: Id, to: Id) returns (r: Result<seq<Node>, Id>)
    ensures r.Err? <==> from !in Ids(nodes)
    ensures r.Err? ==> r.error == from
    ensures r.Ok? ==> OnlyLinksTo(nodes, r.value, from, to) && to !in r.value[Find(nodes, from).value].AllLinks()
    ensures r.Ok? ==> r.value == UnlinkedFrom(nodes, from, to)
  {
    var at := Find(nodes, from);
    if at.None? {
      return Err(from);
    }
    hide SameBut, Unlinked;
    var node := DropLinks(nodes[at.value], to);
    r := Ok(nodes[at.value := node]);
    UnlinkedFromEffect(nodes, from, to);
  }

  lemma {:induction false} WithoutAgain(list: seq<Id>, id: Id)
    ensures Without(Without(list, id), id) == Without(list, id)
    ensures Without(Without(list, id) + [id], id) == Without(list, id)
  {
    assert (Without(list, id) + [id])[..|Without(list, id)|] == Without(list, id);
    if list != [] {
      var front, last := list[..|list| - 1], list[|list| - 1];
      WithoutAgain(front, id);
      if last != id { assert (Without(front, id) + [last])[..|Without(front, id)|] == Without(front, id); }
    }
  }

  lemma NodeUnlinked(n: Node, to: Id)
    ensures SameBut(n, Unlinked(n, to), to) && to !in Unlinked(n, to).AllLinks()
  {
    forall k: Kind ensures Without(Unlinked(n, to).Links(k), to) == Without(n.Links(k), to) {
      WithoutAgain(n.Links(k), to);
    }
  }

  lemma LinkCount(n: Node, to: Id)
    ensures multiset(n.AllLinks())[to] == multiset(n.success)[to] + multiset(n.failure)[to] + multiset(n.always)[to]
  {
  }

  lemma OneMoreCount(list: seq<Id>, to: Id)
    ensures multiset(list + [to])[to] == multiset(list)[to] + 1
  {
  }

  lemma NoCount(n: Node, to: Id)
    requires to !in n.AllLinks()
    ensures multiset(n.success)[to] == multiset(n.failure)[to] == multiset(n.always)[to] == 0
  {
  }

  lemma LinkedOnCount(n: Node, to: Id, kind: Kind)
    requires to !in n.AllLinks()
    ensures OnceOn(LinkedOn(n, to, kind), to, kind)
  {
    NoCount(n, to);
    LinkCount(LinkedOn(n, to, kind), to);
    match kind
    case Success => OneMoreCount(n.success, to);
    case Failure => OneMoreCount(n.failure, to);
    case Always => OneMoreCount(n.always, to);
  }

  lemma NodeLinked(n: Node, to: Id, kind: Kind)
    ensures SameBut(n, LinkedOn(Unlinked(n, to), to, kind), to)
  {
    hide Without;
    ListLinked(n.success, to);
    ListLinked(n.failure, to);
    ListLinked(n.always, to);
  }

  lemma {:induction false} ListLinked(list: seq<Id>, to: Id)
    ensures Without(Without(list, to), to) == Without(list, to)
    ensures Without(Without(list, to) + [to], to) == Without(list, to)
  {
    WithoutAgain(list, to);
  }

  lemma {:induction false} LinkedToEffect(nodes: seq<Node>, from: Id, to: Id, kind: Kind)
    requires from in Ids(nodes)
    ensures OnlyLinksTo(nodes, LinkedTo(nodes, from, to, kind), from, to)
    ensures OnceOn(LinkedTo(nodes, from, to, kind)[Find(nodes, from).value], to, kind)
  {
    hide LinkedOn, Unlinked, SameBut, OnceOn, Ids, Find;
    var n := nodes[Find(nodes, from).value];
    NodeUnlinked(n, to);
    LinkedOnCount(Unlinked(n, to), to, kind);
    NodeLinked(n, to, kind);
  }

  lemma {:induction false} UnlinkedFromEffect(nodes: seq<Node>, from: Id, to: Id)
    requires from in Ids(nodes)
    ensures OnlyLinksTo(nodes, UnlinkedFrom(nodes, from, to), from, to)
    ensures to !in UnlinkedFrom(nodes, from, to)[Find(nodes, from).value].AllLinks()
  {
    hide Unlinked, SameBut, Ids, Find;
    NodeUnlinked(nodes[Find(nodes, from).value], to);
  }

  // ─── what the edits keep ─────────────────────────────────────────────────────

  /** Identifiers unique, no link to a node there is not, one kind of link at most from one node to
      another. */
  ghost predicate Consistent(nodes: seq<Node>) {
    && UniqueIds(nodes)
    && forall i {:trigger nodes[i]} :: 0 <= i < |nodes| ==> WellLinked(nodes[i], Ids(nodes))
  }

  ghost predicate WellLinked(n: Node, ids: set<Id>) {
    Distinct(n.AllLinks()) && forall to :: to in n.AllLinks() ==> to in ids
  }

  lemma IdAt(nodes: seq<Node>, id: Id) returns (i: nat)
    requires id in Ids(nodes)
    ensures i < |nodes| && nodes[i].id == id
  {
    var n :| n in nodes && n.id == id;
    i :| 0 <= i < |nodes| && nodes[i] == n;
  }

  lemma SameIds(nodes: seq<Node>, nodes': seq<Node>)
    requires |nodes| == |nodes'| && forall i :: 0 <= i < |nodes| ==> nodes[i].id == nodes'[i].id
    ensures Ids(nodes) == Ids(nodes')
    ensures UniqueIds(nodes) <==> UniqueIds(nodes')
  {
    forall id ensures id in Ids(nodes) <==> id in Ids(nodes') {
      if id in Ids(nodes) {
        var i := IdAt(nodes, id);
        assert nodes'[i] in nodes';
      }
      if id in Ids(nodes') {
        var i := IdAt(nodes', id);
        assert nodes[i] in nodes;
      }
    }
    forall i, j | 0 <= i < j < |nodes| ensures nodes[i].id != nodes[j].id <==> nodes'[i].id != nodes'[j].id {
    }
  }

  // ─── links of one node ───────────────────────────────────────────────────────

  lemma {:induction false} WithoutKeepsDistinct(list: seq<Id>, id: Id)
    requires Distinct(list)
    ensures Distinct(Without(list, id))
  {
    if list != [] {
      var front, last := list[..|list| - 1], list[|list| - 1];
      WithoutKeepsDistinct(front, id);
      assert forall i :: 0 <= i < |front| ==> front[i] == list[i] != last;
      assert last !in Without(front, id);
      var whole := Without(front, id) + [last];
      assert Distinct(whole);
    }
  }

  lemma {:induction false} WithoutNone(list: seq<Id>, id: Id)
    requires id !in list
    ensures Without(list, id) == list
  {
    if list != [] {
      WithoutNone(list[..|list| - 1], id);
    }
  }

  lemma {:induction false} WithoutJoins(xs: seq<Id>, ys: seq<Id>, id: Id)
    ensures Without(xs + ys, id) == Without(xs, id) + Without(ys, id)
  {
    if ys == [] {
      assert xs + ys == xs;
    } else {
      var front := ys[..|ys| - 1];
      assert (xs + ys)[..|xs + ys| - 1] == xs + front;
      WithoutJoins(xs, front, id);
    }
  }

  lemma {:induction false} UnlinkedLinks(n: Node, id: Id)
    ensures Unlinked(n, id).AllLinks() == Without(n.AllLinks(), id)
  {
    WithoutJoins(n.success, n.failure, id);
    WithoutJoins(n.success + n.failure, n.always, id);
  }

  lemma RelinkedLinks(n: Node, a: Id, b: Id)
    ensures Relinked(n, a, b).AllLinks() == Replaced(n.AllLinks(), a, b)
  {
  }

  lemma LinkedOnLinks(n: Node, to: Id, kind: Kind)
    requires Distinct(n.AllLinks()) && to !in n.AllLinks()
    ensures Distinct(LinkedOn(n, to, kind).AllLinks())
    ensures forall x :: x in LinkedOn(n, to, kind).AllLinks() <==> x == to || x in n.AllLinks()
  {
    var m := LinkedOn(n, to, kind);
    var k :=
      match kind
      case Success => |n.success|
      case Failure => |n.success + n.failure|
      case Always => |n.AllLinks()|;
    assert m.AllLinks() == n.AllLinks()[..k] + [to] + n.AllLinks()[k..];
    InsertedIsDistinct(n.AllLinks(), k, to);
  }

  lemma InsertedIsDistinct(list: seq<Id>, k: nat, x: Id)
    requires k <= |list| && Distinct(list) && x !in list
    ensures Distinct(list[..k] + [x] + list[k..])
    ensures forall y :: y in list[..k] + [x] + list[k..] <==> y == x || y in list
  {
    var more := list[..k] + [x] + list[k..];
    assert forall i :: 0 <= i < |more| ==> more[i] == if i < k then list[i] else if i == k then x else list[i - 1];
    forall y | y in list ensures y in more {
      var i :| 0 <= i < |list| && list[i] == y;
      assert more[if i < k then i else i + 1] == y;
    }
  }

  lemma ReplacedIsDistinct(list: seq<Id>, a: Id, b: Id)
    requires Distinct(list) && (b !in list || a == b)
    ensures Distinct(Replaced(list, a, b))
    ensures forall x :: x in Replaced(list, a, b) ==> x == b || (x in list && x != a)
  {
  }

  lemma UnlinkedIsWell(n: Node, id: Id, ids: set<Id>)
    requires WellLinked(n, ids)
    ensures WellLinked(Unlinked(n, id), ids) && id !in Unlinked(n, id).AllLinks()
  {
    UnlinkedLinks(n, id);
    WithoutKeepsDistinct(n.AllLinks(), id);
  }

  // ─── edit by edit : kept exactly when allowed ────────────────────────────────

  lemma RenameKeeps(nodes: seq<Node>, a: Id, b: Id)
    requires Consistent(nodes) && a in Ids(nodes)
    ensures Consistent(Renamed(nodes, a, b)) <==> (b == a || b !in Ids(nodes))
  {
    hide Renamed, WellLinked;
    if b != a && b in Ids(nodes) {
      RenameClashes(nodes, a, b);
    } else {
      RenamedIds(nodes, a, b);
      forall i | 0 <= i < |nodes|
        ensures i < |Renamed(nodes, a, b)| && WellLinked(Renamed(nodes, a, b)[i], Ids(Renamed(nodes, a, b)))
      {
        RenamedIsWellLinked(nodes, a, b, i);
      }
      RenamedIsAsLong(nodes, a, b);
    }
  }

  lemma RenamedIsAsLong(nodes: seq<Node>, a: Id, b: Id)
    requires a in Ids(nodes)
    ensures |Renamed(nodes, a, b)| == |nodes|
  {
  }

  lemma RenameClashes(nodes: seq<Node>, a: Id, b: Id)
    requires a in Ids(nodes) && b in Ids(nodes) && b != a
    ensures !UniqueIds(Renamed(nodes, a, b))
  {
    hide Replaced;
    var at, after := Find(nodes, a).value, Renamed(nodes, a, b);
    assert forall i :: 0 <= i < |nodes| ==> after[i].id == if i == at then b else nodes[i].id;
    var i := IdAt(nodes, b);
    assert after[i].id == after[at].id;
  }

  lemma RenamedIsWellLinked(nodes: seq<Node>, a: Id, b: Id, i: nat)
    requires Consistent(nodes) && a in Ids(nodes) && (b == a || b !in Ids(nodes)) && i < |nodes|
    requires Ids(Renamed(nodes, a, b)) == Ids(nodes) - {a} + {b}
    ensures i < |Renamed(nodes, a, b)| && WellLinked(Renamed(nodes, a, b)[i], Ids(Renamed(nodes, a, b)))
  {
    hide Ids, UniqueIds, Replaced, Distinct;
    var after := Renamed(nodes, a, b);
    RelinkedLinks(nodes[i].(id := after[i].id), a, b);
    assert after[i].AllLinks() == Replaced(nodes[i].AllLinks(), a, b);
    assert WellLinked(nodes[i], Ids(nodes));
    ReplacedIsDistinct(nodes[i].AllLinks(), a, b);
  }

  lemma RenamedIds(nodes: seq<Node>, a: Id, b: Id)
    requires UniqueIds(nodes) && a in Ids(nodes) && (b == a || b !in Ids(nodes))
    ensures UniqueIds(Renamed(nodes, a, b))
    ensures Ids(Renamed(nodes, a, b)) == Ids(nodes) - {a} + {b}
  {
    hide Ids;
    var at := Find(nodes, a).value;
    var after := Renamed(nodes, a, b);
    assert forall i :: 0 <= i < |nodes| ==> after[i].id == if i == at then b else nodes[i].id;
    forall i | 0 <= i < |nodes| ensures nodes[i].id in Ids(nodes) && after[i].id in Ids(after) {
      IdIn(nodes, i);
      IdIn(after, i);
    }
    forall id ensures id in Ids(after) <==> id in Ids(nodes) - {a} + {b} {
      if id in Ids(after) {
        var i := IdAt(after, id);
      }
      if id in Ids(nodes) && id != a {
        var i := IdAt(nodes, id);
        assert after[i].id == id;
      }
      if id == b {
        assert after[at].id == b;
      }
    }
  }

  lemma IdIn(nodes: seq<Node>, i: nat)
    requires i < |nodes|
    ensures nodes[i].id in Ids(nodes)
  {
    assert nodes[i] in nodes;
  }

  lemma UnlinkAllKeeps(nodes: seq<Node>, id: Id)
    requires UniqueIds(nodes) && id !in Ids(nodes)
    requires forall i {:trigger nodes[i]} :: 0 <= i < |nodes| ==> WellLinked(nodes[i], Ids(nodes) + {id})
    ensures Consistent(AllUnlinked(nodes, id))
  {
    var after := AllUnlinked(nodes, id);
    SameIds(nodes, after);
    forall i | 0 <= i < |after| ensures WellLinked(after[i], Ids(after)) {
      assert WellLinked(nodes[i], Ids(nodes) + {id});
      UnlinkedIsWell(nodes[i], id, Ids(nodes) + {id});
    }
  }

  lemma LeftIs(nodes: seq<Node>, id: Id)
    requires UniqueIds(nodes)
    ensures UniqueIds(Left(nodes, id)) && Ids(Left(nodes, id)) == Ids(nodes) - {id}
    ensures forall i :: 0 <= i < |Left(nodes, id)| ==> Left(nodes, id)[i] in nodes
  {
    hide Ids;
    var at := Find(nodes, id);
    var left := Left(nodes, id);
    forall i | 0 <= i < |left|
      ensures left[i] == nodes[if at.None? || i < at.value then i else i + 1] && left[i].id in Ids(nodes)
      ensures left[i].id != id
    {
      IdIn(nodes, if at.None? || i < at.value then i else i + 1);
    }
    forall x ensures x in Ids(left) <==> x in Ids(nodes) - {id} {
      if x in Ids(left) {
        var i := IdAt(left, x);
      }
      if x in Ids(nodes) && x != id {
        var i := IdAt(nodes, x);
        IdIn(left, if at.None? || i < at.value then i else i - 1);
      }
    }
  }

  lemma RemoveKeeps(nodes: seq<Node>, id: Id)
    requires Consistent(nodes)
    ensures Consistent(Removed(nodes, id)) && Ids(Removed(nodes, id)) == Ids(nodes) - {id}
  {
    var left := Left(nodes, id);
    LeftIs(nodes, id);
    forall i | 0 <= i < |left| ensures WellLinked(left[i], Ids(left) + {id}) {
      var j :| 0 <= j < |nodes| && nodes[j] == left[i];
      assert WellLinked(nodes[j], Ids(nodes));
    }
    UnlinkAllKeeps(left, id);
    SameIds(left, AllUnlinked(left, id));
  }

  lemma LinkKeeps(nodes: seq<Node>, from: Id, to: Id, kind: Kind)
    requires Consistent(nodes) && from in Ids(nodes)
    ensures Consistent(LinkedTo(nodes, from, to, kind)) <==> to in Ids(nodes)
  {
    var at := Find(nodes, from).value;
    var after := LinkedTo(nodes, from, to, kind);
    SameIds(nodes, after);
    var n := Unlinked(nodes[at], to);
    assert WellLinked(nodes[at], Ids(nodes));
    UnlinkedIsWell(nodes[at], to, Ids(nodes));
    LinkedOnLinks(n, to, kind);
    assert to in after[at].AllLinks();
    if to in Ids(nodes) {
      forall i | 0 <= i < |after| ensures WellLinked(after[i], Ids(after)) {
        assert WellLinked(nodes[i], Ids(nodes));
      }
    }
  }

  lemma {:induction false} UnlinkKeeps(nodes: seq<Node>, from: Id, to: Id)
    requires Consistent(nodes) && from in Ids(nodes)
    ensures Consistent(UnlinkedFrom(nodes, from, to))
    ensures OnlyLinksTo(nodes, UnlinkedFrom(nodes, from, to), from, to)
    ensures to !in UnlinkedFrom(nodes, from, to)[Find(nodes, from).value].AllLinks()
  {
    UnlinkedFromEffect(nodes, from, to);
    var at := Find(nodes, from).value;
    var after := UnlinkedFrom(nodes, from, to);
    SameIds(nodes, after);
    forall i | 0 <= i < |after| ensures WellLinked(after[i], Ids(after)) {
      assert WellLinked(nodes[i], Ids(nodes));
      UnlinkedIsWell(nodes[at], to, Ids(nodes));
    }
  }

  lemma AddKeeps(nodes: seq<Node>, id: Id, from: Option<Link>)
    requires Consistent(nodes) && id !in Ids(nodes)
    requires from.Some? ==> from.value.from in Ids(nodes + [NewNode(id)])
    ensures Consistent(Added(nodes, id, from)) && Ids(Added(nodes, id, from)) == Ids(nodes) + {id}
  {
    var more := nodes + [NewNode(id)];
    var after := Added(nodes, id, from);
    SameIds(more, after);
    assert Ids(more) == Ids(nodes) + {id};
    forall i | 0 <= i < |nodes| ensures nodes[i].id != id {
      assert nodes[i] in nodes;
    }
    forall i | 0 <= i < |after| ensures WellLinked(after[i], Ids(after)) {
      if i < |nodes| {
        assert WellLinked(nodes[i], Ids(nodes));
      }
      assert WellLinked(more[i], Ids(more)) && id !in more[i].AllLinks();
      if from.Some? {
        LinkedOnLinks(more[i], id, from.value.kind);
      }
    }
  }
}
