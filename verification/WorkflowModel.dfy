/** A workflow as the editor reads it : nodes with an identifier, whether all parents must converge,
    and the identifiers each leads to on success, on failure, or either way. */
module WorkflowModel {

  type Id = string

  datatype Kind = Success | Failure | Always

  datatype Node = Node(id: Id, converge: bool, success: seq<Id>, failure: seq<Id>, always: seq<Id>) {
    function Links(kind: Kind): seq<Id> {
      match kind
      case Success => success
      case Failure => failure
      case Always => always
    }

    function AllLinks(): seq<Id> {
      success + failure + always
    }
  }

  /** LINK_KINDS, in the order the loops over it go. */
  const LINK_KINDS: seq<Kind> := [Success, Failure, Always]

  function Ids(nodes: seq<Node>): set<Id> {
    set n | n in nodes :: n.id
  }

  lemma {:induction false} IdsSize(nodes: seq<Node>)
    ensures |Ids(nodes)| <= |nodes|
  {
    if nodes != [] {
      var front, n := nodes[..|nodes| - 1], nodes[|nodes| - 1];
      IdsSize(front);
      assert nodes == front + [n];
      assert Ids(nodes) == Ids(front) + {n.id};
    }
  }

  ghost predicate UniqueIds(nodes: seq<Node>) {
    forall i, j :: 0 <= i < j < |nodes| ==> nodes[i].id != nodes[j].id
  }

  /** A link seen from the node it leads to : the node it comes from, and what makes it run. */
  datatype Link = Link(from: Id, kind: Kind)

  /** One link, as often as the list names `to`. */
  function Repeated(link: Link, targets: seq<Id>, to: Id): seq<Link> {
    if targets == [] then []
    else Repeated(link, targets[..|targets| - 1], to) + if targets[|targets| - 1] == to then [link] else []
  }

  function LinksFrom(n: Node, to: Id): seq<Link> {
    Repeated(Link(n.id, Success), n.success, to)
    + Repeated(Link(n.id, Failure), n.failure, to)
    + Repeated(Link(n.id, Always), n.always, to)
  }

  /** The links into a node, in the order the file lists them. */
  function LinksInto(nodes: seq<Node>, to: Id): seq<Link> {
    if nodes == [] then []
    else LinksInto(nodes[..|nodes| - 1], to) + LinksFrom(nodes[|nodes| - 1], to)
  }

  lemma {:induction false} RepeatedIff(link: Link, targets: seq<Id>, to: Id, l: Link)
    ensures l in Repeated(link, targets, to) <==> l == link && to in targets
  {
    if targets != [] {
      var front, last := targets[..|targets| - 1], targets[|targets| - 1];
      assert targets == front + [last];
      RepeatedIff(link, front, to, l);
    }
  }

  lemma LinksFromIff(n: Node, to: Id, l: Link)
    ensures l in LinksFrom(n, to) <==> l.from == n.id && to in n.Links(l.kind)
  {
    RepeatedIff(Link(n.id, Success), n.success, to, l);
    RepeatedIff(Link(n.id, Failure), n.failure, to, l);
    RepeatedIff(Link(n.id, Always), n.always, to, l);
  }

  lemma {:induction false} LinksIntoIff(nodes: seq<Node>, to: Id, l: Link)
    ensures l in LinksInto(nodes, to) <==> exists n :: n in nodes && n.id == l.from && to in n.Links(l.kind)
  {
    if nodes != [] {
      var front, n := nodes[..|nodes| - 1], nodes[|nodes| - 1];
      assert nodes == front + [n];
      LinksIntoIff(front, to, l);
      LinksFromIff(n, to, l);
    }
  }

  /** The links between nodes the workflow has, whatever their kind. */
  ghost function Edges(nodes: seq<Node>): set<(Id, Id)> {
    set n, to | n in nodes && to in n.AllLinks() && to in Ids(nodes) :: (n.id, to)
  }

  lemma {:induction false} LinkIsEdge(nodes: seq<Node>, link: Link, to: Id)
    requires link in LinksInto(nodes, to) && to in Ids(nodes)
    ensures link.from in Ids(nodes) && (link.from, to) in Edges(nodes)
  {
    LinksIntoIff(nodes, to, link);
    var n :| n in nodes && n.id == link.from && to in n.Links(link.kind);
    assert to in n.AllLinks();
  }
}
