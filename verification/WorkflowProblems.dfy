/** What is wrong in a workflow's identifiers and links, and what a workflow without a problem is. */
module WorkflowProblems {
  import opened WorkflowModel
  import opened Graphs
  import opened WorkflowLoops
  import DryRun
  import DryRunLaws

  datatype Problem =
    | NoIdentifier
    | BadIdentifier(id: Id)
    | Duplicate(id: Id)
    | UnknownLink(from: Id, to: Id)
    | Loop(id: Id)

  /** A letter, a digit, or one of _ . : - */
  predicate IdentifierChar(c: char) {
    'A' <= c <= 'Z' || 'a' <= c <= 'z' || '0' <= c <= '9' || c == '_' || c == '.' || c == ':' || c == '-'
  }

  predicate GoodIdentifier(id: Id) {
    id != "" && forall i :: 0 <= i < |id| ==> IdentifierChar(id[i])
  }

  /** An identifier is good when it is some letters, digits, underscores, dots, colons and dashes. */
  lemma GoodIdentifierIs(id: Id)
    ensures GoodIdentifier(id) <==>
            |id| > 0
            && forall c :: c in id ==>
                 || c in "ABCDEFGHIJKLMNOPQRSTUVWXYZ" || c in "abcdefghijklmnopqrstuvwxyz"
                 || c in "0123456789" || c in "_.:-"
  {
    forall c: char
      ensures 'A' <= c <= 'Z' <==> c in "ABCDEFGHIJKLMNOPQRSTUVWXYZ"
      ensures 'a' <= c <= 'z' <==> c in "abcdefghijklmnopqrstuvwxyz"
    {
      Letters(c);
    }
    assert forall i :: 0 <= i < |id| ==> id[i] in id;
  }

  lemma Letters(c: char)
    ensures 'A' <= c <= 'Z' <==> c in "ABCDEFGHIJKLMNOPQRSTUVWXYZ"
    ensures 'a' <= c <= 'z' <==> c in "abcdefghijklmnopqrstuvwxyz"
  {
  }

  /** What AWX asks of a workflow : good identifiers, each once, links to nodes there are, no loop. */
  ghost predicate Sound(nodes: seq<Node>) {
    && (forall n :: n in nodes ==> GoodIdentifier(n.id))
    && UniqueIds(nodes)
    && NoDanglingLink(nodes)
    && Acyclic(Edges(nodes))
  }

  ghost predicate NoDanglingLink(nodes: seq<Node>) {
    forall n, to :: n in nodes && to in n.AllLinks() ==> to in Ids(nodes)
  }

  /** The node at `i` has a good identifier, which a node before it has as well. */
  ghost predicate DuplicateAt(nodes: seq<Node>, i: int) {
    0 <= i < |nodes| && GoodIdentifier(nodes[i].id) && nodes[i].id in Ids(nodes[..i])
  }

  /** What is wrong with the identifiers of the first `k` nodes. */
  ghost predicate HasProblem(nodes: seq<Node>, k: nat, p: Problem)
    requires k <= |nodes|
  {
    match p
    case NoIdentifier => "" in Ids(nodes[..k])
    case BadIdentifier(id) => id in Ids(nodes[..k]) && id != "" && !GoodIdentifier(id)
    case Duplicate(id) => exists i :: i < k && DuplicateAt(nodes, i) && nodes[i].id == id
    case UnknownLink(_, _) => false
    case Loop(_) => false
  }

  /** What the nodes' identifiers have wrong. */
  method IdentifierProblems(nodes: seq<Node>) returns (problems: seq<Problem>, ids: set<Id>)
    ensures ids == Ids(nodes)
    ensures forall p :: p in problems <==> HasProblem(nodes, |nodes|, p)
  {
    problems, ids := [], {};
    for i := 0 to |nodes|
      invariant ids == Ids(nodes[..i])
      invariant forall p :: p in problems <==> HasProblem(nodes, i, p)
    {
      var n := nodes[i];
      if n.id == "" {
        problems := problems + [NoIdentifier];
      } else if !GoodIdentifier(n.id) {
        problems := problems + [BadIdentifier(n.id)];
      } else if n.id in ids {
        assert DuplicateAt(nodes, i);
        problems := problems + [Duplicate(n.id)];
      }
      assert nodes[..i + 1] == nodes[..i] + [n];
      ids := ids + {n.id};
    }
    assert nodes[..|nodes|] == nodes;
  }

  /** The links to a node there is not. */
  method LinkProblems(nodes: seq<Node>, ids: set<Id>) returns (problems: seq<Problem>)
    ensures forall p :: p in problems <==>
              p.UnknownLink? && p.to !in ids && exists n :: n in nodes && n.id == p.from && p.to in n.AllLinks()
  {
    problems := [];
    for i := 0 to |nodes|
      invariant forall p :: p in problems <==>
              p.UnknownLink? && p.to !in ids && exists n :: n in nodes[..i] && n.id == p.from && p.to in n.AllLinks()
    {
      var n := nodes[i];
      var links := n.AllLinks();
      ghost var before := problems;
      for j := 0 to |links|
        invariant forall p :: p in problems <==>
              p in before || (p.UnknownLink? && p.to !in ids && p.from == n.id && p.to in links[..j])
      {
        if links[j] !in ids {
          problems := problems + [UnknownLink(n.id, links[j])];
        }
        assert links[..j + 1] == links[..j] + [links[j]];
      }
      assert links[..|links|] == links;
      assert nodes[..i + 1] == nodes[..i] + [n];
    }
    assert nodes[..|nodes|] == nodes;
  }

  /** What is wrong in a workflow's identifiers and links : nothing exactly when it is sound. */
  method ProblemsOf(nodes: seq<Node>) returns (problems: seq<Problem>)
    requires NamedLinks(nodes)
    ensures problems == [] <==> Sound(nodes)
    ensures forall id :: Loop(id) in problems ==> OnLoop(Followed(NextOf(nodes)), id)
  {
    var byIds, ids := IdentifierProblems(nodes);
    var byLinks := LinkProblems(nodes, ids);
    var loop := LoopIn(nodes);
    problems := byIds + byLinks + if loop.Some? then [Loop(loop.value)] else [];
    NoIdentifierProblem(nodes, byIds);
    NoLinkProblem(nodes, byLinks);
    if UniqueIds(nodes) {
      FollowsTheEdges(nodes);
    }
  }

  lemma NoIdentifierProblem(nodes: seq<Node>, problems: seq<Problem>)
    requires forall p :: p in problems <==> HasProblem(nodes, |nodes|, p)
    ensures problems == [] <==> (forall n :: n in nodes ==> GoodIdentifier(n.id)) && UniqueIds(nodes)
  {
    assert nodes[..|nodes|] == nodes;
    if problems != [] {
      var p := problems[0];
      assert p in problems;
      if p.Duplicate? {
        var i :| i < |nodes| && DuplicateAt(nodes, i) && nodes[i].id == p.id;
        var m :| m in nodes[..i] && m.id == nodes[i].id;
        var j :| 0 <= j < i && nodes[..i][j] == m;
        assert nodes[j].id == nodes[i].id;
      }
    } else {
      forall n | n in nodes ensures GoodIdentifier(n.id) {
        assert NoIdentifier !in problems && BadIdentifier(n.id) !in problems;
      }
      forall i, j | 0 <= i < j < |nodes| ensures nodes[i].id != nodes[j].id {
        assert nodes[..j][i] == nodes[i] && nodes[i] in nodes[..j];
        assert Duplicate(nodes[j].id) !in problems;
        assert !DuplicateAt(nodes, j);
      }
    }
  }

  lemma NoLinkProblem(nodes: seq<Node>, problems: seq<Problem>)
    requires forall p :: p in problems <==>
              p.UnknownLink? && p.to !in Ids(nodes) && exists n :: n in nodes && n.id == p.from && p.to in n.AllLinks()
    ensures problems == [] <==> NoDanglingLink(nodes)
  {
    if problems != [] {
      assert problems[0] in problems;
    } else {
      forall n, to | n in nodes && to in n.AllLinks() ensures to in Ids(nodes) {
        assert UnknownLink(n.id, to) !in problems;
      }
    }
  }

  /** A workflow without a problem runs to its end : whatever fails, no node is left pending. */
  lemma SoundRunsToItsEnd(nodes: seq<Node>, failing: set<Id>)
    requires Sound(nodes)
    ensures forall id :: id in Ids(nodes) ==> DryRun.ResultOf(nodes, failing).status[id] != DryRun.Was(DryRun.Pending)
  {
    forall id | id in Ids(nodes) ensures DryRun.ResultOf(nodes, failing).status[id] != DryRun.Was(DryRun.Pending) {
      DryRunLaws.AcyclicLeavesNonePending(nodes, failing, id);
    }
  }
}
