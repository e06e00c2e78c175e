/** The depth-first search for a loop in a workflow's links. */
module WorkflowLoops {
  import opened Wrappers
  import opened WorkflowModel
  import opened Graphs

  datatype Mark = OnPath | Done

  /** Where each node leads ; the last node of an identifier when several have it. */
  type NextMap = map<Id, seq<Id>>

  /** No link leads to the empty identifier : the reader of the file drops such links. */
  predicate Named(next: NextMap) {
    forall id :: id in next ==> "" !in next[id]
  }

  /** The links the search follows : to a node there is. */
  ghost function Followed(next: NextMap): set<(Id, Id)> {
    set a, b | a in next && b in next[a] && b in next :: (a, b)
  }

  /** All a node leads to is among those whose visits ended `before` its own. */
  ghost predicate Ended(next: NextMap, id: Id, before: seq<Id>) {
    id in next && forall to :: to in next[id] && to in next ==> to in before
  }

  ghost predicate EndedInTurn(next: NextMap, finished: seq<Id>) {
    forall i :: 0 <= i < |finished| ==> Ended(next, finished[i], finished[..i])
  }

  /** `path` : the nodes being visited, from the first to the one visited now ; `finished` : those
      visited, in the order their visits ended. */
  ghost predicate Searching(next: NextMap, state: map<Id, Mark>, path: seq<Id>, finished: seq<Id>) {
    && Named(next)
    && state.Keys <= next.Keys
    && (forall id :: id in state ==> id in path || id in finished)
    && (forall id :: id in path ==> id in state && state[id] == OnPath)
    && (forall id :: id in finished ==> id in state && state[id] == Done)
    && Distinct(path)
    && (path != [] ==> Walk(Followed(next), path))
    && EndedInTurn(next, finished)
  }

  lemma Enters(next: NextMap, state: map<Id, Mark>, path: seq<Id>, finished: seq<Id>, id: Id)
    requires Searching(next, state, path, finished) && id in next && id !in state
    requires path != [] ==> path[|path| - 1] in next && id in next[path[|path| - 1]]
    ensures Searching(next, state[id := OnPath], path + [id], finished)
  {
    if path != [] {
      Extended(Followed(next), path, id);
    }
  }

  lemma EndsInTurn(next: NextMap, finished: seq<Id>, id: Id)
    requires EndedInTurn(next, finished) && Ended(next, id, finished)
    ensures EndedInTurn(next, finished + [id])
  {
    var more := finished + [id];
    forall i | 0 <= i < |more| ensures Ended(next, more[i], more[..i]) {
      assert more[..i] == finished[..i];
      assert finished[..|finished|] == finished;
    }
  }

  lemma PathShrinks(g: set<(Id, Id)>, path: seq<Id>, id: Id)
    requires Distinct(path + [id]) && Walk(g, path + [id])
    ensures Distinct(path) && id !in path && (path != [] ==> Walk(g, path))
  {
    var whole := path + [id];
    assert whole[|path|] == id;
    forall i | 0 <= i < |path| ensures whole[i] == path[i] != id {
    }
    if path != [] {
      Slice(g, whole, 0, |path|);
      assert whole[0..|path|] == path;
    }
  }

  lemma Leaves(next: NextMap, state: map<Id, Mark>, path: seq<Id>, finished: seq<Id>, id: Id)
    requires Searching(next, state, path + [id], finished) && Ended(next, id, finished)
    ensures Searching(next, state[id := Done], path, finished + [id])
  {
    PathShrinks(Followed(next), path, id);
    EndsInTurn(next, finished, id);
    hide Distinct, Walk, EndedInTurn, Ended, Followed;
    var whole := path + [id];
    assert forall v :: v in whole <==> v in path || v == id;
  }

  lemma ClosesLoop(next: NextMap, state: map<Id, Mark>, path: seq<Id>, finished: seq<Id>, id: Id)
    requires Searching(next, state, path, finished) && id in state && state[id] == OnPath
    requires path != [] ==> path[|path| - 1] in next && id in next[path[|path| - 1]]
    ensures id != "" && OnLoop(Followed(next), id)
  {
    var i :| 0 <= i < |path| && path[i] == id;
    hide EndedInTurn;
    Slice(Followed(next), path, i, |path|);
    Extended(Followed(next), path[i..], id);
    assert WalkFromTo(Followed(next), path[i..] + [id], id, id);
  }

  class LoopFinder {
    const next: NextMap
    var state: map<Id, Mark>
    ghost var path: seq<Id>
    ghost var finished: seq<Id>

    constructor (next: NextMap)
      requires Named(next)
      ensures this.next == next && Valid() && path == [] && finished == []
    {
      this.next := next;
      state := map[];
      path, finished := [], [];
    }

    ghost predicate Valid()
      reads this
    {
      Searching(next, state, path, finished)
    }

    /** Visits a node and what it leads to, and answers a node found on a loop. */
    method Visit(id: Id) returns (found: Option<Id>)
      requires Valid()
      requires path != [] ==> path[|path| - 1] in next && id in next[path[|path| - 1]]
      modifies this
      ensures Valid()
      ensures found.Some? ==> found.value != "" && OnLoop(Followed(next), found.value)
      ensures found.None? ==> path == old(path) && (id in next ==> id in finished)
      ensures found.None? ==> old(finished) <= finished && old(state.Keys) <= state.Keys
      decreases next.Keys - state.Keys, 0
    {
      if id in state && state[id] == OnPath {
        ClosesLoop(next, state, path, finished, id);
        return Some(id);
      }
      if (id in state && state[id] == Done) || id !in next {
        return None;
      }
      Enters(next, state, path, finished, id);
      hide Searching, OnLoop, Named;
      state := state[id := OnPath];
      path := path + [id];
      found := VisitAll(id, next[id]);
      if found.None? {
        Leaves(next, state, old(path), finished, id);
        state := state[id := Done];
        path := old(path);
        finished := finished + [id];
      }
    }

    /** Visits what the node visited now leads to. */
    method VisitAll(id: Id, links: seq<Id>) returns (found: Option<Id>)
      requires Valid() && path != [] && path[|path| - 1] == id && id in next && next[id] == links
      modifies this
      ensures Valid()
      ensures found.Some? ==> found.value != "" && OnLoop(Followed(next), found.value)
      ensures found.None? ==> path == old(path) && old(finished) <= finished && old(state.Keys) <= state.Keys
      ensures found.None? ==> Ended(next, id, finished)
      decreases next.Keys - state.Keys, 1
    {
      hide Searching, OnLoop, Named;
      for i := 0 to |links|
        invariant Valid() && path == old(path)
        invariant old(finished) <= finished && old(state.Keys) <= state.Keys
        invariant forall j :: 0 <= j < i && links[j] in next ==> links[j] in finished
      {
        found := Visit(links[i]);
        if found.Some? && found.value != "" {
          return;
        }
      }
      return None;
    }

    /** Visits every node of the workflow, until one is found on a loop. */
    method Search(nodes: seq<Node>) returns (found: Option<Id>)
      requires Valid() && path == []
      modifies this
      ensures found.Some? ==> OnLoop(Followed(next), found.value)
      ensures found.None? ==> Valid() && forall n :: n in nodes && n.id in next ==> n.id in finished
    {
      hide Searching, OnLoop;
      for i := 0 to |nodes|
        invariant Valid() && path == []
        invariant forall j :: 0 <= j < i && nodes[j].id in next ==> nodes[j].id in finished
      {
        found := Visit(nodes[i].id);
        if found.Some? && found.value != "" {
          return;
        }
      }
      return None;
    }
  }

  // ─── the whole search ────────────────────────────────────────────────────────

  function NextOf(nodes: seq<Node>): (next: NextMap)
    ensures next.Keys == Ids(nodes)
  {
    if nodes == [] then map[]
    else
      var front, n := nodes[..|nodes| - 1], nodes[|nodes| - 1];
      assert nodes == front + [n];
      NextOf(front)[n.id := n.AllLinks()]
  }

  /** No node's links name the empty identifier. */
  predicate NamedLinks(nodes: seq<Node>) {
    forall n :: n in nodes ==> "" !in n.AllLinks()
  }

  lemma {:induction false} NextOfIsNamed(nodes: seq<Node>)
    requires NamedLinks(nodes)
    ensures Named(NextOf(nodes))
  {
    if nodes != [] {
      NextOfIsNamed(nodes[..|nodes| - 1]);
    }
  }

  /** Where an identifier first stands in a list. */
  ghost function Place(s: seq<Id>, id: Id): (at: nat)
    requires id in s
    ensures at < |s| && s[at] == id
    ensures forall j :: 0 <= j < at ==> s[j] != id
  {
    if s[0] == id then 0 else 1 + Place(s[1..], id)
  }

  lemma {:induction false} LeadsBack(next: NextMap, finished: seq<Id>, a: Id, b: Id)
    requires EndedInTurn(next, finished) && (forall id :: id in next ==> id in finished)
    requires (a, b) in Followed(next)
    ensures a in finished && b in finished && Place(finished, b) < Place(finished, a)
  {
    var i := Place(finished, a);
    assert Ended(next, finished[i], finished[..i]);
    var j :| 0 <= j < i && finished[..i][j] == b;
    assert finished[j] == b;
  }

  lemma {:induction false} WalkLeadsBack(next: NextMap, finished: seq<Id>, p: seq<Id>)
    requires EndedInTurn(next, finished) && (forall id :: id in next ==> id in finished)
    requires Walk(Followed(next), p) && p[0] in next
    ensures p[|p| - 1] in finished && Place(finished, p[|p| - 1]) + |p| - 1 <= Place(finished, p[0])
  {
    hide EndedInTurn;
    if |p| > 1 {
      var front := p[..|p| - 1];
      Slice(Followed(next), p, 0, |p| - 1);
      assert front == p[0..|p| - 1];
      WalkLeadsBack(next, finished, front);
      assert (p[|p| - 2], p[|p| - 1]) in Followed(next);
      LeadsBack(next, finished, p[|p| - 2], p[|p| - 1]);
    }
  }

  /** When every node's visit ended, there is no loop. */
  lemma AllEndedIsAcyclic(next: NextMap, finished: seq<Id>)
    requires EndedInTurn(next, finished) && (forall id :: id in next ==> id in finished)
    ensures Acyclic(Followed(next))
  {
    forall v ensures !OnLoop(Followed(next), v) {
      if OnLoop(Followed(next), v) {
        var p :| |p| > 1 && WalkFromTo(Followed(next), p, v, v);
        assert (p[0], p[1]) in Followed(next);
        WalkLeadsBack(next, finished, p);
        assert false;
      }
    }
  }

  lemma SearchEnds(next: NextMap, state: map<Id, Mark>, path: seq<Id>, finished: seq<Id>)
    requires Searching(next, state, path, finished) && (forall id :: id in next ==> id in finished)
    ensures Acyclic(Followed(next))
  {
    AllEndedIsAcyclic(next, finished);
  }

  /** An identifier on a loop of links, if there is any. */
  method LoopIn(nodes: seq<Node>) returns (loop: Option<Id>)
    requires NamedLinks(nodes)
    ensures loop.Some? ==> OnLoop(Followed(NextOf(nodes)), loop.value)
    ensures loop.None? <==> Acyclic(Followed(NextOf(nodes)))
  {
    NextOfIsNamed(nodes);
    var next := NextOf(nodes);
    hide Searching, OnLoop, Acyclic;
    var finder := new LoopFinder(next);
    loop := finder.Search(nodes);
    if loop.Some? {
      OneLoop(Followed(next), loop.value);
    } else {
      SearchEnds(next, finder.state, finder.path, finder.finished);
    }
  }

  /** With one node per identifier, the search follows exactly the workflow's links. */
  lemma {:induction false} FollowsTheEdges(nodes: seq<Node>)
    requires UniqueIds(nodes)
    ensures Followed(NextOf(nodes)) == Edges(nodes)
  {
    forall n | n in nodes ensures NextOf(nodes)[n.id] == n.AllLinks() {
      NextOfHas(nodes, n);
    }
    forall a, b ensures (a, b) in Followed(NextOf(nodes)) <==> (a, b) in Edges(nodes) {
      if (a, b) in Followed(NextOf(nodes)) {
        var n :| n in nodes && n.id == a;
        assert b in n.AllLinks();
      }
    }
  }

  lemma {:induction false} NextOfHas(nodes: seq<Node>, n: Node)
    requires UniqueIds(nodes) && n in nodes
    ensures NextOf(nodes)[n.id] == n.AllLinks()
  {
    var front, last := nodes[..|nodes| - 1], nodes[|nodes| - 1];
    assert nodes == front + [last];
    if n in front {
      var i :| 0 <= i < |front| && front[i] == n;
      assert nodes[i].id != last.id;
      NextOfHas(front, n);
    }
  }
}
