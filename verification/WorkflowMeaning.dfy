/** Edits and runs : a rename changes nothing but the name, a node more changes nothing for the
    others. */
module WorkflowMeaning {
  import opened Wrappers
  import opened WorkflowModel
  import opened Graphs
  import opened DryRun
  import opened DryRunLaws
  import opened DryRunOrder
  import opened Names
  import opened WorkflowEdits
  import opened WorkflowReading

  // ─── renaming a node ─────────────────────────────────────────────────────────

  function Name(a: Id, b: Id, id: Id): Id {
    if id == a then b else id
  }

  /** The new name is no node's, and no link names it. */
  ghost predicate Fresh(nodes: seq<Node>, b: Id) {
    forall i {:trigger nodes[i]} :: 0 <= i < |nodes| ==> nodes[i].id != b && b !in nodes[i].AllLinks()
  }

  lemma RenamedAt(nodes: seq<Node>, a: Id, b: Id, i: nat)
    requires UniqueIds(nodes) && a in Ids(nodes) && i < |nodes|
    ensures Renamed(nodes, a, b)[i] == Relinked(nodes[i].(id := Name(a, b, nodes[i].id)), a, b)
  {
    var at := Find(nodes, a).value;
    if i != at {
      assert nodes[i].id != nodes[at].id;
    }
  }

  function NamedLink(l: Link, a: Id, b: Id): Link {
    Link(Name(a, b, l.from), l.kind)
  }

  function NamedLinks(links: seq<Link>, a: Id, b: Id): seq<Link> {
    seq(|links|, i requires 0 <= i < |links| => NamedLink(links[i], a, b))
  }

  lemma {:induction false} RepeatedRenamed(l: Link, targets: seq<Id>, a: Id, b: Id, to: Id)
    requires b !in targets && to != b
    ensures Repeated(NamedLink(l, a, b), Replaced(targets, a, b), Name(a, b, to)) ==
      NamedLinks(Repeated(l, targets, to), a, b)
  {
    if targets != [] {
      var front, last := targets[..|targets| - 1], targets[|targets| - 1];
      assert targets == front + [last];
      RepeatedRenamed(l, front, a, b, to);
      assert Replaced(targets, a, b)[..|targets| - 1] == Replaced(front, a, b);
    }
  }

  lemma NamedJoins(xs: seq<Link>, ys: seq<Link>, a: Id, b: Id)
    ensures NamedLinks(xs + ys, a, b) == NamedLinks(xs, a, b) + NamedLinks(ys, a, b)
  {
  }

  lemma LinksFromRenamed(n: Node, a: Id, b: Id, to: Id)
    requires b !in n.AllLinks() && to != b
    ensures LinksFrom(Relinked(n.(id := Name(a, b, n.id)), a, b), Name(a, b, to)) == NamedLinks(LinksFrom(n, to), a, b)
  {
    hide Repeated, Replaced, NamedLinks;
    RepeatedRenamed(Link(n.id, Success), n.success, a, b, to);
    RepeatedRenamed(Link(n.id, Failure), n.failure, a, b, to);
    RepeatedRenamed(Link(n.id, Always), n.always, a, b, to);
    var xs := Repeated(Link(n.id, Success), n.success, to);
    var ys := Repeated(Link(n.id, Failure), n.failure, to);
    var zs := Repeated(Link(n.id, Always), n.always, to);
    NamedJoins(xs, ys, a, b);
    NamedJoins(xs + ys, zs, a, b);
  }

  /** Two lists of nodes alike up to the renaming. */
  ghost predicate Alike(nodes: seq<Node>, nodes': seq<Node>, a: Id, b: Id) {
    |nodes| == |nodes'|
    && forall i {:trigger nodes[i]} {:trigger nodes'[i]} :: 0 <= i < |nodes| ==>
         nodes[i].id != b && b !in nodes[i].AllLinks()
         && nodes'[i] == Relinked(nodes[i].(id := Name(a, b, nodes[i].id)), a, b)
  }

  lemma {:induction false} LinksIntoRenamed(nodes: seq<Node>, nodes': seq<Node>, a: Id, b: Id, to: Id)
    requires Alike(nodes, nodes', a, b) && to != b
    ensures LinksInto(nodes', Name(a, b, to)) == NamedLinks(LinksInto(nodes, to), a, b)
  {
    if nodes == [] {
    } else {
      var front, front' := nodes[..|nodes| - 1], nodes'[..|nodes'| - 1];
      LinksIntoRenamed(front, front', a, b, to);
      LinksFromRenamed(nodes[|nodes| - 1], a, b, to);
      NamedJoins(LinksInto(front, to), LinksFrom(nodes[|nodes| - 1], to), a, b);
      hide NamedLinks, LinksFrom, Relinked;
    }
  }

  /** The states of the two runs alike up to the renaming. */
  ghost predicate AlikeStates(ids: set<Id>, s: State, s': State, a: Id, b: Id) {
    b !in ids && s.Keys == ids && s'.Keys == (set id | id in ids :: Name(a, b, id))
    && forall id :: id in ids ==> Name(a, b, id) in s' && s'[Name(a, b, id)] == s[id]
  }

  lemma OutcomesRenamed(links: seq<Link>, ids: set<Id>, s: State, s': State, a: Id, b: Id)
    requires AlikeStates(ids, s, s', a, b)
    requires forall l :: l in links ==> l.from in ids
    ensures forall l :: l in NamedLinks(links, a, b) ==> l.from in s'
    ensures Outcomes(NamedLinks(links, a, b), s') == Outcomes(links, s)
  {
    var links' := NamedLinks(links, a, b);
    forall i | 0 <= i < |links|
      ensures links[i] in links && links'[i].from in s' && s'[links'[i].from] == s[links[i].from]
    {
    }
    assert forall l :: l in links' ==> l.from in s';
    assert |Outcomes(links', s')| == |Outcomes(links, s)|;
  }

  lemma VerdictRenamed(nodes: seq<Node>, nodes': seq<Node>, s: State, s': State, a: Id, b: Id, i: nat)
    requires Alike(nodes, nodes', a, b) && AlikeStates(Ids(nodes), s, s', a, b) && i < |nodes|
    ensures VerdictOf(nodes', s', nodes'[i]) == VerdictOf(nodes, s, nodes[i])
  {
    hide LinksInto, NamedLinks, AlikeStates;
    var links, links' := LinksInto(nodes, nodes[i].id), LinksInto(nodes', nodes'[i].id);
    LinksIntoRenamed(nodes, nodes', a, b, nodes[i].id);
    LinksComeFromNodes(nodes, nodes[i].id);
    OutcomesRenamed(links, Ids(nodes), s, s', a, b);
    StateKeys(Ids(nodes), s, s', a, b);
    AllKnown(links, s);
    AllKnown(links', s');
  }

  lemma StateKeys(ids: set<Id>, s: State, s': State, a: Id, b: Id)
    requires AlikeStates(ids, s, s', a, b)
    ensures s.Keys == ids
  {
  }

  lemma ReplacedJoins(xs: seq<Id>, ys: seq<Id>, a: Id, b: Id)
    ensures Replaced(xs + ys, a, b) == Replaced(xs, a, b) + Replaced(ys, a, b)
  {
  }

  lemma MovesRenamed(nodes: seq<Node>, nodes': seq<Node>, s: State, s': State, want: Verdict, a: Id, b: Id, i: nat)
    requires Alike(nodes, nodes', a, b) && AlikeStates(Ids(nodes), s, s', a, b) && i < |nodes|
    ensures nodes[i].id in s && nodes'[i].id in s' && nodes'[i].id == Name(a, b, nodes[i].id)
    ensures Moves(nodes', s', nodes'[i], want) == Moves(nodes, s, nodes[i], want)
  {
    IdIn(nodes, i);
    RelinkedId(nodes[i].(id := Name(a, b, nodes[i].id)), a, b);
    VerdictRenamed(nodes, nodes', s, s', a, b, i);
    hide VerdictOf, Relinked;
  }

  lemma {:induction false} PickedRenamed(nodes: seq<Node>, nodes': seq<Node>, s: State, s': State, want: Verdict, a: Id,
                                         b: Id, k: nat)
    requires Alike(nodes, nodes', a, b) && AlikeStates(Ids(nodes), s, s', a, b) && k <= |nodes|
    requires Known(nodes[..k], s) && Known(nodes'[..k], s')
    ensures Picked(nodes'[..k], nodes', s', want) == Replaced(Picked(nodes[..k], nodes, s, want), a, b)
  {
    if k > 0 {
      assert nodes[..k][..k - 1] == nodes[..k - 1] && nodes'[..k][..k - 1] == nodes'[..k - 1];
      assert Known(nodes[..k - 1], s) && Known(nodes'[..k - 1], s');
      PickedRenamed(nodes, nodes', s, s', want, a, b, k - 1);
      LastPickedRenamed(nodes, nodes', s, s', want, a, b, k - 1);
      PickedSplits(nodes[..k], nodes, s, want);
      PickedSplits(nodes'[..k], nodes', s', want);
      hide Picked, LastPicked, Replaced, Alike, AlikeStates;
      ReplacedJoins(Picked(nodes[..k - 1], nodes, s, want), LastPicked(nodes, s, nodes[k - 1], want), a, b);
    }
  }

  function LastPicked(nodes: seq<Node>, s: State, n: Node, want: Verdict): seq<Id>
    requires n.id in s
  {
    if Moves(nodes, s, n, want) then [n.id] else []
  }

  lemma {:induction false} PickedSplits(list: seq<Node>, nodes: seq<Node>, s: State, want: Verdict)
    requires Known(list, s) && list != []
    ensures Known(list[..|list| - 1], s) && list[|list| - 1].id in s
    ensures Picked(list, nodes, s, want) ==
      Picked(list[..|list| - 1], nodes, s, want) + LastPicked(nodes, s, list[|list| - 1], want)
  {
    assert list == list[..|list| - 1] + [list[|list| - 1]];
  }

  lemma LastPickedRenamed(nodes: seq<Node>, nodes': seq<Node>, s: State, s': State, want: Verdict, a: Id, b: Id, i: nat)
    requires Alike(nodes, nodes', a, b) && AlikeStates(Ids(nodes), s, s', a, b) && i < |nodes|
    ensures nodes[i].id in s && nodes'[i].id in s'
    ensures LastPicked(nodes', s', nodes'[i], want) == Replaced(LastPicked(nodes, s, nodes[i], want), a, b)
  {
    MovesRenamed(nodes, nodes', s, s', want, a, b, i);
  }

  /** The failures said of the two runs alike up to the renaming. */
  ghost predicate AlikeFailing(ids: set<Id>, failing: set<Id>, failing': set<Id>, a: Id, b: Id) {
    forall id :: id in ids ==> (Name(a, b, id) in failing' <==> id in failing)
  }

  lemma InReplaced(ids: set<Id>, list: seq<Id>, a: Id, b: Id, id: Id)
    requires b !in ids && id in ids && forall x :: x in list ==> x in ids
    ensures Name(a, b, id) in Replaced(list, a, b) <==> id in list
  {
    if id in list {
      var i :| 0 <= i < |list| && list[i] == id;
      assert Replaced(list, a, b)[i] == Name(a, b, id);
    }
    if Name(a, b, id) in Replaced(list, a, b) {
      var i :| 0 <= i < |list| && Replaced(list, a, b)[i] == Name(a, b, id);
      assert list[i] in list;
    }
  }

  lemma MovedStatesAlike(ids: set<Id>, s: State, s': State, start: seq<Id>, skip: seq<Id>, failing: set<Id>,
                         failing': set<Id>, a: Id, b: Id)
    requires AlikeStates(ids, s, s', a, b) && AlikeFailing(ids, failing, failing', a, b)
    requires (forall x :: x in start ==> x in ids) && (forall x :: x in skip ==> x in ids)
    ensures AlikeStates(ids, AfterStarts(AfterSkips(s, skip), start, failing),
                        AfterStarts(AfterSkips(s', Replaced(skip, a, b)), Replaced(start, a, b), failing'), a, b)
  {
    forall id | id in ids
      ensures Name(a, b, id) in Replaced(start, a, b) <==> id in start
      ensures Name(a, b, id) in Replaced(skip, a, b) <==> id in skip
    {
      InReplaced(ids, start, a, b, id);
      InReplaced(ids, skip, a, b, id);
    }
  }

  lemma AlikeIds(nodes: seq<Node>, nodes': seq<Node>, a: Id, b: Id)
    requires Alike(nodes, nodes', a, b)
    ensures b !in Ids(nodes) && Ids(nodes') == set id | id in Ids(nodes) :: Name(a, b, id)
  {
    hide Relinked;
    forall i | 0 <= i < |nodes|
      ensures nodes[i].id in Ids(nodes) && nodes'[i].id in Ids(nodes') && nodes'[i].id == Name(a, b, nodes[i].id)
    {
      IdIn(nodes, i);
      IdIn(nodes', i);
      RelinkedId(nodes[i].(id := Name(a, b, nodes[i].id)), a, b);
    }
    forall id ensures id in Ids(nodes') <==> id in (set x | x in Ids(nodes) :: Name(a, b, x)) {
      if id in Ids(nodes') {
        var i := IdAt(nodes', id);
        assert nodes[i].id in Ids(nodes);
      }
      if x :| x in Ids(nodes) && id == Name(a, b, x) {
        var i := IdAt(nodes, x);
      }
    }
    if b in Ids(nodes) {
      var i := IdAt(nodes, b);
    }
  }

  lemma RelinkedId(n: Node, a: Id, b: Id)
    ensures Relinked(n, a, b).id == n.id
  {
  }

  ghost predicate AlikeRuns(ids: set<Id>, r: Run, r': Run, a: Id, b: Id) {
    AlikeStates(ids, r.state, r'.state, a, b) && r'.order == Replaced(r.order, a, b)
  }

  lemma RoundRenamed(nodes: seq<Node>, nodes': seq<Node>, failing: set<Id>, failing': set<Id>, r: Run, r': Run, a: Id,
                     b: Id)
    requires Alike(nodes, nodes', a, b) && AlikeFailing(Ids(nodes), failing, failing', a, b)
    requires AlikeRuns(Ids(nodes), r, r', a, b) && Known(nodes, r.state) && Known(nodes', r'.state)
    ensures AlikeRuns(Ids(nodes), Round(nodes, failing, r), Round(nodes', failing', r'), a, b)
  {
    hide Picked, AfterSkips, AfterStarts, Alike, AlikeFailing, AlikeStates;
    var start, skip := Picked(nodes, nodes, r.state, Start), Picked(nodes, nodes, r.state, Skip);
    assert nodes[..|nodes|] == nodes && nodes'[..|nodes'|] == nodes';
    AlikeLength(nodes, nodes', a, b);
    PickedRenamed(nodes, nodes', r.state, r'.state, Start, a, b, |nodes|);
    PickedRenamed(nodes, nodes', r.state, r'.state, Skip, a, b, |nodes|);
    PickedKnown(nodes, r.state);
    StateKeys(Ids(nodes), r.state, r'.state, a, b);
    MovedStatesAlike(Ids(nodes), r.state, r'.state, start, skip, failing, failing', a, b);
    assert Replaced(r.order + start, a, b) == Replaced(r.order, a, b) + Replaced(start, a, b);
  }

  lemma AlikeLength(nodes: seq<Node>, nodes': seq<Node>, a: Id, b: Id)
    requires Alike(nodes, nodes', a, b)
    ensures |nodes| == |nodes'|
  {
  }

  lemma {:induction false} RoundsRenamed(nodes: seq<Node>, nodes': seq<Node>, failing: set<Id>, failing': set<Id>,
                                         a: Id, b: Id, k: nat)
    requires Alike(nodes, nodes', a, b) && AlikeFailing(Ids(nodes), failing, failing', a, b)
    ensures AlikeRuns(Ids(nodes), Rounds(nodes, failing, k), Rounds(nodes', failing', k), a, b)
  {
    hide Round, Alike, AlikeFailing;
    if k == 0 {
      AlikeIds(nodes, nodes', a, b);
    } else {
      RoundsRenamed(nodes, nodes', failing, failing', a, b, k - 1);
      RoundRenamed(nodes, nodes', failing, failing', Rounds(nodes, failing, k - 1), Rounds(nodes', failing', k - 1),
                   a, b);
    }
  }

  predicate FailsIt(n: Node, status: map<Id, Outcome>)
    requires n.id in status
  {
    status[n.id] == Was(Failed) && n.failure == [] && n.always == []
  }

  lemma FailsItRenamed(nodes: seq<Node>, nodes': seq<Node>, status: map<Id, Outcome>, status': map<Id, Outcome>, a: Id,
                       b: Id, i: nat)
    requires Alike(nodes, nodes', a, b) && i < |nodes| && nodes[i].id in status
    requires Name(a, b, nodes[i].id) in status' && status'[Name(a, b, nodes[i].id)] == status[nodes[i].id]
    ensures |nodes'| == |nodes| && nodes'[i].id == Name(a, b, nodes[i].id)
    ensures FailsIt(nodes'[i], status') <==> FailsIt(nodes[i], status)
  {
    var n, m := nodes[i], nodes'[i];
    assert m == Relinked(n.(id := Name(a, b, n.id)), a, b);
    assert |m.failure| == |n.failure| && |m.always| == |n.always|;
  }

  lemma FailedBySome(nodes: seq<Node>, status: map<Id, Outcome>)
    requires Ids(nodes) <= status.Keys
    ensures forall i :: 0 <= i < |nodes| ==> nodes[i].id in status
    ensures FailedBy(nodes, status) <==> exists i :: 0 <= i < |nodes| && FailsIt(nodes[i], status)
  {
    forall i | 0 <= i < |nodes| ensures nodes[i].id in status {
      IdIn(nodes, i);
    }
    if FailedBy(nodes, status) {
      var n :| n in nodes && status[n.id] == Was(Failed) && n.failure == [] && n.always == [];
      var i :| 0 <= i < |nodes| && nodes[i] == n;
      assert FailsIt(nodes[i], status);
    }
    if i :| 0 <= i < |nodes| && FailsIt(nodes[i], status) {
      assert nodes[i] in nodes;
    }
  }

  lemma FailedRenamed(nodes: seq<Node>, nodes': seq<Node>, status: map<Id, Outcome>, status': map<Id, Outcome>, a: Id,
                      b: Id)
    requires Alike(nodes, nodes', a, b) && Ids(nodes) <= status.Keys && Ids(nodes') <= status'.Keys
    requires forall id :: id in Ids(nodes) ==> Name(a, b, id) in status' && status'[Name(a, b, id)] == status[id]
    ensures FailedBy(nodes, status) <==> FailedBy(nodes', status')
  {
    hide Alike, FailedBy, FailsIt, Ids, Relinked, Replaced;
    AlikeLength(nodes, nodes', a, b);
    FailedBySome(nodes, status);
    FailedBySome(nodes', status');
    forall i | 0 <= i < |nodes| ensures FailsIt(nodes'[i], status') <==> FailsIt(nodes[i], status) {
      IdIn(nodes, i);
      FailsItRenamed(nodes, nodes', status, status', a, b, i);
    }
  }

  /** The results of two runs the same up to the name : each node's status, the order, the verdict. */
  ghost predicate SameUpToName(ids: set<Id>, before: RunResult, after: RunResult, a: Id, b: Id) {
    && (forall id :: id in ids ==> id in before.status && Name(a, b, id) in after.status
                                   && after.status[Name(a, b, id)] == before.status[id])
    && after.order == Replaced(before.order, a, b)
    && after.failed == before.failed
  }

  lemma RenamedNodesRun(nodes: seq<Node>, a: Id, b: Id, failing: set<Id>, failing': set<Id>)
    requires UniqueIds(nodes) && a in Ids(nodes) && Fresh(nodes, b)
    requires AlikeFailing(Ids(nodes), failing, failing', a, b)
    ensures SameUpToName(Ids(nodes), ResultOf(nodes, failing), ResultOf(Renamed(nodes, a, b), failing'), a, b)
  {
    hide Rounds, Renamed, Alike, AlikeFailing, AlikeRuns, Summary, SameUpToName, Known, Ids;
    var nodes' := Renamed(nodes, a, b);
    RenamedAlike(nodes, a, b);
    AlikeLength(nodes, nodes', a, b);
    var k := |nodes| * 2 + 1;
    RoundsRenamed(nodes, nodes', failing, failing', a, b, k);
    RoundsKnown(nodes, failing, k);
    RoundsKnown(nodes', failing', k);
    SummaryRenamed(nodes, nodes', Rounds(nodes, failing, k), Rounds(nodes', failing', k), a, b);
  }

  lemma {:induction false} RoundsKnown(nodes: seq<Node>, failing: set<Id>, k: nat)
    ensures Known(nodes, Rounds(nodes, failing, k).state)
  {
  }

  lemma SummaryRenamed(nodes: seq<Node>, nodes': seq<Node>, r: Run, r': Run, a: Id, b: Id)
    requires Alike(nodes, nodes', a, b) && AlikeRuns(Ids(nodes), r, r', a, b)
    requires Known(nodes, r.state) && Known(nodes', r'.state)
    ensures SameUpToName(Ids(nodes), Summary(nodes, r), Summary(nodes', r'), a, b)
  {
    hide Alike;
    FailedRenamed(nodes, nodes', StatusOf(r.state), StatusOf(r'.state), a, b);
  }

  lemma RenamedAlike(nodes: seq<Node>, a: Id, b: Id)
    requires UniqueIds(nodes) && a in Ids(nodes) && Fresh(nodes, b)
    ensures Alike(nodes, Renamed(nodes, a, b), a, b)
  {
    forall i | 0 <= i < |nodes|
      ensures Renamed(nodes, a, b)[i] == Relinked(nodes[i].(id := Name(a, b, nodes[i].id)), a, b)
    {
      RenamedAt(nodes, a, b, i);
    }
  }

  // ─── renaming a node of a file ───────────────────────────────────────────────

  lemma FreshIsRead(file: seq<Node>, b: Id)
    requires Fresh(file, b)
    ensures Fresh(Read(file), b)
  {
    forall i | 0 <= i < |file| ensures Read(file)[i].id != b && b !in Read(file)[i].AllLinks() {
      UnlinkedLinks(file[i], "");
    }
  }

  /** Renaming a node of a file to a fresh name commutes with the dry run of what is read, whatever
      fails, when no link is lost to the empty name nor found from it. */
  lemma RenameCommutesWithRun(file: seq<Node>, a: Id, b: Id, failing: set<Id>, failing': set<Id>)
    requires UniqueIds(file) && a in Ids(file) && Fresh(file, b) && LinksKept(file, a, b)
    requires AlikeFailing(Ids(file), failing, failing', a, b)
    ensures SameUpToName(Ids(file), ResultOf(Read(file), failing), ResultOf(Read(Renamed(file, a, b)), failing'), a, b)
  {
    FreshIsRead(file, b);
    ReadIds(file);
    RenameIsRead(file, a, b);
    hide Ids, Renamed, Read, Fresh, UniqueIds, LinksKept, AlikeFailing, SameUpToName, ResultOf;
    RenamedNodesRun(Read(file), a, b, failing, failing');
  }

  /** A node no link leads to always runs. */
  lemma {:induction false} NoParentRuns(nodes: seq<Node>, failing: set<Id>, n: Node)
    requires UniqueIds(nodes) && n in nodes && LinksInto(nodes, n.id) == []
    ensures n.id in ResultOf(nodes, failing).status && ResultOf(nodes, failing).status[n.id] == Was(Ran(n.id, failing))
  {
    hide Rounds;
    FinalIsFixpoint(nodes, failing, n);
  }

  /** Nothing leads to a nameless node as it is read : it always runs. */
  lemma NamelessAlwaysRuns(file: seq<Node>, failing: set<Id>)
    requires UniqueIds(file) && "" in Ids(file)
    ensures "" in ResultOf(Read(file), failing).status
    ensures ResultOf(Read(file), failing).status[""] == Was(Ran("", failing))
  {
    ReadIds(file);
    var i := IdAt(Read(file), "");
    var links := LinksInto(Read(file), "");
    ReadIsNamed(file);
    if links != [] {
      LinksIntoIff(Read(file), "", links[0]);
      var n :| n in Read(file) && n.id == links[0].from && "" in n.Links(links[0].kind);
      LinksAreAll(n, links[0].kind, "");
      assert false;
    }
    hide Read, ResultOf, Ran, LinksInto;
    NoParentRuns(Read(file), failing, Read(file)[i]);
  }

  /** Renamed to the empty name, a node keeps its status exactly when it ran. */
  lemma RenamedToNone(file: seq<Node>, a: Id, failing: set<Id>, failing': set<Id>)
    requires UniqueIds(file) && a in Ids(file) && "" !in Ids(file) && ("" in failing' <==> a in failing)
    ensures var before := ResultOf(Read(file), failing).status;
            var after := ResultOf(Read(Renamed(file, a, "")), failing').status;
            a in before && "" in after && (after[""] == before[a] <==> before[a] == Was(Ran(a, failing)))
  {
    RenamedIds(file, a, "");
    ReadIds(file);
    NamelessAlwaysRuns(Renamed(file, a, ""), failing');
    assert Ran("", failing') == Ran(a, failing);
    hide Rounds, Read, Renamed;
  }

  // ─── the empty name, on two nodes ────────────────────────────────────────────

  /** A node whose only parent, itself without one, should have succeeded and fails, never runs. */
  lemma {:induction false} FailedParentSkips(nodes: seq<Node>, failing: set<Id>, p: Node, n: Node)
    requires UniqueIds(nodes) && p in nodes && n in nodes && p.id in failing
    requires LinksInto(nodes, p.id) == [] && LinksInto(nodes, n.id) == [Link(p.id, Success)]
    ensures n.id in ResultOf(nodes, failing).status && ResultOf(nodes, failing).status[n.id] == DoNotRun
  {
    hide Rounds, LinksInto;
    var s := FinalRun(nodes, failing).state;
    FinalIsFixpoint(nodes, failing, p);
    FinalIsFixpoint(nodes, failing, n);
    var links := [Link(p.id, Success)];
    assert links[..0] == [] && p.id in s;
    assert KnownLinks(links, s) == links;
    assert Outcomes(links, s) == [Some(false)];
  }

  lemma {:induction false} LinksOfTwo(x: Id)
    ensures LinksInto(TWO_NODES, x) == if x == "b" then [Link("a", Success)] else []
  {
    TwoNodes();
    assert TWO_NODES[..1] == [NODE_A] && [NODE_A][..0] == [] && ["b"][..0] == [];
    assert LinksFrom(NODE_B, x) == [];
    var l, targets := Link("a", Success), ["b"];
    assert Repeated(l, targets, x) == Repeated(l, targets[..0], x) + if targets[0] == x then [l] else [];
    assert LinksFrom(NODE_A, x) == if x == "b" then [l] else [];
    hide LinksFrom;
    assert LinksInto([NODE_A], x) == LinksInto([], x) + LinksFrom(NODE_A, x);
    assert LinksInto(TWO_NODES, x) == LinksInto([NODE_A], x) + LinksFrom(NODE_B, x);
  }

  /** A node that would never run is successful once it is renamed to the empty name. */
  lemma RenamedToNothing()
    ensures "b" in Ids(TWO_NODES) && "b" in ResultOf(Read(TWO_NODES), {"a"}).status
    ensures ResultOf(Read(TWO_NODES), {"a"}).status["b"] == DoNotRun
    ensures "" in ResultOf(Read(Renamed(TWO_NODES, "b", "")), {"a"}).status
    ensures ResultOf(Read(Renamed(TWO_NODES, "b", "")), {"a"}).status[""] == Was(Successful)
  {
    TwoNodes();
    TwoNodesAreRead();
    LinksOfTwo("a");
    LinksOfTwo("b");
    assert NODE_A in TWO_NODES && NODE_B in TWO_NODES && Ran("", {"a"}) == Successful;
    RenamedIds(TWO_NODES, "b", "");
    hide LinksInto, Ids, Read, Renamed, ResultOf, WellLinked;
    FailedParentSkips(TWO_NODES, {"a"}, NODE_A, NODE_B);
    NamelessAlwaysRuns(Renamed(TWO_NODES, "b", ""), {"a"});
  }

  /** The link of a to the empty name is not read, until the nameless node is named b. */
  const NAMELESS := [Node("a", false, [""], [], []), Node("", false, [], [], [])]

  lemma NamelessNamed()
    ensures UniqueIds(NAMELESS) && "" in Ids(NAMELESS) && Renamed(NAMELESS, "", "b") == TWO_NODES
  {
    assert NAMELESS[0].id == "a" && NAMELESS[1].id == "";
    assert NAMELESS[1] in NAMELESS;
    assert Find(NAMELESS, "") == Some(1);
    assert Replaced([""], "", "b") == ["b"] && Replaced([], "", "b") == [];
  }

  /** And a nameless node that always ran may never run once it is named. */
  lemma NamedNode()
    ensures "" in Ids(NAMELESS) && "" in ResultOf(Read(NAMELESS), {"a"}).status
    ensures ResultOf(Read(NAMELESS), {"a"}).status[""] == Was(Successful)
    ensures "b" in ResultOf(Read(Renamed(NAMELESS, "", "b")), {"a"}).status
    ensures ResultOf(Read(Renamed(NAMELESS, "", "b")), {"a"}).status["b"] == DoNotRun
  {
    NamelessNamed();
    assert Ran("", {"a"}) == Successful;
    hide LinksInto, Ids, Read, Renamed, ResultOf, UniqueIds;
    NamelessAlwaysRuns(NAMELESS, {"a"});
    RenamedToNothing();
  }

  // ─── adding a node ───────────────────────────────────────────────────────────

  /** `more` is `nodes`, some of them linked to `id` too, and then the node `id` that leads nowhere. */
  ghost predicate OneMore(nodes: seq<Node>, more: seq<Node>, id: Id) {
    && |more| == |nodes| + 1
    && id !in Ids(nodes)
    && (forall i {:trigger nodes[i]} {:trigger more[i]} :: 0 <= i < |nodes| ==> LinkedAlso(nodes[i], more[i], id))
    && more[|nodes|].id == id
    && (forall to :: to in more[|nodes|].AllLinks() ==> to == id)
  }

  ghost predicate LinkedAlso(n: Node, m: Node, id: Id) {
    m.id == n.id && m.converge == n.converge
    && Without(m.success, id) == Without(n.success, id)
    && Without(m.failure, id) == Without(n.failure, id)
    && Without(m.always, id) == Without(n.always, id)
  }

  lemma AddedIsOneMore(nodes: seq<Node>, id: Id, from: Option<Link>)
    requires id !in Ids(nodes)
    requires from.Some? ==> from.value.from in Ids(nodes + [NewNode(id)])
    ensures OneMore(nodes, Added(nodes, id, from), id)
  {
    var more := nodes + [NewNode(id)];
    if from.Some? {
      var at := Find(more, from.value.from).value;
      LinkedOnIsAlso(more[at], id, from.value.kind);
    }
  }

  lemma LinkedOnIsAlso(n: Node, id: Id, kind: Kind)
    ensures LinkedAlso(n, LinkedOn(n, id, kind), id)
  {
    forall list: seq<Id> ensures Without(list + [id], id) == Without(list, id) {
      assert (list + [id])[..|list + [id]| - 1] == list;
    }
  }

  /** Links to another node are not touched by links to `id`. */
  lemma {:induction false} RepeatedApart(l: Link, list: seq<Id>, id: Id, to: Id)
    requires to != id
    ensures Repeated(l, Without(list, id), to) == Repeated(l, list, to)
  {
    if list != [] {
      var front, last := list[..|list| - 1], list[|list| - 1];
      RepeatedApart(l, front, id, to);
      assert Without(front, id) + [] == Without(front, id);
      var rest := Without(front, id) + [last];
      assert rest[..|rest| - 1] == Without(front, id);
    }
  }

  lemma LinksFromAlso(n: Node, m: Node, id: Id, to: Id)
    requires LinkedAlso(n, m, id) && to != id
    ensures LinksFrom(m, to) == LinksFrom(n, to)
  {
    RepeatedApart(Link(n.id, Success), n.success, id, to);
    RepeatedApart(Link(n.id, Success), m.success, id, to);
    RepeatedApart(Link(n.id, Failure), n.failure, id, to);
    RepeatedApart(Link(n.id, Failure), m.failure, id, to);
    RepeatedApart(Link(n.id, Always), n.always, id, to);
    RepeatedApart(Link(n.id, Always), m.always, id, to);
    hide Repeated, Without;
  }

  lemma {:induction false} LinksIntoAlso(nodes: seq<Node>, more: seq<Node>, id: Id, to: Id)
    requires |more| == |nodes| && to != id
    requires forall i {:trigger nodes[i]} {:trigger more[i]} :: 0 <= i < |nodes| ==> LinkedAlso(nodes[i], more[i], id)
    ensures LinksInto(more, to) == LinksInto(nodes, to)
  {
    hide LinksFrom, LinkedAlso;
    if nodes != [] {
      LinksIntoAlso(nodes[..|nodes| - 1], more[..|nodes| - 1], id, to);
      LinksFromAlso(nodes[|nodes| - 1], more[|nodes| - 1], id, to);
    }
  }

  lemma LinksAreAll(n: Node, kind: Kind, to: Id)
    ensures to in n.Links(kind) ==> to in n.AllLinks()
  {
  }

  lemma {:induction false} LinksIntoMore(nodes: seq<Node>, more: seq<Node>, id: Id, to: Id)
    requires OneMore(nodes, more, id) && to != id
    ensures LinksInto(more, to) == LinksInto(nodes, to)
  {
    hide LinksFrom;
    var front, last := more[..|nodes|], more[|nodes|];
    LinksIntoAlso(nodes, front, id, to);
    assert LinksFrom(last, to) == [] || LinksFrom(last, to)[0] in LinksFrom(last, to);
    forall l ensures l !in LinksFrom(last, to) {
      LinksFromIff(last, to, l);
      LinksAreAll(last, l.kind, to);
    }
  }

  /** The state of the longer run is that of the shorter for the nodes there were. */
  ghost predicate StateOver(ids: set<Id>, s: State, t: State) {
    s.Keys == ids && ids <= t.Keys && forall id :: id in ids ==> t[id] == s[id]
  }

  lemma VerdictMore(nodes: seq<Node>, more: seq<Node>, id: Id, s: State, t: State, i: nat)
    requires OneMore(nodes, more, id) && StateOver(Ids(nodes), s, t) && i < |nodes|
    ensures VerdictOf(more, t, more[i]) == VerdictOf(nodes, s, nodes[i])
  {
    IdIn(nodes, i);
    assert LinkedAlso(nodes[i], more[i], id);
    LinksIntoMore(nodes, more, id, nodes[i].id);
    LinksComeFromNodes(nodes, nodes[i].id);
    hide LinksInto, LinkedAlso, OneMore, Ids;
    var links := LinksInto(nodes, nodes[i].id);
    AllKnown(links, s);
    AllKnown(links, t);
    assert Outcomes(links, s) == Outcomes(links, t);
  }

  lemma {:induction false} PickedMore(nodes: seq<Node>, more: seq<Node>, id: Id, s: State, t: State, want: Verdict,
                                      k: nat)
    requires OneMore(nodes, more, id) && StateOver(Ids(nodes), s, t) && k <= |nodes|
    requires Known(nodes[..k], s) && Known(more[..k], t)
    ensures Picked(more[..k], more, t, want) == Picked(nodes[..k], nodes, s, want)
  {
    if k > 0 {
      assert nodes[..k][..k - 1] == nodes[..k - 1] && more[..k][..k - 1] == more[..k - 1];
      PickedSplits(nodes[..k], nodes, s, want);
      PickedSplits(more[..k], more, t, want);
      PickedMore(nodes, more, id, s, t, want, k - 1);
      LastPickedMore(nodes, more, id, s, t, want, k - 1);
      hide Picked, LastPicked, OneMore, StateOver;
    }
  }

  lemma LastPickedMore(nodes: seq<Node>, more: seq<Node>, id: Id, s: State, t: State, want: Verdict, i: nat)
    requires OneMore(nodes, more, id) && StateOver(Ids(nodes), s, t) && i < |nodes|
    ensures nodes[i].id in s && more[i].id in t
    ensures LastPicked(more, t, more[i], want) == LastPicked(nodes, s, nodes[i], want)
  {
    IdIn(nodes, i);
    assert LinkedAlso(nodes[i], more[i], id);
    VerdictMore(nodes, more, id, s, t, i);
    hide VerdictOf, OneMore, LinkedAlso;
  }

  lemma OneMoreKnown(nodes: seq<Node>, more: seq<Node>, id: Id)
    requires OneMore(nodes, more, id)
    ensures Ids(more) == Ids(nodes) + {id}
  {
    forall i | 0 <= i < |nodes|
      ensures nodes[i].id in Ids(nodes) && more[i].id == nodes[i].id && more[i].id in Ids(more)
    {
      assert LinkedAlso(nodes[i], more[i], id);
      IdIn(nodes, i);
      IdIn(more, i);
    }
    IdIn(more, |nodes|);
    forall x | x in Ids(more) ensures x in Ids(nodes) + {id} {
      var i := IdAt(more, x);
    }
    forall x | x in Ids(nodes) ensures x in Ids(more) {
      var i := IdAt(nodes, x);
    }
  }

  /** The run of the longer workflow is that of the shorter, with `id` somewhere in its order. */
  ghost predicate RunOver(ids: set<Id>, r: Run, t: Run, id: Id) {
    StateOver(ids, r.state, t.state) && t.state.Keys == ids + {id} && Without(t.order, id) == r.order
  }

  /** What a round picks among the nodes of the longer workflow : what it picks among those of the
      shorter, and the node more or not. */
  lemma {:induction false} PickedWithOneMore(
    nodes: seq<Node>, more: seq<Node>, id: Id, s: State, t: State, want: Verdict)
    requires OneMore(nodes, more, id) && StateOver(Ids(nodes), s, t) && t.Keys == Ids(nodes) + {id}
    requires Known(nodes, s) && Known(more, t)
    ensures var p, q := Picked(nodes, nodes, s, want), Picked(more, more, t, want);
            (q == p || q == p + [id]) && forall x :: x in p ==> x in Ids(nodes)
  {
    assert nodes[..|nodes|] == nodes && more[..|more|] == more && more[..|nodes| + 1][..|nodes|] == more[..|nodes|];
    PickedMore(nodes, more, id, s, t, want, |nodes|);
    PickedSplits(more, more, t, want);
    PickedKnown(nodes, s);
    PickedInNodes(nodes, s, want);
    hide Picked, OneMore;
  }

  lemma {:induction false} PickedInNodes(nodes: seq<Node>, s: State, want: Verdict)
    requires Known(nodes, s)
    ensures forall x :: x in Picked(nodes, nodes, s, want) ==> x in Ids(nodes)
  {
    forall x | x in Picked(nodes, nodes, s, want) ensures x in Ids(nodes) {
      PickedIff(nodes, nodes, s, want, x);
    }
  }

  lemma MovedOver(ids: set<Id>, s: State, t: State, start: seq<Id>, skip: seq<Id>, start': seq<Id>, skip': seq<Id>,
                  failing: set<Id>, id: Id)
    requires StateOver(ids, s, t) && id !in ids
    requires (start' == start || start' == start + [id]) && (skip' == skip || skip' == skip + [id])
    ensures StateOver(ids, AfterStarts(AfterSkips(s, skip), start, failing),
      AfterStarts(AfterSkips(t, skip'), start', failing))
  {
    forall x | x in ids ensures (x in start' <==> x in start) && (x in skip' <==> x in skip) {
    }
  }

  lemma {:induction false} OrderMore(order: seq<Id>, start: seq<Id>, start': seq<Id>, id: Id)
    requires (start' == start || start' == start + [id]) && id !in start
    ensures Without(order + start', id) == Without(order, id) + start
  {
    WithoutJoins(order, start', id);
    WithoutNone(start, id);
    if start' == start + [id] {
      WithoutJoins(start, [id], id);
      assert Without([id], id) == [];
      assert Without(start', id) == start;
    }
  }

  lemma RoundMore(nodes: seq<Node>, more: seq<Node>, id: Id, failing: set<Id>, r: Run, t: Run)
    requires OneMore(nodes, more, id) && RunOver(Ids(nodes), r, t, id)
    requires Known(nodes, r.state) && Known(more, t.state)
    ensures RunOver(Ids(nodes), Round(nodes, failing, r), Round(more, failing, t), id)
  {
    hide Picked, OneMore, Ids, StateOver, AfterSkips, AfterStarts, Without;
    OneMoreApart(nodes, more, id);
    PickedWithOneMore(nodes, more, id, r.state, t.state, Start);
    PickedWithOneMore(nodes, more, id, r.state, t.state, Skip);
    var start, start' := Picked(nodes, nodes, r.state, Start), Picked(more, more, t.state, Start);
    var skip, skip' := Picked(nodes, nodes, r.state, Skip), Picked(more, more, t.state, Skip);
    MovedOver(Ids(nodes), r.state, t.state, start, skip, start', skip', failing, id);
    OrderMore(t.order, start, start', id);
  }

  lemma OneMoreApart(nodes: seq<Node>, more: seq<Node>, id: Id)
    requires OneMore(nodes, more, id)
    ensures id !in Ids(nodes)
  {
  }

  lemma {:induction false} RoundsMore(nodes: seq<Node>, more: seq<Node>, id: Id, failing: set<Id>, k: nat)
    requires OneMore(nodes, more, id)
    ensures RunOver(Ids(nodes), Rounds(nodes, failing, k), Rounds(more, failing, k), id)
  {
    hide Round, OneMore;
    OneMoreKnown(nodes, more, id);
    if k > 0 {
      RoundsMore(nodes, more, id, failing, k - 1);
      RoundMore(nodes, more, id, failing, Rounds(nodes, failing, k - 1), Rounds(more, failing, k - 1));
    }
  }

  /** The nodes there were have the same status, and run in the same order. */
  ghost predicate SameButFor(ids: set<Id>, before: RunResult, after: RunResult, id: Id) {
    && (forall x :: x in ids ==> x in before.status && x in after.status && after.status[x] == before.status[x])
    && Without(after.order, id) == before.order
  }

  lemma AddedNodesRun(nodes: seq<Node>, id: Id, from: Option<Link>, failing: set<Id>)
    requires id !in Ids(nodes)
    requires from.Some? ==> from.value.from in Ids(nodes + [NewNode(id)])
    ensures SameButFor(Ids(nodes), ResultOf(nodes, failing), ResultOf(Added(nodes, id, from), failing), id)
  {
    hide Rounds, Round, OneMore, Added, Summary, SameButFor, RunOver, Stable;
    var more := Added(nodes, id, from);
    AddedIsOneMore(nodes, id, from);
    OneMoreLength(nodes, more, id);
    GuardSuffices(nodes, failing);
    var k, m := |nodes| * 2 + 1, |more| * 2 + 1;
    RoundStays(nodes, failing, Rounds(nodes, failing, k));
    RoundsStay(nodes, failing, k, m);
    RoundsMore(nodes, more, id, failing, m);
    RoundsKnown(nodes, failing, k);
    RoundsKnown(more, failing, m);
    hide Ids, Known;
    SummaryMore(nodes, more, Rounds(nodes, failing, k), Rounds(more, failing, m), id);
  }

  lemma SummaryMore(nodes: seq<Node>, more: seq<Node>, r: Run, t: Run, id: Id)
    requires RunOver(Ids(nodes), r, t, id) && Known(nodes, r.state) && Known(more, t.state)
    ensures SameButFor(Ids(nodes), Summary(nodes, r), Summary(more, t), id)
  {
    hide FailedBy;
  }

  lemma OneMoreLength(nodes: seq<Node>, more: seq<Node>, id: Id)
    requires OneMore(nodes, more, id)
    ensures |more| == |nodes| + 1
  {
  }

  /** A node more, linked from a node there was or not, changes neither the status of a node there
      was nor the order they run in, whatever fails. */
  lemma AddLeavesTheOthers(file: seq<Node>, wanted: Id, id: Id, from: Option<Link>, failing: set<Id>)
    requires IsFreeName(Wanted(wanted), IdentifiersOf(file), id)
    requires from.Some? ==> from.value.from in Ids(file + [NewNode(id)])
    ensures SameButFor(Ids(file), ResultOf(Read(file), failing), ResultOf(Read(Added(file, id, from)), failing), id)
  {
    FreeNameIsOne(wanted, IdentifiersOf(file), id);
    IdentifiersAre(file, id);
    ReadIds(file);
    AddIsRead(file, id, from);
    hide Ids, Read, Added, ResultOf, SameButFor;
    AddedNodesRun(Read(file), id, from, failing);
  }
}
