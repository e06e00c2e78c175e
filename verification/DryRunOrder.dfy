/** The order a dry run reports : each node that ran, once, after the parents that made it run. */
module DryRunOrder {
  import opened Wrappers
  import opened WorkflowModel
  import opened Graphs
  import opened DryRun
  import opened DryRunLaws

  predicate HasRun(s: NodeState) {
    s.status == Successful || s.status == Failed
  }

  /** What makes a node run is in `before`, and fired : one link into it, or every one of them when
      its parents must converge (a node without a parent needs none). */
  ghost predicate Caused(nodes: seq<Node>, s: State, before: seq<Id>, n: Node) {
    var links := LinksInto(nodes, n.id);
    links == []
    || if n.converge then forall l :: l in links ==> Fired(s, before, l)
       else exists l :: l in links && Fired(s, before, l)
  }

  predicate Fired(s: State, before: seq<Id>, l: Link) {
    l.from in before && l.from in s && Fires(l.kind, s[l.from]) == Some(true)
  }

  // ─── one round ───────────────────────────────────────────────────────────────

  lemma {:induction false} AllKnown(links: seq<Link>, s: State)
    requires forall j :: 0 <= j < |links| ==> links[j].from in s
    ensures KnownLinks(links, s) == links
  {
    if links != [] {
      var front, l := links[..|links| - 1], links[|links| - 1];
      assert links == front + [l];
      AllKnown(front, s);
    }
  }

  lemma {:induction false} LinksComeFromNodes(nodes: seq<Node>, id: Id)
    ensures forall l :: l in LinksInto(nodes, id) ==> l.from in Ids(nodes)
  {
    forall l | l in LinksInto(nodes, id) ensures l.from in Ids(nodes) {
      LinksIntoIff(nodes, id, l);
    }
  }

  /** A node the rule starts has its cause among the nodes that ran already. */
  lemma StartIsCaused(nodes: seq<Node>, s: State, before: seq<Id>, n: Node)
    requires s.Keys == Ids(nodes)
    requires forall id :: id in s && Fires(Always, s[id]) == Some(true) ==> id in before
    requires VerdictOf(nodes, s, n) == Start
    ensures Caused(nodes, s, before, n)
  {
    hide LinksInto;
    var links := LinksInto(nodes, n.id);
    LinksComeFromNodes(nodes, n.id);
    forall j | 0 <= j < |links| ensures links[j].from in s {
      assert links[j] in links;
    }
    AllKnown(links, s);
    StartIsFired(n.converge, links, s, before);
  }

  lemma StartIsFired(converge: bool, links: seq<Link>, s: State, before: seq<Id>)
    requires forall l :: l in links ==> l.from in s
    requires forall id :: id in s && Fires(Always, s[id]) == Some(true) ==> id in before
    requires Rule(converge, Outcomes(links, s)) == Start
    ensures links == []
            || if converge then forall l :: l in links ==> Fired(s, before, l)
               else exists l :: l in links && Fired(s, before, l)
  {
    var outcomes := Outcomes(links, s);
    if links != [] {
      if converge {
        forall l | l in links ensures Fired(s, before, l) {
          var j :| 0 <= j < |links| && links[j] == l;
          assert outcomes[j] in outcomes;
        }
      } else {
        var j :| 0 <= j < |outcomes| && outcomes[j] == Some(true);
        assert Fired(s, before, links[j]);
      }
    }
  }

  lemma CausedForGood(nodes: seq<Node>, s: State, t: State, before: seq<Id>, n: Node)
    requires Extends(s, t) && Caused(nodes, s, before, n)
    ensures Caused(nodes, t, before, n)
  {
    var links := LinksInto(nodes, n.id);
    forall l | Fired(s, before, l) ensures Fired(t, before, l) {
      FiresForGood(l, s, t);
    }
    if links != [] && !n.converge {
      var l :| l in links && Fired(s, before, l);
      assert Fired(t, before, l);
    }
  }

  lemma {:induction false} PickedOnce(list: seq<Node>, nodes: seq<Node>, state: State, want: Verdict)
    requires UniqueIds(list) && Known(list, state)
    ensures Distinct(Picked(list, nodes, state, want))
  {
    if list != [] {
      var front, n := list[..|list| - 1], list[|list| - 1];
      PickedOnce(front, nodes, state, want);
      PickedIff(front, nodes, state, want, n.id);
      forall m | m in front ensures m.id != n.id {
        var i :| 0 <= i < |front| && front[i] == m;
        assert list[i] == m;
      }
    }
  }

  // ─── every round ─────────────────────────────────────────────────────────────

  /** The order so far holds exactly what ran, each once, each after its cause. */
  ghost predicate Orderly(nodes: seq<Node>, r: Run) {
    && r.state.Keys == Ids(nodes)
    && Distinct(r.order)
    && (forall id :: id in r.order <==> id in r.state && HasRun(r.state[id]))
    && (forall i, n :: 0 <= i < |r.order| && n in nodes && n.id == r.order[i] ==>
          Caused(nodes, r.state, r.order[..i], n))
  }

  lemma NeverSkippedStatus(nodes: seq<Node>, failing: set<Id>, s: State)
    requires Justified(nodes, failing, s)
    ensures forall id :: id in s ==> s[id].status != Skipped
    ensures forall id :: id in s && s[id].doNotRun ==> s[id].status == Pending
  {
    forall id | id in s ensures s[id].status != Skipped && (s[id].doNotRun ==> s[id].status == Pending) {
      var n :| n in nodes && n.id == id;
      assert AsRuled(nodes, failing, s, n);
    }
  }

  lemma {:induction false} RanInRound(nodes: seq<Node>, failing: set<Id>, r: Run, id: Id)
    requires UniqueIds(nodes) && Justified(nodes, failing, r.state)
    ensures var start, t := Picked(nodes, nodes, r.state, Start), Round(nodes, failing, r).state;
            (id in start <==> id in t && HasRun(t[id]) && !HasRun(r.state[id]))
            && (id in r.state && HasRun(r.state[id]) ==> HasRun(t[id]))
            && (id in start ==> id in r.state && !HasRun(r.state[id]))
  {
    NeverSkippedStatus(nodes, failing, r.state);
    if id in r.state {
      var n :| n in nodes && n.id == id;
      PickedOne(nodes, r.state, Start, n);
      RoundSettles(nodes, failing, r, n);
    } else {
      PickedIff(nodes, nodes, r.state, Start, id);
    }
  }

  lemma RoundKeepsListed(nodes: seq<Node>, failing: set<Id>, r: Run)
    requires UniqueIds(nodes) && Justified(nodes, failing, r.state) && Orderly(nodes, r)
    ensures var next := Round(nodes, failing, r);
            Distinct(next.order) && forall id :: id in next.order <==> id in next.state && HasRun(next.state[id])
  {
    var start, next := Picked(nodes, nodes, r.state, Start), Round(nodes, failing, r);
    assert next.order == r.order + start;
    PickedOnce(nodes, nodes, r.state, Start);
    hide Round, Caused, Picked;
    forall id
      ensures id in next.order <==> id in next.state && HasRun(next.state[id])
      ensures id in start ==> id !in r.order
    {
      RanInRound(nodes, failing, r, id);
    }
    forall i, j | 0 <= i < j < |next.order| ensures next.order[i] != next.order[j] {
      if j >= |r.order| {
        assert start[j - |r.order|] in start;
        if i < |r.order| {
          assert r.order[i] in r.order;
        }
      }
    }
  }

  lemma RoundKeepsCaused(nodes: seq<Node>, failing: set<Id>, r: Run, i: nat, n: Node)
    requires UniqueIds(nodes) && Justified(nodes, failing, r.state) && Orderly(nodes, r)
    requires n in nodes && i < |Round(nodes, failing, r).order| && n.id == Round(nodes, failing, r).order[i]
    ensures Caused(nodes, Round(nodes, failing, r).state, Round(nodes, failing, r).order[..i], n)
  {
    var start, next := Picked(nodes, nodes, r.state, Start), Round(nodes, failing, r);
    assert next.order == r.order + start;
    RoundAdvances(nodes, failing, r);
    AdvanceKeeps(nodes, failing, r.state, next.state);
    hide Round, Caused, Picked;
    if i < |r.order| {
      assert next.order[..i] == r.order[..i];
    } else {
      assert start[i - |r.order|] in start;
      PickedOne(nodes, r.state, Start, n);
      RanAreListed(nodes, failing, r, next.order[..i]);
      StartIsCaused(nodes, r.state, next.order[..i], n);
    }
    CausedForGood(nodes, r.state, next.state, next.order[..i], n);
  }

  lemma RanAreListed(nodes: seq<Node>, failing: set<Id>, r: Run, before: seq<Id>)
    requires Justified(nodes, failing, r.state) && Orderly(nodes, r) && r.order <= before
    ensures forall id :: id in r.state && Fires(Always, r.state[id]) == Some(true) ==> id in before
  {
    hide Caused;
    NeverSkippedStatus(nodes, failing, r.state);
    forall id | id in r.state && Fires(Always, r.state[id]) == Some(true) ensures id in before {
      assert id in r.order;
    }
  }

  lemma RoundKeepsOrderly(nodes: seq<Node>, failing: set<Id>, r: Run)
    requires UniqueIds(nodes) && Justified(nodes, failing, r.state) && Orderly(nodes, r)
    ensures Orderly(nodes, Round(nodes, failing, r))
  {
    var next := Round(nodes, failing, r);
    hide Round, Caused;
    RoundKeepsListed(nodes, failing, r);
    forall i, n | 0 <= i < |next.order| && n in nodes && n.id == next.order[i]
      ensures Caused(nodes, next.state, next.order[..i], n)
    {
      RoundKeepsCaused(nodes, failing, r, i, n);
    }
  }

  lemma StartsOrderly(nodes: seq<Node>)
    ensures Orderly(nodes, Run(Initial(nodes), []))
  {
    hide Caused;
  }

  lemma {:induction false} RoundsOrderly(nodes: seq<Node>, failing: set<Id>, k: nat)
    requires UniqueIds(nodes)
    ensures Orderly(nodes, Rounds(nodes, failing, k))
  {
    hide Round, Orderly, Justified, Initial, UniqueIds;
    if k == 0 {
      StartsOrderly(nodes);
    } else {
      RoundsOrderly(nodes, failing, k - 1);
      RoundsJustified(nodes, failing, k - 1);
      RoundKeepsOrderly(nodes, failing, Rounds(nodes, failing, k - 1));
    }
  }

  /** The order of a run holds each node that ran exactly once, each after what caused it. */
  lemma EachIsCaused(nodes: seq<Node>, failing: set<Id>)
    requires UniqueIds(nodes)
    ensures var r := ResultOf(nodes, failing);
            && Distinct(r.order)
            && (forall id :: id in r.order <==> id in r.status && r.status[id] in {Was(Successful), Was(Failed)})
            && (forall i, n :: 0 <= i < |r.order| && n in nodes && n.id == r.order[i] ==>
                  Caused(nodes, FinalRun(nodes, failing).state, r.order[..i], n))
  {
    hide Rounds, Caused;
    RoundsOrderly(nodes, failing, |nodes| * 2 + 1);
    RoundsJustified(nodes, failing, |nodes| * 2 + 1);
    NeverSkippedStatus(nodes, failing, FinalRun(nodes, failing).state);
  }

  // ─── only the failures of nodes that run matter ──────────────────────────────

  lemma {:induction false} OrderGrows(nodes: seq<Node>, failing: set<Id>, k: nat, m: nat)
    requires k <= m
    ensures Rounds(nodes, failing, k).order <= Rounds(nodes, failing, m).order
  {
    hide Picked, AfterSkips, AfterStarts;
    if k < m {
      OrderGrows(nodes, failing, k, m - 1);
    }
  }

  lemma SameRound(nodes: seq<Node>, failing: set<Id>, failing': set<Id>, r: Run)
    requires Known(nodes, r.state)
    requires forall id :: id in Round(nodes, failing, r).order ==> (id in failing <==> id in failing')
    ensures Round(nodes, failing, r) == Round(nodes, failing', r)
  {
    var start := Picked(nodes, nodes, r.state, Start);
    forall id | id in start ensures Ran(id, failing) == Ran(id, failing') {
      assert id in Round(nodes, failing, r).order;
    }
  }

  lemma {:induction false} SameRounds(nodes: seq<Node>, failing: set<Id>, failing': set<Id>, k: nat)
    requires forall id :: id in Rounds(nodes, failing, k).order ==> (id in failing <==> id in failing')
    ensures Rounds(nodes, failing, k) == Rounds(nodes, failing', k)
  {
    hide Round;
    if k > 0 {
      OrderGrows(nodes, failing, k - 1, k);
      SameRounds(nodes, failing, failing', k - 1);
      SameRound(nodes, failing, failing', Rounds(nodes, failing, k - 1));
    }
  }

  /** Two runs told the same of the nodes that ran are the same run : whether a node that never runs
      is said to fail does not matter, in any workflow. */
  lemma OnlyRanFailuresMatter(nodes: seq<Node>, failing: set<Id>, failing': set<Id>)
    requires forall id :: id in ResultOf(nodes, failing).order ==> (id in failing <==> id in failing')
    ensures ResultOf(nodes, failing) == ResultOf(nodes, failing')
  {
    hide Rounds;
    SameRounds(nodes, failing, failing', |nodes| * 2 + 1);
  }
}
