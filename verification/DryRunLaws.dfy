/** What every dry run keeps : the order in which nodes are decided does not matter, the run goes as
    far as it can, and only a loop keeps a node from being reached. */
module DryRunLaws {
  import opened Wrappers
  import opened WorkflowModel
  import opened Graphs
  import opened DryRun

  // ─── what is known stays known ───────────────────────────────────────────────

  /** `t` knows all that `s` knows, and the same. */
  ghost predicate Extends(s: State, t: State) {
    s.Keys == t.Keys && forall id :: id in s && Decided(s[id]) ==> t[id] == s[id]
  }

  /** Once a link fires, or never will, it stays so. */
  lemma FiresForGood(link: Link, s: State, t: State)
    requires Extends(s, t) && link.from in s && Fires(link.kind, s[link.from]).Some?
    ensures Fires(link.kind, t[link.from]) == Fires(link.kind, s[link.from])
  {
    assert Decided(s[link.from]);
  }

  /** Whatever is known of some links, knowing more never takes back a verdict other than to wait. */
  lemma RuleForGood(converge: bool, before: seq<Option<bool>>, after: seq<Option<bool>>)
    requires |before| == |after| && Rule(converge, before) != Wait
    requires forall j :: 0 <= j < |before| && before[j].Some? ==> after[j] == before[j]
    ensures Rule(converge, after) == Rule(converge, before)
  {
    forall fired | Some(fired) in before ensures Some(fired) in after {
      var j :| 0 <= j < |before| && before[j] == Some(fired);
      assert after[j] == Some(fired);
    }
    if before != [] {
      assert before[0] in before && after[0] in after;
      forall fired | forall o :: o in before ==> o == Some(fired)
        ensures forall o :: o in after ==> o == Some(fired)
      {
        forall j | 0 <= j < |after| ensures after[j] == Some(fired) {
          assert before[j] in before;
        }
      }
    }
  }

  lemma {:induction false} SameKnownLinks(links: seq<Link>, s: State, t: State)
    requires s.Keys == t.Keys
    ensures KnownLinks(links, s) == KnownLinks(links, t)
  {
    if links != [] {
      SameKnownLinks(links[..|links| - 1], s, t);
    }
  }

  lemma OutcomesForGood(links: seq<Link>, s: State, t: State)
    requires Extends(s, t) && forall l :: l in links ==> l.from in s
    ensures forall j :: 0 <= j < |links| && Outcomes(links, s)[j].Some? ==>
      Outcomes(links, t)[j] == Outcomes(links, s)[j]
  {
    forall j | 0 <= j < |links| && Outcomes(links, s)[j].Some? ensures Outcomes(links, t)[j] == Outcomes(links, s)[j] {
      FiresForGood(links[j], s, t);
    }
  }

  /** A verdict other than to wait is never taken back. */
  lemma VerdictForGood(nodes: seq<Node>, s: State, t: State, n: Node)
    requires Extends(s, t) && VerdictOf(nodes, s, n) != Wait
    ensures VerdictOf(nodes, t, n) == VerdictOf(nodes, s, n)
  {
    var links := LinksInto(nodes, n.id);
    SameKnownLinks(links, s, t);
    var known := KnownLinks(links, s);
    OutcomesForGood(known, s, t);
    RuleForGood(n.converge, Outcomes(known, s), Outcomes(known, t));
  }

  // ─── every decision is what the rules say ────────────────────────────────────

  function Settled(v: Verdict, id: Id, failing: set<Id>): NodeState {
    match v
    case Wait => NodeState(Pending, false)
    case Start => NodeState(Ran(id, failing), false)
    case Skip => NodeState(Pending, true)
  }

  /** A node decided is as the rule says, given what is known now. */
  predicate AsRuled(nodes: seq<Node>, failing: set<Id>, s: State, n: Node)
    requires n.id in s
  {
    s[n.id] == NodeState(Pending, false) || s[n.id] == Settled(VerdictOf(nodes, s, n), n.id, failing)
  }

  ghost predicate Justified(nodes: seq<Node>, failing: set<Id>, s: State) {
    && s.Keys == Ids(nodes)
    && forall n {:trigger AsRuled(nodes, failing, s, n)} :: n in nodes ==> AsRuled(nodes, failing, s, n)
  }

  /** The node stays as it is, or moves as the rule says in `s`. */
  predicate MovesTo(nodes: seq<Node>, failing: set<Id>, s: State, t: State, n: Node)
    requires n.id in s && n.id in t
  {
    t[n.id] == s[n.id] || (!Decided(s[n.id]) && t[n.id] == Settled(VerdictOf(nodes, s, n), n.id, failing))
  }

  /** `t` is `s` with some of the nodes the rules allow to move, moved. */
  ghost predicate Advances(nodes: seq<Node>, failing: set<Id>, s: State, t: State) {
    Known(nodes, s) && s.Keys == t.Keys
    && forall n {:trigger MovesTo(nodes, failing, s, t, n)} :: n in nodes ==> MovesTo(nodes, failing, s, t, n)
  }

  lemma AdvanceKeeps(nodes: seq<Node>, failing: set<Id>, s: State, t: State)
    requires UniqueIds(nodes) && Justified(nodes, failing, s) && Advances(nodes, failing, s, t)
    ensures Extends(s, t) && Justified(nodes, failing, t)
  {
    forall id | id in s && Decided(s[id]) ensures t[id] == s[id] {
      var n :| n in nodes && n.id == id;
      assert MovesTo(nodes, failing, s, t, n);
    }
    forall n | n in nodes ensures AsRuled(nodes, failing, t, n) {
      assert AsRuled(nodes, failing, s, n) && MovesTo(nodes, failing, s, t, n);
      if VerdictOf(nodes, s, n) != Wait {
        VerdictForGood(nodes, s, t, n);
      }
    }
  }

  lemma SameNode(nodes: seq<Node>, m: Node, n: Node)
    requires UniqueIds(nodes) && m in nodes && n in nodes && m.id == n.id
    ensures m == n
  {
    var i :| 0 <= i < |nodes| && nodes[i] == m;
    var j :| 0 <= j < |nodes| && nodes[j] == n;
    if i < j {} else if j < i {}
  }

  lemma {:induction false} PickedOne(nodes: seq<Node>, state: State, want: Verdict, n: Node)
    requires UniqueIds(nodes) && Known(nodes, state) && n in nodes
    ensures n.id in Picked(nodes, nodes, state, want) <==> Moves(nodes, state, n, want)
  {
    PickedIff(nodes, nodes, state, want, n.id);
    forall m | m in nodes && m.id == n.id ensures m == n {
      SameNode(nodes, m, n);
    }
  }

  /** What one round does to each node ; start and skip never meet. */
  lemma RoundSettles(nodes: seq<Node>, failing: set<Id>, r: Run, n: Node)
    requires UniqueIds(nodes) && Known(nodes, r.state) && n in nodes
    ensures var s := r.state[n.id];
            Round(nodes, failing, r).state[n.id] ==
            if Decided(s) || VerdictOf(nodes, r.state, n) == Wait then s
            else Settled(VerdictOf(nodes, r.state, n), n.id, failing)
  {
    PickedOne(nodes, r.state, Start, n);
    PickedOne(nodes, r.state, Skip, n);
  }

  lemma RoundAdvances(nodes: seq<Node>, failing: set<Id>, r: Run)
    requires UniqueIds(nodes) && Known(nodes, r.state)
    ensures Advances(nodes, failing, r.state, Round(nodes, failing, r).state)
  {
    forall n | n in nodes ensures MovesTo(nodes, failing, r.state, Round(nodes, failing, r).state, n) {
      RoundSettles(nodes, failing, r, n);
    }
  }

  lemma {:induction false} RoundsJustified(nodes: seq<Node>, failing: set<Id>, k: nat)
    requires UniqueIds(nodes)
    ensures Justified(nodes, failing, Rounds(nodes, failing, k).state)
  {
    hide Round, MovesTo, VerdictOf;
    if k > 0 {
      RoundsJustified(nodes, failing, k - 1);
      var r := Rounds(nodes, failing, k - 1);
      RoundAdvances(nodes, failing, r);
      AdvanceKeeps(nodes, failing, r.state, Rounds(nodes, failing, k).state);
    }
  }

  // ─── the run goes as far as it can ───────────────────────────────────────────

  ghost function Undecided(s: State): set<Id> {
    set id | id in s && !Decided(s[id])
  }

  lemma RoundDecides(nodes: seq<Node>, failing: set<Id>, r: Run)
    requires Known(nodes, r.state) && !Stable(nodes, r.state)
    ensures |Undecided(Round(nodes, failing, r).state)| < |Undecided(r.state)|
  {
    var s, t := r.state, Round(nodes, failing, r).state;
    var n :| n in nodes && !Rests(nodes, s, n);
    PickedIff(nodes, nodes, s, Start, n.id);
    PickedIff(nodes, nodes, s, Skip, n.id);
    assert Moves(nodes, s, n, Start) || Moves(nodes, s, n, Skip);
    assert Decided(t[n.id]);
    assert Undecided(t) <= Undecided(s) - {n.id};
    SubsetSize(Undecided(t), Undecided(s) - {n.id});
  }

  lemma {:induction false} UndecidedShrinks(nodes: seq<Node>, failing: set<Id>, k: nat)
    ensures Stable(nodes, Rounds(nodes, failing, k).state)
            || |Undecided(Rounds(nodes, failing, k).state)| + k <= |Ids(nodes)|
  {
    hide Round, AsRuled, Rests, MovesTo, VerdictOf;
    if k == 0 {
      assert Undecided(Rounds(nodes, failing, 0).state) == Ids(nodes);
    } else {
      UndecidedShrinks(nodes, failing, k - 1);
      var r := Rounds(nodes, failing, k - 1);
      if Stable(nodes, r.state) {
        RoundStays(nodes, failing, r);
      } else {
        RoundDecides(nodes, failing, r);
      }
    }
  }

  /** The guard on the number of rounds never cuts a run short, whatever the workflow. */
  lemma GuardSuffices(nodes: seq<Node>, failing: set<Id>)
    ensures Stable(nodes, FinalRun(nodes, failing).state)
  {
    hide Rounds, Stable, Undecided;
    UndecidedShrinks(nodes, failing, |nodes| * 2 + 1);
    IdsSize(nodes);
  }

  /** Where a run ends, every node's state is exactly what the rules give it. */
  lemma FinalIsFixpoint(nodes: seq<Node>, failing: set<Id>, n: Node)
    requires UniqueIds(nodes) && n in nodes
    ensures var s := FinalRun(nodes, failing).state;
            s[n.id] == Settled(VerdictOf(nodes, s, n), n.id, failing)
  {
    hide Round, VerdictOf;
    GuardSuffices(nodes, failing);
    RoundsJustified(nodes, failing, |nodes| * 2 + 1);
    var s := FinalRun(nodes, failing).state;
    assert Rests(nodes, s, n) && AsRuled(nodes, failing, s, n);
  }

  // ─── one node at a time, in any order ────────────────────────────────────────

  /** The state after deciding the nodes of `schedule` one at a time (the rule of each read in the
      state of its turn) ; a turn the rules do not allow changes nothing. */
  ghost function After(nodes: seq<Node>, failing: set<Id>, schedule: seq<Node>): (s: State)
    ensures s.Keys == Ids(nodes)
  {
    if schedule == [] then Initial(nodes)
    else
      var s := After(nodes, failing, schedule[..|schedule| - 1]);
      var n := schedule[|schedule| - 1];
      if n in nodes && !Decided(s[n.id]) then s[n.id := Settled(VerdictOf(nodes, s, n), n.id, failing)] else s
  }

  lemma {:induction false} AfterAdvances(nodes: seq<Node>, failing: set<Id>, schedule: seq<Node>)
    requires UniqueIds(nodes) && schedule != []
    ensures Advances(nodes, failing, After(nodes, failing, schedule[..|schedule| - 1]), After(nodes, failing, schedule))
  {
    var s, t := After(nodes, failing, schedule[..|schedule| - 1]), After(nodes, failing, schedule);
    var n := schedule[|schedule| - 1];
    forall m | m in nodes ensures MovesTo(nodes, failing, s, t, m)
    {
      if n in nodes && m.id == n.id {
        SameNode(nodes, m, n);
      }
    }
  }

  lemma {:induction false} AfterJustified(nodes: seq<Node>, failing: set<Id>, schedule: seq<Node>)
    requires UniqueIds(nodes)
    ensures Justified(nodes, failing, After(nodes, failing, schedule))
  {
    if schedule != [] {
      AfterJustified(nodes, failing, schedule[..|schedule| - 1]);
      AfterAdvances(nodes, failing, schedule);
      AdvanceKeeps(nodes, failing, After(nodes, failing, schedule[..|schedule| - 1]), After(nodes, failing, schedule));
    }
  }

  /** A state that can be advanced to from one below an end is below that end as well. */
  lemma AdvanceStaysBelow(nodes: seq<Node>, failing: set<Id>, s: State, t: State, end: State)
    requires UniqueIds(nodes) && Advances(nodes, failing, s, t) && Extends(s, end)
    requires Justified(nodes, failing, end) && Stable(nodes, end)
    ensures Extends(t, end)
  {
    forall id | id in t && Decided(t[id]) ensures end[id] == t[id] {
      var n :| n in nodes && n.id == id;
      assert MovesTo(nodes, failing, s, t, n) && AsRuled(nodes, failing, end, n) && Rests(nodes, end, n);
      if t[id] != s[id] {
        VerdictForGood(nodes, s, end, n);
      }
    }
  }

  lemma {:induction false} AfterBelow(nodes: seq<Node>, failing: set<Id>, schedule: seq<Node>, end: State)
    requires UniqueIds(nodes) && Justified(nodes, failing, end) && Stable(nodes, end)
    ensures Extends(After(nodes, failing, schedule), end)
  {
    if schedule != [] {
      AfterBelow(nodes, failing, schedule[..|schedule| - 1], end);
      AfterAdvances(nodes, failing, schedule);
      var before, after := After(nodes, failing, schedule[..|schedule| - 1]), After(nodes, failing, schedule);
      AdvanceStaysBelow(nodes, failing, before, after, end);
    }
  }

  lemma {:induction false} RoundsBelow(nodes: seq<Node>, failing: set<Id>, k: nat, end: State)
    requires UniqueIds(nodes) && Justified(nodes, failing, end) && Stable(nodes, end)
    ensures Extends(Rounds(nodes, failing, k).state, end)
  {
    hide Round, AsRuled, Rests, MovesTo, VerdictOf;
    if k > 0 {
      RoundsBelow(nodes, failing, k - 1, end);
      var r := Rounds(nodes, failing, k - 1);
      RoundAdvances(nodes, failing, r);
      AdvanceStaysBelow(nodes, failing, r.state, Rounds(nodes, failing, k).state, end);
    }
  }

  lemma TwoEndsMeet(nodes: seq<Node>, failing: set<Id>, s: State, t: State)
    requires Extends(s, t) && Extends(t, s) && Justified(nodes, failing, s) && Justified(nodes, failing, t)
    ensures s == t
  {
    forall id | id in s ensures s[id] == t[id] {
      var n :| n in nodes && n.id == id;
      assert AsRuled(nodes, failing, s, n) && AsRuled(nodes, failing, t, n);
    }
  }

  /** An end that the run's own end is not beyond, is the run's own end. */
  lemma OneEnd(nodes: seq<Node>, failing: set<Id>, s: State)
    requires UniqueIds(nodes) && Justified(nodes, failing, s) && Stable(nodes, s)
    requires Extends(s, FinalRun(nodes, failing).state)
    ensures s == FinalRun(nodes, failing).state
  {
    hide Rounds;
    var k := |nodes| * 2 + 1;
    RoundsJustified(nodes, failing, k);
    RoundsBelow(nodes, failing, k, s);
    TwoEndsMeet(nodes, failing, s, Rounds(nodes, failing, k).state);
  }

  lemma FinalIsEnd(nodes: seq<Node>, failing: set<Id>)
    requires UniqueIds(nodes)
    ensures Justified(nodes, failing, FinalRun(nodes, failing).state) && Stable(nodes, FinalRun(nodes, failing).state)
  {
    hide Rounds;
    GuardSuffices(nodes, failing);
    RoundsJustified(nodes, failing, |nodes| * 2 + 1);
  }

  /** Schedule independence : nodes decided one at a time, in any order whatever, until nothing is
      left to decide, end exactly as the dry run ends. */
  lemma {:induction false} ScheduleIndependence(nodes: seq<Node>, failing: set<Id>, schedule: seq<Node>)
    requires UniqueIds(nodes)
    requires Stable(nodes, After(nodes, failing, schedule))
    ensures StatusOf(After(nodes, failing, schedule)) == ResultOf(nodes, failing).status
  {
    hide Rounds, After, Justified, Stable;
    FinalIsEnd(nodes, failing);
    AfterJustified(nodes, failing, schedule);
    AfterBelow(nodes, failing, schedule, FinalRun(nodes, failing).state);
    OneEnd(nodes, failing, After(nodes, failing, schedule));
  }

  // ─── the order the file lists its nodes in ───────────────────────────────────

  lemma SameRule(converge: bool, xs: seq<Option<bool>>, ys: seq<Option<bool>>)
    requires forall o :: o in xs <==> o in ys
    ensures Rule(converge, xs) == Rule(converge, ys)
  {
    if xs != [] {
      assert xs[0] in ys;
    }
    if ys != [] {
      assert ys[0] in xs;
    }
  }

  lemma SameOutcomes(links: seq<Link>, links': seq<Link>, s: State)
    requires forall l :: l in links <==> l in links'
    requires forall l :: l in links ==> l.from in s
    ensures forall o :: o in Outcomes(links, s) ==> o in Outcomes(links', s)
  {
    forall o | o in Outcomes(links, s) ensures o in Outcomes(links', s) {
      var j :| 0 <= j < |links| && Outcomes(links, s)[j] == o;
      assert links[j] in links';
      var k :| 0 <= k < |links'| && links'[k] == links[j];
      assert Outcomes(links', s)[k] == o;
    }
  }

  lemma SameVerdict(nodes: seq<Node>, nodes': seq<Node>, s: State, n: Node)
    requires multiset(nodes) == multiset(nodes')
    ensures VerdictOf(nodes, s, n) == VerdictOf(nodes', s, n)
  {
    SameMembers(nodes, nodes');
    var links, links' := LinksInto(nodes, n.id), LinksInto(nodes', n.id);
    forall l ensures l in links <==> l in links' {
      LinksIntoIff(nodes, n.id, l);
      LinksIntoIff(nodes', n.id, l);
    }
    var known, known' := KnownLinks(links, s), KnownLinks(links', s);
    SameOutcomes(known, known', s);
    SameOutcomes(known', known, s);
    SameRule(n.converge, Outcomes(known, s), Outcomes(known', s));
  }

  lemma SameMembers(nodes: seq<Node>, nodes': seq<Node>)
    requires multiset(nodes) == multiset(nodes')
    ensures forall n :: n in nodes <==> n in nodes'
    ensures Ids(nodes) == Ids(nodes')
  {
    assert forall n :: n in nodes <==> n in multiset(nodes);
    assert forall n :: n in nodes' <==> n in multiset(nodes');
  }

  lemma SameEnd(nodes: seq<Node>, nodes': seq<Node>, failing: set<Id>, s: State)
    requires multiset(nodes) == multiset(nodes') && Justified(nodes, failing, s) && Stable(nodes, s)
    ensures Justified(nodes', failing, s) && Stable(nodes', s)
  {
    SameMembers(nodes, nodes');
    forall n | n in nodes' ensures AsRuled(nodes', failing, s, n) && Rests(nodes', s, n) {
      SameVerdict(nodes, nodes', s, n);
      assert AsRuled(nodes, failing, s, n) && Rests(nodes, s, n);
    }
  }

  /** Reordering the nodes of the file changes no node's status and not the verdict either. */
  lemma ReorderingChangesNoStatus(nodes: seq<Node>, nodes': seq<Node>, failing: set<Id>)
    requires UniqueIds(nodes) && UniqueIds(nodes') && multiset(nodes) == multiset(nodes')
    ensures ResultOf(nodes, failing).status == ResultOf(nodes', failing).status
    ensures ResultOf(nodes, failing).failed == ResultOf(nodes', failing).failed
  {
    hide Rounds, Justified, Stable;
    SameMembers(nodes, nodes');
    var s := FinalRun(nodes, failing).state;
    FinalIsEnd(nodes, failing);
    FinalIsEnd(nodes', failing);
    SameEnd(nodes, nodes', failing, s);
    SameEnd(nodes', nodes, failing, FinalRun(nodes', failing).state);
    RoundsBelow(nodes, failing, |nodes| * 2 + 1, FinalRun(nodes', failing).state);
    OneEnd(nodes', failing, s);
  }

  // ─── only a loop keeps a node from being reached ─────────────────────────────

  /** A node left waiting waits for a parent that is left waiting. */
  lemma WaitsForParent(nodes: seq<Node>, s: State, n: Node) returns (from: Id)
    requires s.Keys == Ids(nodes) && Stable(nodes, s) && n in nodes && !Decided(s[n.id])
    ensures from in s && !Decided(s[from]) && (from, n.id) in Edges(nodes)
  {
    assert Rests(nodes, s, n);
    var links := KnownLinks(LinksInto(nodes, n.id), s);
    var outcomes := Outcomes(links, s);
    var j := SomeUnknown(n.converge, outcomes);
    LinkIsEdge(nodes, links[j], n.id);
    from := links[j].from;
  }

  lemma OnlyThree(o: Option<bool>)
    ensures o == None || o == Some(true) || o == Some(false)
  {
    if o.Some? && o.value {
    }
  }

  lemma SomeUnknown(converge: bool, outcomes: seq<Option<bool>>) returns (j: nat)
    requires Rule(converge, outcomes) == Wait
    ensures j < |outcomes| && outcomes[j] == None
  {
    if converge {
      var o :| o in outcomes && o != Some(true);
      assert o != Some(false);
      j :| 0 <= j < |outcomes| && outcomes[j] == o;
    } else {
      var o :| o in outcomes && o != Some(false);
      j :| 0 <= j < |outcomes| && outcomes[j] == o;
    }
    OnlyThree(outcomes[j]);
  }

  lemma {:induction false} WaitingChain(nodes: seq<Node>, s: State, id: Id, k: nat) returns (p: seq<Id>)
    requires s.Keys == Ids(nodes) && Stable(nodes, s) && id in s && !Decided(s[id])
    ensures |p| == k + 1 && Walk(Edges(nodes), p) && p[k] == id
    ensures forall v :: v in p ==> v in s && !Decided(s[v])
  {
    if k == 0 {
      p := [id];
    } else {
      var q := WaitingChain(nodes, s, id, k - 1);
      assert q[0] in q;
      var n :| n in nodes && n.id == q[0];
      var from := WaitsForParent(nodes, s, n);
      Prepended(Edges(nodes), from, q);
      p := [from] + q;
    }
  }

  /** A node the run never reaches has a loop among its ancestors, all of it never reached. */
  lemma PendingIsBehindLoop(nodes: seq<Node>, failing: set<Id>, id: Id) returns (walk: seq<Id>)
    requires id in Ids(nodes) && ResultOf(nodes, failing).status[id] == Was(Pending)
    ensures Walk(Edges(nodes), walk) && walk[|walk| - 1] == id
    ensures OnLoop(Edges(nodes), walk[0])
    ensures forall v :: v in walk ==> v in Ids(nodes) && ResultOf(nodes, failing).status[v] == Was(Pending)
  {
    hide Rounds;
    GuardSuffices(nodes, failing);
    var s := FinalRun(nodes, failing).state;
    var p := WaitingChain(nodes, s, id, |Ids(nodes)|);
    assert Elements(p) <= Ids(nodes);
    var i := LongWalkLoops(Edges(nodes), p, Ids(nodes));
    Slice(Edges(nodes), p, i, |p|);
    walk := p[i..];
    assert walk == p[i..|p|];
  }

  /** A workflow without a loop leaves no node pending. */
  lemma AcyclicLeavesNonePending(nodes: seq<Node>, failing: set<Id>, id: Id)
    requires Acyclic(Edges(nodes)) && id in Ids(nodes)
    ensures ResultOf(nodes, failing).status[id] != Was(Pending)
  {
    if ResultOf(nodes, failing).status[id] == Was(Pending) {
      var walk := PendingIsBehindLoop(nodes, failing, id);
      assert false;
    }
  }
}
