/** The scheduler of a workflow's dry run : which nodes start, which never will, round by round,
    until nothing more moves. */
module DryRun {
  import opened Wrappers
  import opened WorkflowModel
  import opened Graphs

  // ─── one node's state, one link's outcome ────────────────────────────────────

  datatype Status = Pending | Successful | Failed | Skipped

  datatype NodeState = NodeState(status: Status, doNotRun: bool)

  type State = map<Id, NodeState>

  /** A node the scheduler is done with : it ran, or it never will. */
  predicate Decided(s: NodeState) {
    s.status != Pending || s.doNotRun
  }

  /** Whether a link fires : Some(true) it does, Some(false) it never will, None not known yet. */
  function Fires(kind: Kind, parent: NodeState): Option<bool> {
    if parent.doNotRun then Some(false)
    else if parent.status == Skipped then Some(kind != Failure)
    else if parent.status != Successful && parent.status != Failed then None
    else if kind == Always then Some(true)
    else Some(if kind == Success then parent.status == Successful else parent.status == Failed)
  }

  // ─── the rule for one node, whatever the order its links are listed in ───────

  datatype Verdict = Start | Skip | Wait

  predicate Known(nodes: seq<Node>, state: State) {
    Ids(nodes) <= state.Keys
  }

  /** Of the links into a node, those whose node the state knows. */
  function KnownLinks(links: seq<Link>, state: State): (known: seq<Link>)
    ensures forall l :: l in known <==> l in links && l.from in state
  {
    if links == [] then []
    else KnownLinks(links[..|links| - 1], state) + var l := links[|links| - 1]; if l.from in state then [l] else []
  }

  /** What is known of each link. */
  function Outcomes(links: seq<Link>, state: State): (outcomes: seq<Option<bool>>)
    requires forall l :: l in links ==> l.from in state
    ensures |outcomes| == |links|
    ensures forall j :: 0 <= j < |links| ==>
      links[j] in links && outcomes[j] == Fires(links[j].kind, state[links[j].from])
  {
    seq(|links|, j requires 0 <= j < |links| && links[j] in links => Fires(links[j].kind, state[links[j].from]))
  }

  /** AWX's rule : a node without a parent starts ; one whose parents must converge starts when every
      link into it fired and is skipped as soon as one never will ; any other starts as soon as one
      link fired and is skipped when none ever will. */
  function Rule(converge: bool, outcomes: seq<Option<bool>>): Verdict {
    if outcomes == [] then Start
    else if converge then
      if Some(false) in outcomes then Skip
      else if forall o :: o in outcomes ==> o == Some(true) then Start
      else Wait
    else
      if Some(true) in outcomes then Start
      else if forall o :: o in outcomes ==> o == Some(false) then Skip
      else Wait
  }

  function VerdictOf(nodes: seq<Node>, state: State, n: Node): Verdict {
    Rule(n.converge, Outcomes(KnownLinks(LinksInto(nodes, n.id), state), state))
  }

  predicate Moves(nodes: seq<Node>, state: State, n: Node, want: Verdict)
    requires n.id in state
  {
    !Decided(state[n.id]) && VerdictOf(nodes, state, n) == want
  }

  /** The identifiers of the nodes of `list` that get this verdict now, in the list's order. */
  function Picked(list: seq<Node>, nodes: seq<Node>, state: State, want: Verdict): seq<Id>
    requires Known(list, state)
  {
    if list == [] then []
    else
      var n := list[|list| - 1];
      Picked(list[..|list| - 1], nodes, state, want) + if Moves(nodes, state, n, want) then [n.id] else []
  }

  lemma {:induction false} PickedIff(list: seq<Node>, nodes: seq<Node>, state: State, want: Verdict, id: Id)
    requires Known(list, state)
    ensures id in Picked(list, nodes, state, want) <==>
            exists n {:trigger Moves(nodes, state, n, want)} :: n in list && n.id == id && Moves(nodes, state, n, want)
  {
    if list == [] {
    } else {
      var front, n := list[..|list| - 1], list[|list| - 1];
      assert list == front + [n];
      PickedIff(front, nodes, state, want, id);
    }
  }

  // ─── the same rule, said of the nodes' own lists ─────────────────────────────

  /** How a node has ended, for the links out of it. */
  datatype End = Well | Badly | NotAtAll | NotYet

  function EndOf(s: NodeState): End {
    if s.doNotRun then NotAtAll
    else
      match s.status
      case Successful => Well
      case Failed => Badly
      case Skipped => Well
      case Pending => NotYet
  }

  function EndsOf(state: State): (ends: map<Id, End>)
    ensures ends.Keys == state.Keys
  {
    map id | id in state :: EndOf(state[id])
  }

  /** A link from `p` leads to the node, of whatever kind. */
  predicate LeadsTo(p: Node, to: Id) {
    to in p.success || to in p.failure || to in p.always
  }

  /** Of the links from `p` to the node, one asks for the end `p` has. */
  predicate SomeHolds(p: Node, to: Id, e: End) {
    || (to in p.success && e == Well)
    || (to in p.failure && e == Badly)
    || (to in p.always && (e == Well || e == Badly))
  }

  /** Each of them does. */
  predicate AllHold(p: Node, to: Id, e: End) {
    && (to in p.success ==> e == Well)
    && (to in p.failure ==> e == Badly)
    && (to in p.always ==> e == Well || e == Badly)
  }

  /** One of them asks for an end that `p` can no longer have. */
  predicate SomeNever(p: Node, to: Id, e: End) {
    || (to in p.success && (e == Badly || e == NotAtAll))
    || (to in p.failure && (e == Well || e == NotAtAll))
    || (to in p.always && e == NotAtAll)
  }

  /** Each of them does. */
  predicate AllNever(p: Node, to: Id, e: End) {
    && (to in p.success ==> e == Badly || e == NotAtAll)
    && (to in p.failure ==> e == Well || e == NotAtAll)
    && (to in p.always ==> e == NotAtAll)
  }

  ghost predicate HasParent(nodes: seq<Node>, to: Id) {
    exists p :: p in nodes && LeadsTo(p, to)
  }

  /** What makes the node run is there : it has no parent, or a link into it holds, or each of them does
      when its parents must converge. */
  ghost predicate Called(nodes: seq<Node>, ends: map<Id, End>, n: Node)
    requires Ids(nodes) <= ends.Keys
  {
    HasParent(nodes, n.id) ==>
      if n.converge then forall p :: p in nodes ==> AllHold(p, n.id, ends[p.id])
      else exists p :: p in nodes && SomeHolds(p, n.id, ends[p.id])
  }

  /** Nothing will make it run any more : no link into it ever holds, or one never does when its parents
      must converge. */
  ghost predicate Barred(nodes: seq<Node>, ends: map<Id, End>, n: Node)
    requires Ids(nodes) <= ends.Keys
  {
    && HasParent(nodes, n.id)
    && if n.converge then exists p :: p in nodes && SomeNever(p, n.id, ends[p.id])
       else forall p :: p in nodes ==> AllNever(p, n.id, ends[p.id])
  }

  lemma OneParent(p: Node, to: Id, s: NodeState)
    ensures SomeHolds(p, to, EndOf(s)) <==> exists k: Kind :: to in p.Links(k) && Fires(k, s) == Some(true)
    ensures SomeNever(p, to, EndOf(s)) <==> exists k: Kind :: to in p.Links(k) && Fires(k, s) == Some(false)
    ensures AllHold(p, to, EndOf(s)) <==> forall k: Kind :: to in p.Links(k) ==> Fires(k, s) == Some(true)
    ensures AllNever(p, to, EndOf(s)) <==> forall k: Kind :: to in p.Links(k) ==> Fires(k, s) == Some(false)
    ensures LeadsTo(p, to) <==> exists k: Kind :: to in p.Links(k)
  {
    assert p.Links(Success) == p.success && p.Links(Failure) == p.failure && p.Links(Always) == p.always;
  }

  lemma OutcomeOfLink(links: seq<Link>, state: State, o: Option<bool>)
    requires forall l :: l in links ==> l.from in state
    ensures o in Outcomes(links, state) <==> exists l :: l in links && Fires(l.kind, state[l.from]) == o
  {
    hide Fires;
    var outcomes := Outcomes(links, state);
    if o in outcomes {
      var j :| 0 <= j < |outcomes| && outcomes[j] == o;
      assert links[j] in links;
    }
    if l :| l in links && Fires(l.kind, state[l.from]) == o {
      var j :| 0 <= j < |links| && links[j] == l;
      assert outcomes[j] == o;
    }
  }

  lemma {:induction false} LinkOfNode(nodes: seq<Node>, state: State, to: Id, l: Link)
    requires Known(nodes, state)
    ensures l in KnownLinks(LinksInto(nodes, to), state) <==>
            exists p :: p in nodes && p.id == l.from && to in p.Links(l.kind)
  {
    hide LinksInto;
    LinksIntoIff(nodes, to, l);
    if p :| p in nodes && p.id == l.from && to in p.Links(l.kind) {
      assert p.id in Ids(nodes);
    }
  }

  /** An outcome is that of a link some node has to this one. */
  lemma {:induction false} OutcomeIff(nodes: seq<Node>, state: State, to: Id, o: Option<bool>)
    requires Known(nodes, state)
    ensures o in Outcomes(KnownLinks(LinksInto(nodes, to), state), state) <==>
            exists p, k: Kind :: p in nodes && to in p.Links(k) && Fires(k, state[p.id]) == o
  {
    var links := KnownLinks(LinksInto(nodes, to), state);
    hide Fires, LinksInto, KnownLinks, Outcomes;
    OutcomeOfLink(links, state, o);
    if l :| l in links && Fires(l.kind, state[l.from]) == o {
      LinkOfNode(nodes, state, to, l);
    }
    if p, k: Kind :| p in nodes && to in p.Links(k) && Fires(k, state[p.id]) == o {
      LinkOfNode(nodes, state, to, Link(p.id, k));
    }
  }

  lemma {:induction false} NoOutcomeIff(nodes: seq<Node>, state: State, to: Id)
    requires Known(nodes, state)
    ensures Outcomes(KnownLinks(LinksInto(nodes, to), state), state) == [] <==> !HasParent(nodes, to)
  {
    hide Fires, LeadsTo, Outcomes;
    var outcomes := Outcomes(KnownLinks(LinksInto(nodes, to), state), state);
    if HasParent(nodes, to) {
      var p :| p in nodes && LeadsTo(p, to);
      OneParent(p, to, state[p.id]);
      var k: Kind :| to in p.Links(k);
      OutcomeIff(nodes, state, to, Fires(k, state[p.id]));
    }
    if outcomes != [] {
      OutcomeIff(nodes, state, to, outcomes[0]);
      var p, k: Kind :| p in nodes && to in p.Links(k) && Fires(k, state[p.id]) == outcomes[0];
      OneParent(p, to, state[p.id]);
    }
  }

  lemma {:induction false} SomeOutcome(nodes: seq<Node>, state: State, to: Id)
    requires Known(nodes, state)
    ensures var outcomes := Outcomes(KnownLinks(LinksInto(nodes, to), state), state);
            && (Some(true) in outcomes <==> exists p :: p in nodes && SomeHolds(p, to, EndsOf(state)[p.id]))
            && (Some(false) in outcomes <==> exists p :: p in nodes && SomeNever(p, to, EndsOf(state)[p.id]))
  {
    hide Fires, SomeHolds, SomeNever, AllHold, AllNever, Outcomes;
    OutcomeIff(nodes, state, to, Some(true));
    OutcomeIff(nodes, state, to, Some(false));
    forall p | p in nodes
      ensures SomeHolds(p, to, EndsOf(state)[p.id]) <==>
              exists k: Kind :: to in p.Links(k) && Fires(k, state[p.id]) == Some(true)
      ensures SomeNever(p, to, EndsOf(state)[p.id]) <==>
              exists k: Kind :: to in p.Links(k) && Fires(k, state[p.id]) == Some(false)
    {
      OneParent(p, to, state[p.id]);
    }
  }

  lemma {:induction false} AllOutcomes(nodes: seq<Node>, state: State, to: Id, b: bool)
    requires Known(nodes, state)
    ensures (forall o :: o in Outcomes(KnownLinks(LinksInto(nodes, to), state), state) ==> o == Some(b)) <==>
            forall p :: p in nodes ==>
              if b then AllHold(p, to, EndsOf(state)[p.id]) else AllNever(p, to, EndsOf(state)[p.id])
  {
    hide Fires, SomeHolds, SomeNever, AllHold, AllNever, Outcomes;
    var outcomes := Outcomes(KnownLinks(LinksInto(nodes, to), state), state);
    forall p | p in nodes
      ensures (if b then AllHold(p, to, EndsOf(state)[p.id]) else AllNever(p, to, EndsOf(state)[p.id])) <==>
              forall k: Kind :: to in p.Links(k) ==> Fires(k, state[p.id]) == Some(b)
    {
      OneParent(p, to, state[p.id]);
    }
    hide EndsOf;
    forall p, k: Kind | p in nodes && to in p.Links(k) ensures Fires(k, state[p.id]) in outcomes {
      OutcomeIff(nodes, state, to, Fires(k, state[p.id]));
    }
    forall o | o in outcomes ensures exists p, k: Kind :: p in nodes && to in p.Links(k) && Fires(k, state[p.id]) == o {
      OutcomeIff(nodes, state, to, o);
    }
  }

  lemma RuleIs(converge: bool, outcomes: seq<Option<bool>>)
    ensures Rule(converge, outcomes) == Start <==>
            || outcomes == []
            || if converge then forall o :: o in outcomes ==> o == Some(true) else Some(true) in outcomes
    ensures Rule(converge, outcomes) == Skip <==>
            && outcomes != []
            && if converge then Some(false) in outcomes else forall o :: o in outcomes ==> o == Some(false)
  {
    if outcomes != [] { assert outcomes[0] in outcomes; }
  }

  /** The verdict of a node, from what its parents came to. */
  lemma VerdictIs(nodes: seq<Node>, state: State, n: Node)
    requires Known(nodes, state)
    ensures VerdictOf(nodes, state, n) == Start <==> Called(nodes, EndsOf(state), n)
    ensures VerdictOf(nodes, state, n) == Skip <==> Barred(nodes, EndsOf(state), n)
  {
    hide Outcomes, KnownLinks, LinksInto, HasParent, SomeHolds, SomeNever, AllHold, AllNever, EndsOf, Rule;
    var outcomes := Outcomes(KnownLinks(LinksInto(nodes, n.id), state), state);
    RuleIs(n.converge, outcomes);
    NoOutcomeIff(nodes, state, n.id);
    SomeOutcome(nodes, state, n.id);
    AllOutcomes(nodes, state, n.id, true);
    AllOutcomes(nodes, state, n.id, false);
  }

  /** A node of the one identifier is listed before one of the other. */
  ghost predicate ListedBefore(nodes: seq<Node>, a: Id, b: Id) {
    exists i, j :: 0 <= i < j < |nodes| && nodes[i].id == a && nodes[j].id == b
  }

  /** The identifiers stand in the order of the file. */
  ghost predicate InFileOrder(ids: seq<Id>, nodes: seq<Node>) {
    forall x, y :: 0 <= x < y < |ids| ==> ListedBefore(nodes, ids[x], ids[y])
  }

  lemma ListedInFront(front: seq<Node>, n: Node, a: Id, b: Id)
    ensures ListedBefore(front, a, b) ==> ListedBefore(front + [n], a, b)
    ensures a in Ids(front) ==> ListedBefore(front + [n], a, n.id)
  {
    var list := front + [n];
    if ListedBefore(front, a, b) {
      var i, j :| 0 <= i < j < |front| && front[i].id == a && front[j].id == b;
      assert list[i].id == a && list[j].id == b;
    }
    if a in Ids(front) {
      var m :| m in front && m.id == a;
      var i :| 0 <= i < |front| && front[i] == m;
      assert list[i].id == a && list[|front|].id == n.id;
    }
  }

  lemma {:induction false} PickedInOrder(list: seq<Node>, nodes: seq<Node>, state: State, want: Verdict)
    requires Known(list, state)
    ensures InFileOrder(Picked(list, nodes, state, want), list)
  {
    hide Moves, ListedBefore;
    if list != [] {
      var front, n := list[..|list| - 1], list[|list| - 1];
      assert list == front + [n];
      var picked, all := Picked(front, nodes, state, want), Picked(list, nodes, state, want);
      PickedInOrder(front, nodes, state, want);
      forall x, y | 0 <= x < y < |all| ensures ListedBefore(list, all[x], all[y]) {
        PickedIff(front, nodes, state, want, picked[x]);
        ListedInFront(front, n, all[x], all[y]);
      }
    }
  }

  /** The node has not been decided. */
  predicate Waiting(s: NodeState) {
    s == NodeState(Pending, false)
  }

  lemma {:induction false} PickedAre(nodes: seq<Node>, state: State, id: Id)
    requires Known(nodes, state)
    ensures id in Picked(nodes, nodes, state, Start) <==>
            exists n :: n in nodes && n.id == id && Waiting(state[id]) && Called(nodes, EndsOf(state), n)
    ensures id in Picked(nodes, nodes, state, Skip) <==>
            exists n :: n in nodes && n.id == id && Waiting(state[id]) && Barred(nodes, EndsOf(state), n)
  {
    hide Picked, VerdictOf, Called, Barred;
    PickedIff(nodes, nodes, state, Start, id);
    PickedIff(nodes, nodes, state, Skip, id);
    forall n | n in nodes
      ensures Moves(nodes, state, n, Start) <==> Waiting(state[n.id]) && Called(nodes, EndsOf(state), n)
      ensures Moves(nodes, state, n, Skip) <==> Waiting(state[n.id]) && Barred(nodes, EndsOf(state), n)
    {
      VerdictIs(nodes, state, n);
    }
  }

  // ─── the next step of a run ──────────────────────────────────────────────────

  /** One node's links of one kind, each noted at the node it leads to (an unknown one dropped). */
  method AddLinks(parents: map<Id, seq<Link>>, link: Link, targets: seq<Id>) returns (more: map<Id, seq<Link>>)
    ensures more.Keys == parents.Keys
    ensures forall id :: id in parents ==> more[id] == parents[id] + Repeated(link, targets, id)
  {
    more := parents;
    for j := 0 to |targets|
      invariant more.Keys == parents.Keys
      invariant forall id :: id in parents ==> more[id] == parents[id] + Repeated(link, targets[..j], id)
    {
      if targets[j] in more {
        more := more[targets[j] := more[targets[j]] + [link]];
      }
      assert targets[..j + 1][..j] == targets[..j];
    }
    assert targets[..|targets|] == targets;
  }

  method AddNode(parents: map<Id, seq<Link>>, n: Node) returns (more: map<Id, seq<Link>>)
    ensures more.Keys == parents.Keys
    ensures forall id :: id in parents ==> more[id] == parents[id] + LinksFrom(n, id)
  {
    var bySuccess := AddLinks(parents, Link(n.id, Success), n.success);
    var byFailure := AddLinks(bySuccess, Link(n.id, Failure), n.failure);
    more := AddLinks(byFailure, Link(n.id, Always), n.always);
  }

  /** The links into each node. */
  method ParentsOf(nodes: seq<Node>) returns (parents: map<Id, seq<Link>>)
    ensures parents.Keys == Ids(nodes)
    ensures forall id :: id in parents ==> parents[id] == LinksInto(nodes, id)
  {
    hide LinksFrom, Ids;
    parents := map id | id in Ids(nodes) :: [];
    for i := 0 to |nodes|
      invariant parents.Keys == Ids(nodes)
      invariant forall id :: id in parents ==> parents[id] == LinksInto(nodes[..i], id)
    {
      parents := AddNode(parents, nodes[i]);
      assert nodes[..i + 1][..i] == nodes[..i];
    }
    assert nodes[..|nodes|] == nodes;
  }

  lemma {:induction false} PickedNone(nodes: seq<Node>, state: State)
    ensures Known(nodes[..0], state) && forall want :: Picked(nodes[..0], nodes, state, want) == []
  {
  }

  lemma {:induction false} PickedNext(nodes: seq<Node>, state: State, i: nat)
    requires Known(nodes, state) && i < |nodes|
    ensures Known(nodes[..i], state) && Known(nodes[..i + 1], state) && nodes[i].id in state
    ensures forall want :: Picked(nodes[..i + 1], nodes, state, want) ==
              Picked(nodes[..i], nodes, state, want) + if Moves(nodes, state, nodes[i], want) then [nodes[i].id] else []
  {
    hide Moves;
    assert nodes[i].id in Ids(nodes);
    assert nodes[..i + 1][..i] == nodes[..i];
  }

  /** The nodes that start and those that never will, in the workflow's order. */
  method NextStep(nodes: seq<Node>, state: State) returns (start: seq<Id>, skip: seq<Id>)
    requires Known(nodes, state)
    ensures forall id :: id in start <==>
              exists n :: n in nodes && n.id == id && Waiting(state[id]) && Called(nodes, EndsOf(state), n)
    ensures forall id :: id in skip <==>
              exists n :: n in nodes && n.id == id && Waiting(state[id]) && Barred(nodes, EndsOf(state), n)
    ensures InFileOrder(start, nodes) && InFileOrder(skip, nodes)
    ensures start == Picked(nodes, nodes, state, Start)
    ensures skip == Picked(nodes, nodes, state, Skip)
  {
    hide Picked, LinksInto, Fires, Called, Barred, InFileOrder, EndsOf, Waiting;
    var parents := ParentsOf(nodes);
    start, skip := [], [];
    PickedNone(nodes, state);
    for i := 0 to |nodes|
      invariant Known(nodes[..i], state)
      invariant start == Picked(nodes[..i], nodes, state, Start)
      invariant skip == Picked(nodes[..i], nodes, state, Skip)
    {
      var n := nodes[i];
      PickedNext(nodes, state, i);
      assert n.id in Ids(nodes);
      var s := state[n.id];
      if s.status == Pending && !s.doNotRun {
        var links := KnownLinks(parents[n.id], state);
        var outcomes := Outcomes(links, state);
        if links == [] {
          start := start + [n.id];
        } else if n.converge {
          if Some(false) in outcomes {
            skip := skip + [n.id];
          } else if forall o :: o in outcomes ==> o == Some(true) {
            start := start + [n.id];
          }
        } else if Some(true) in outcomes {
          start := start + [n.id];
        } else if forall o :: o in outcomes ==> o == Some(false) {
          skip := skip + [n.id];
        }
      }
    }
    assert nodes[..|nodes|] == nodes;
    forall id {
      PickedAre(nodes, state, id);
    }
    PickedInOrder(nodes, nodes, state, Start);
    PickedInOrder(nodes, nodes, state, Skip);
  }

  // ─── a whole run ─────────────────────────────────────────────────────────────

  datatype Run = Run(state: State, order: seq<Id>)

  datatype Outcome = DoNotRun | Was(status: Status)

  datatype RunResult = RunResult(status: map<Id, Outcome>, order: seq<Id>, failed: bool)

  function Initial(nodes: seq<Node>): State {
    map id | id in Ids(nodes) :: NodeState(Pending, false)
  }

  function Ran(id: Id, failing: set<Id>): Status {
    if id in failing then Failed else Successful
  }

  function AfterSkips(state: State, skip: seq<Id>): State {
    map id | id in state :: if id in skip then state[id].(doNotRun := true) else state[id]
  }

  function AfterStarts(state: State, start: seq<Id>, failing: set<Id>): State {
    map id | id in state :: if id in start then state[id].(status := Ran(id, failing)) else state[id]
  }

  ghost function Round(nodes: seq<Node>, failing: set<Id>, r: Run): (next: Run)
    requires Known(nodes, r.state)
    ensures next.state.Keys == r.state.Keys
  {
    var start := Picked(nodes, nodes, r.state, Start);
    var skip := Picked(nodes, nodes, r.state, Skip);
    Run(AfterStarts(AfterSkips(r.state, skip), start, failing), r.order + start)
  }

  ghost function Rounds(nodes: seq<Node>, failing: set<Id>, k: nat): (r: Run)
    ensures r.state.Keys == Ids(nodes)
  {
    if k == 0 then Run(Initial(nodes), []) else Round(nodes, failing, Rounds(nodes, failing, k - 1))
  }

  /** Where a run stops : after as many rounds as the guard of its loop allows. */
  ghost function FinalRun(nodes: seq<Node>, failing: set<Id>): (r: Run)
    ensures r.state.Keys == Ids(nodes)
  {
    Rounds(nodes, failing, |nodes| * 2 + 1)
  }

  function StatusOf(state: State): map<Id, Outcome> {
    map id | id in state :: if state[id].doNotRun then DoNotRun else Was(state[id].status)
  }

  predicate FailedBy(nodes: seq<Node>, status: map<Id, Outcome>)
    requires Ids(nodes) <= status.Keys
  {
    exists n :: n in nodes && status[n.id] == Was(Failed) && n.failure == [] && n.always == []
  }

  function Summary(nodes: seq<Node>, run: Run): RunResult
    requires Known(nodes, run.state)
  {
    var status := StatusOf(run.state);
    RunResult(status, run.order, FailedBy(nodes, status))
  }

  ghost function ResultOf(nodes: seq<Node>, failing: set<Id>): RunResult {
    Summary(nodes, FinalRun(nodes, failing))
  }

  /** The node is decided, or the rule has it wait. */
  predicate Rests(nodes: seq<Node>, state: State, n: Node)
    requires n.id in state
  {
    Decided(state[n.id]) || VerdictOf(nodes, state, n) == Wait
  }

  /** Nothing starts and nothing is skipped any more. */
  ghost predicate Stable(nodes: seq<Node>, state: State) {
    Known(nodes, state) && forall n {:trigger Rests(nodes, state, n)} :: n in nodes ==> Rests(nodes, state, n)
  }

  lemma {:induction false} PickedKnown(nodes: seq<Node>, state: State)
    requires Known(nodes, state)
    ensures forall id :: id in Picked(nodes, nodes, state, Start) ==> id in state
    ensures forall id :: id in Picked(nodes, nodes, state, Skip) ==> id in state
  {
    forall id ensures id in Picked(nodes, nodes, state, Start) ==> id in state
              ensures id in Picked(nodes, nodes, state, Skip) ==> id in state
    {
      PickedIff(nodes, nodes, state, Start, id);
      PickedIff(nodes, nodes, state, Skip, id);
    }
  }

  lemma {:induction false} StableIff(nodes: seq<Node>, state: State)
    requires Known(nodes, state)
    ensures Stable(nodes, state) <==>
            Picked(nodes, nodes, state, Start) == [] && Picked(nodes, nodes, state, Skip) == []
  {
    var start, skip := Picked(nodes, nodes, state, Start), Picked(nodes, nodes, state, Skip);
    forall n | n in nodes
      ensures Moves(nodes, state, n, Start) || Moves(nodes, state, n, Skip) <==> !Rests(nodes, state, n)
      ensures Moves(nodes, state, n, Start) ==> start != []
      ensures Moves(nodes, state, n, Skip) ==> skip != []
    {
      PickedIff(nodes, nodes, state, Start, n.id);
      PickedIff(nodes, nodes, state, Skip, n.id);
    }
    if start != [] { PickedIff(nodes, nodes, state, Start, start[0]); }
    if skip != [] { PickedIff(nodes, nodes, state, Skip, skip[0]); }
  }

  lemma RoundStays(nodes: seq<Node>, failing: set<Id>, r: Run)
    requires Stable(nodes, r.state)
    ensures Round(nodes, failing, r) == r
  {
    StableIff(nodes, r.state);
    assert AfterSkips(r.state, []) == r.state;
    assert AfterStarts(r.state, [], failing) == r.state;
    assert r.order + [] == r.order;
  }

  lemma {:induction false} RoundsStay(nodes: seq<Node>, failing: set<Id>, k: nat, m: nat)
    requires Round(nodes, failing, Rounds(nodes, failing, k)) == Rounds(nodes, failing, k) && k <= m
    ensures Rounds(nodes, failing, m) == Rounds(nodes, failing, k)
  {
    if k < m {
      RoundsStay(nodes, failing, k, m - 1);
    }
  }

  lemma {:induction false} EndsThere(nodes: seq<Node>, failing: set<Id>, k: nat, r: Run)
    requires r == Rounds(nodes, failing, k) && k <= |nodes| * 2 + 1
    requires k == |nodes| * 2 + 1 || Round(nodes, failing, r) == r
    ensures r == FinalRun(nodes, failing)
  {
    hide Round;
    if k < |nodes| * 2 + 1 {
      RoundsStay(nodes, failing, k, |nodes| * 2 + 1);
    }
  }

  method MarkSkipped(state: State, skip: seq<Id>) returns (next: State)
    requires forall id :: id in skip ==> id in state
    ensures next == AfterSkips(state, skip)
  {
    next := state;
    for i := 0 to |skip|
      invariant next.Keys == state.Keys
      invariant forall id :: id in state ==>
        next[id] == if id in skip[..i] then state[id].(doNotRun := true) else state[id]
    {
      next := next[skip[i] := next[skip[i]].(doNotRun := true)];
      assert skip[..i + 1] == skip[..i] + [skip[i]];
    }
    assert skip[..|skip|] == skip;
  }

  method RunStarted(state: State, start: seq<Id>, failing: set<Id>) returns (next: State)
    requires forall id :: id in start ==> id in state
    ensures next == AfterStarts(state, start, failing)
  {
    next := state;
    for i := 0 to |start|
      invariant next.Keys == state.Keys
      invariant forall id :: id in state ==>
        next[id] == if id in start[..i] then state[id].(status := Ran(id, failing)) else state[id]
    {
      next := next[start[i] := next[start[i]].(status := Ran(start[i], failing))];
      assert start[..i + 1] == start[..i] + [start[i]];
    }
    assert start[..|start|] == start;
  }

  /** One turn of the run's loop : `moved` is false when nothing starts and nothing is skipped. */
  method Turn(nodes: seq<Node>, failing: set<Id>, state: State, order: seq<Id>)
    returns (state': State, order': seq<Id>, moved: bool)
    requires Known(nodes, state)
    ensures Run(state', order') == Round(nodes, failing, Run(state, order))
    ensures !moved ==> Run(state', order') == Run(state, order)
  {
    var start, skip := NextStep(nodes, state);
    StableIff(nodes, state);
    moved := start != [] || skip != [];
    if !moved {
      RoundStays(nodes, failing, Run(state, order));
    }
    PickedKnown(nodes, state);
    var marked := MarkSkipped(state, skip);
    state' := RunStarted(marked, start, failing);
    order' := order + start;
  }

  /** A dry run : every node that runs succeeds, but the ones said to fail. */
  method DryRun(nodes: seq<Node>, failing: set<Id>) returns (r: RunResult)
    ensures r == ResultOf(nodes, failing)
  {
    hide Round;
    var state := Initial(nodes);
    var order: seq<Id> := [];
    var guard := 0;
    while guard <= |nodes| * 2
      invariant 0 <= guard <= |nodes| * 2 + 1
      invariant Run(state, order) == Rounds(nodes, failing, guard)
      invariant Known(nodes, state)
    {
      var state', order', moved := Turn(nodes, failing, state, order);
      if !moved {
        break;
      }
      state, order := state', order';
      guard := guard + 1;
    }
    EndsThere(nodes, failing, guard, Run(state, order));
    r := Summary(nodes, Run(state, order));
  }
}
