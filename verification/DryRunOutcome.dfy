/** What a dry run comes to, said of the statuses it answers and the nodes' own lists of links. */
module DryRunOutcome {
  import opened WorkflowModel
  import opened Graphs
  import opened DryRun
  import opened DryRunLaws
  import opened DryRunOrder

  /** How a node has ended, by the status it is answered with. */
  function FinalEnd(o: Outcome): End {
    match o
    case DoNotRun => NotAtAll
    case Was(Successful) => Well
    case Was(Failed) => Badly
    case Was(Skipped) => Well
    case Was(Pending) => NotYet
  }

  function FinalEnds(status: map<Id, Outcome>): (ends: map<Id, End>)
    ensures ends.Keys == status.Keys
  {
    map id | id in status :: FinalEnd(status[id])
  }

  lemma FinalEndsAre(s: State)
    ensures FinalEnds(StatusOf(s)) == EndsOf(s)
  {
  }

  /** What every dry run comes to : a node that something calls ran, and failed exactly when it was said
      to ; one that nothing will call never runs ; any other is left pending. The workflow fails exactly
      when a node failed that leads on neither on failure nor always. */
  lemma ResultIs(nodes: seq<Node>, failing: set<Id>)
    requires UniqueIds(nodes)
    ensures var r := ResultOf(nodes, failing);
            && r.status.Keys == Ids(nodes)
            && (forall n :: n in nodes ==>
                  r.status[n.id] ==
                  if Called(nodes, FinalEnds(r.status), n) then Was(if n.id in failing then Failed else Successful)
                  else if Barred(nodes, FinalEnds(r.status), n) then DoNotRun
                  else Was(Pending))
            && (r.failed <==>
                exists n :: n in nodes && r.status[n.id] == Was(Failed) && |n.failure| == 0 && |n.always| == 0)
  {
    hide Rounds, Called, Barred;
    var s := FinalRun(nodes, failing).state;
    FinalEndsAre(s);
    forall n | n in nodes
      ensures StatusOf(s)[n.id] ==
              if Called(nodes, EndsOf(s), n) then Was(if n.id in failing then Failed else Successful)
              else if Barred(nodes, EndsOf(s), n) then DoNotRun
              else Was(Pending)
    {
      FinalIsFixpoint(nodes, failing, n);
      VerdictIs(nodes, s, n);
    }
  }

  /** What a round makes of a node : one that something calls runs, one that nothing will call is marked so. */
  ghost predicate Moved(nodes: seq<Node>, failing: set<Id>, r: Run, t: Run, n: Node)
    requires Known(nodes, r.state) && n.id in r.state && n.id in t.state && |r.order| <= |t.order|
  {
    && (n.id in t.order[|r.order|..] <==> Waiting(r.state[n.id]) && Called(nodes, EndsOf(r.state), n))
    && t.state[n.id] ==
       if !Waiting(r.state[n.id]) then r.state[n.id]
       else if Called(nodes, EndsOf(r.state), n) then NodeState(if n.id in failing then Failed else Successful, false)
       else if Barred(nodes, EndsOf(r.state), n) then NodeState(Pending, true)
       else NodeState(Pending, false)
  }

  lemma RoundMoves(nodes: seq<Node>, failing: set<Id>, r: Run, n: Node)
    requires UniqueIds(nodes) && Known(nodes, r.state) && n in nodes
    ensures n.id in Ids(nodes)
    ensures r.order <= Round(nodes, failing, r).order && Moved(nodes, failing, r, Round(nodes, failing, r), n)
  {
    hide Called, Barred, EndsOf, Picked;
    var t := Round(nodes, failing, r);
    assert t.order[|r.order|..] == Picked(nodes, nodes, r.state, Start);
    RoundSettles(nodes, failing, r, n);
    PickedOne(nodes, r.state, Start, n);
    VerdictIs(nodes, r.state, n);
  }

  /** Round by round : a node runs in the first round whose start finds what calls it, the nodes of one
      round in the order of the file ; one that nothing will call is marked in the first that finds that. */
  lemma NextRound(nodes: seq<Node>, failing: set<Id>, k: nat)
    requires UniqueIds(nodes)
    ensures var r, t := Rounds(nodes, failing, k), Rounds(nodes, failing, k + 1);
            && r.order <= t.order && InFileOrder(t.order[|r.order|..], nodes)
            && forall n {:trigger Moved(nodes, failing, r, t, n)} ::
                 n in nodes ==> n.id in Ids(nodes) && Moved(nodes, failing, r, t, n)
  {
    hide Moved, InFileOrder, Picked, AfterStarts, AfterSkips;
    var r, t := Rounds(nodes, failing, k), Rounds(nodes, failing, k + 1);
    assert t.order[|r.order|..] == Picked(nodes, nodes, r.state, Start);
    PickedInOrder(nodes, nodes, r.state, Start);
    forall n | n in nodes ensures n.id in Ids(nodes) && Moved(nodes, failing, r, t, n) {
      RoundMoves(nodes, failing, r, n);
    }
  }

  /** It begins with every node waiting and none run. */
  lemma {:induction false} FirstRound(nodes: seq<Node>, failing: set<Id>)
    ensures var r := Rounds(nodes, failing, 0);
            r.order == [] && r.state.Keys == Ids(nodes) && forall id :: id in r.state ==> Waiting(r.state[id])
  {
  }

  // ─── the order it answers ────────────────────────────────────────────────────

  /** What called the node ended before : a parent with a link that holds, or every parent, each link of
      which holds, when they must converge. */
  ghost predicate CalledBy(nodes: seq<Node>, ends: map<Id, End>, before: seq<Id>, n: Node)
    requires Ids(nodes) <= ends.Keys
  {
    HasParent(nodes, n.id) ==>
      if n.converge
      then forall p :: p in nodes && LeadsTo(p, n.id) ==> p.id in before && AllHold(p, n.id, ends[p.id])
      else exists p :: p in nodes && p.id in before && SomeHolds(p, n.id, ends[p.id])
  }

  lemma FiredIff(s: State, before: seq<Id>, p: Node, to: Id)
    requires p.id in s
    ensures p.id in before && SomeHolds(p, to, EndOf(s[p.id])) <==>
            exists k: Kind :: to in p.Links(k) && Fired(s, before, Link(p.id, k))
    ensures (LeadsTo(p, to) ==> p.id in before && AllHold(p, to, EndOf(s[p.id]))) <==>
            forall k: Kind :: to in p.Links(k) ==> Fired(s, before, Link(p.id, k))
  {
    OneParent(p, to, s[p.id]);
  }

  lemma {:induction false} LinkOfParent(nodes: seq<Node>, to: Id)
    ensures LinksInto(nodes, to) == [] <==> !HasParent(nodes, to)
  {
    hide LinksInto, LeadsTo;
    if HasParent(nodes, to) {
      var p :| p in nodes && LeadsTo(p, to);
      OneParent(p, to, NodeState(Pending, false));
      var k: Kind :| to in p.Links(k);
      LinksIntoIff(nodes, to, Link(p.id, k));
    }
    if LinksInto(nodes, to) != [] {
      var l := LinksInto(nodes, to)[0];
      LinksIntoIff(nodes, to, l);
      var p :| p in nodes && p.id == l.from && to in p.Links(l.kind);
      OneParent(p, to, NodeState(Pending, false));
    }
  }

  lemma CausedIsCalled(nodes: seq<Node>, s: State, before: seq<Id>, n: Node)
    requires Known(nodes, s) && Caused(nodes, s, before, n)
    ensures CalledBy(nodes, EndsOf(s), before, n)
  {
    hide LinksInto, SomeHolds, AllHold, LeadsTo, Fired, HasParent;
    LinkOfParent(nodes, n.id);
    if LinksInto(nodes, n.id) != [] {
      if n.converge {
        forall p | p in nodes && LeadsTo(p, n.id) ensures p.id in before && AllHold(p, n.id, EndsOf(s)[p.id]) {
          forall k: Kind | n.id in p.Links(k) ensures Fired(s, before, Link(p.id, k)) {
            LinksIntoIff(nodes, n.id, Link(p.id, k));
          }
          FiredIff(s, before, p, n.id);
        }
      } else {
        var l :| l in LinksInto(nodes, n.id) && Fired(s, before, l);
        LinksIntoIff(nodes, n.id, l);
        var p :| p in nodes && p.id == l.from && n.id in p.Links(l.kind);
        FiredIff(s, before, p, n.id);
      }
    }
  }

  /** Causality : the order of a run holds each node that ran exactly once, and each comes after the
      parents that made it run. */
  lemma RunIsCausal(nodes: seq<Node>, failing: set<Id>)
    requires UniqueIds(nodes)
    ensures var r := ResultOf(nodes, failing);
            && Distinct(r.order) && r.status.Keys == Ids(nodes)
            && (forall id :: id in r.order <==> id in r.status && r.status[id] in {Was(Successful), Was(Failed)})
            && (forall i, n :: 0 <= i < |r.order| && n in nodes && n.id == r.order[i] ==>
                  CalledBy(nodes, FinalEnds(r.status), r.order[..i], n))
  {
    hide Rounds, Caused, CalledBy, FinalEnds, EndsOf, FailedBy;
    EachIsCaused(nodes, failing);
    var r, s := ResultOf(nodes, failing), FinalRun(nodes, failing).state;
    FinalEndsAre(s);
    forall i, n | 0 <= i < |r.order| && n in nodes && n.id == r.order[i]
      ensures CalledBy(nodes, FinalEnds(r.status), r.order[..i], n)
    {
      CausedIsCalled(nodes, s, r.order[..i], n);
    }
  }
}
