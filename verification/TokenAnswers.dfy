/** What the callers of a refresh are answered : the token they say failed, or another. */
module TokenAnswers {
  import opened Wrappers
  import opened TokenRefresh

  // ─── one call ────────────────────────────────────────────────────────────────

  /** A call is answered at once exactly when a token other than the one that failed is stored, and with that
      one. Otherwise the tab refreshes, from the refresh token then stored, or does already. */
  lemma CallIs(s: State, t: Tab, failed: Option<Token>)
    requires t in s.tabs
    ensures var o := Step(s, Call(t, failed));
            && (o.answer.Some? <==> failed.Some? && s.store.token.Some? && s.store.token.value != failed.value)
            && (o.answer.Some? ==> o.answer.value == Answer(t, s.store.token) && o.state == s)
            && (o.answer.None? && s.tabs[t].Idle? ==> o.state == s.(tabs := s.tabs[t := Queued(s.store.refresh)]))
            && (o.answer.None? && !s.tabs[t].Idle? ==> o.state == s)
  {
  }

  // ─── the posts of a refresh ──────────────────────────────────────────────────

  /** A tab posts when it is granted the lock, if the refresh token it began with is still stored (or it
      began with none), and once more after five seconds of waiting for another's. */
  lemma PostsOnlyWhenStillStored(s: State, e: Event, t: Tab, r: Token)
    requires Sane(s) && Posts(s, e, t, r)
    ensures s.store.refresh == Some(r)
    ensures || (e == Grant(t) && s.tabs[t].Queued?
                && (s.tabs[t].startedWith == None || s.tabs[t].startedWith == Some(r)))
            || (e == Poll(t) && s.tabs[t].Watching? && s.tabs[t].sent == r && 5000 <= s.tabs[t].waited)
  {
  }

  /** None is answered only when the storage is empty, or a post of the token still stored was refused, or
      answered 409 for the second time. */
  lemma NoneIsRefused(s: State, e: Event)
    requires Sane(s) && Enabled(s, e) && Step(s, e).answer.Some? && Step(s, e).answer.value.token == None
    ensures var t := Step(s, e).answer.value.tab;
            s.store.token == None
            || (t in s.tabs && e == Receive(t) && s.store.refresh == Some(s.tabs[t].sent)
                && (s.tabs[t].reply == Some(Refused) || (s.tabs[t].PostedAgain? && s.tabs[t].reply == Some(Conflict))))
  {
  }

  /** The first 409 has the tab wait. */
  lemma ConflictWaits(s: State, t: Tab)
    requires Enabled(s, Receive(t)) && s.tabs[t].Posted? && s.tabs[t].reply == Some(Conflict)
    ensures Step(s, Receive(t)) == Outcome(s.(tabs := s.tabs[t := Watching(s.tabs[t].sent, 0)]), None)
  {
  }

  /** While it waits it looks every quarter of a second, and takes the token that replaced the one it sent
      as soon as there is one. */
  lemma WaitsForReplacement(s: State, t: Tab)
    requires Enabled(s, Poll(t))
    ensures var o, p := Step(s, Poll(t)), s.tabs[t];
            if s.store.refresh != Some(p.sent)
            then o == Outcome(s.(tabs := s.tabs[t := Idle], holder := None), Some(Answer(t, s.store.token)))
            else o.answer == None && o.state.tabs[t] ==
                 if p.waited < 5000 then Watching(p.sent, p.waited + 250) else PostedAgain(p.sent, None)
  {
  }

  // ─── the token that failed ───────────────────────────────────────────────────

  /** Access and refresh tokens are issued in pairs. */
  ghost predicate Paired(s: State) {
    && (s.store.token.Some? && s.store.refresh.Some? ==> s.store.token.value + 1 == s.store.refresh.value)
    && forall t :: t in s.tabs && Brings(s.tabs[t]) ==> s.tabs[t].reply.value.token + 1 == s.tabs[t].reply.value.refresh
  }

  /** Tokens are on their way to the tab. */
  predicate Brings(p: Phase) {
    (p.Posted? || p.PostedAgain?) && p.reply.Some? && p.reply.value.Fresh?
  }

  lemma StepKeepsPaired(s: State, e: Event)
    requires Sane(s) && Enabled(s, e) && Paired(s)
    ensures Paired(Step(s, e).state)
  {
    match e {
      case Receive(t) =>
      case Call(_, _) =>
      case _ =>
    }
  }

  lemma OpenedIsPaired(tabs: set<Tab>)
    ensures Paired(Opened(tabs))
  {
  }

  lemma {:induction false} TraceIsPaired(ss: seq<State>, es: seq<Event>, k: nat)
    requires Trace(ss, es) && k < |ss| && Paired(ss[0])
    ensures Paired(ss[k])
  {
    hide Sane, Step, Paired;
    if k > 0 {
      TraceIsPaired(ss, es, k - 1);
      TraceIsSane(ss, es, k - 1);
      StepKeepsPaired(ss[k - 1], es[k - 1]);
      assert ss[k - 1 + 1] == Step(ss[k - 1], es[k - 1]).state;
    }
  }

  /** The refresh of the tab began before the refresh token `r` was stored, and no tokens are on their way
      that would replace it before that refresh ends. */
  predicate BegunBefore(s: State, t: Tab, r: Token)
    requires t in s.tabs
  {
    match s.tabs[t]
    case Idle => false
    case Queued(startedWith) =>
      && startedWith.Some? && startedWith != Some(r)
      && !(s.holder.Some? && s.holder.value in s.tabs && Brings(s.tabs[s.holder.value]))
    case Watching(sent, _) => sent != r
    case Posted(sent, _) => sent != r && !Brings(s.tabs[t])
    case PostedAgain(sent, _) => sent != r && !Brings(s.tabs[t])
  }

  /** What holds from the call on : the refresh token then stored was replaced, or the refresh under way
      does not end before it is. */
  ghost predicate Guarded(s: State, t: Tab, r: Token) {
    && Sane(s) && Paired(s) && t in s.tabs && r in s.past
    && (s.store.refresh == Some(r) ==> !s.tabs[t].Idle? && !BegunBefore(s, t, r))
  }

  lemma GuardedIsKept(s: State, e: Event, t: Tab, r: Token)
    requires Guarded(s, t, r) && Enabled(s, e)
    requires e.Call? || Step(s, e).answer.None? || Step(s, e).answer.value.tab != t
    ensures Guarded(Step(s, e).state, t, r)
  {
    StepKeepsSane(s, e);
    StepKeepsPaired(s, e);
    PastGrows(s, e);
    hide Sane, Paired;
    var next := Step(s, e).state;
    if next.store.refresh == Some(r) {
      StillStored(s, e, r);
      PhaseIsKept(s, e, t, r);
    }
  }

  lemma StillStored(s: State, e: Event, r: Token)
    requires Sane(s) && Enabled(s, e) && r in s.past && Step(s, e).state.store.refresh == Some(r)
    ensures s.store.refresh == Some(r)
  {
    hide Sane, Step;
    if s.store.refresh != Some(r) {
      ReplacedForGood(s, e, r);
    }
  }

  lemma PhaseIsKept(s: State, e: Event, t: Tab, r: Token)
    requires Sane(s) && Enabled(s, e) && t in s.tabs && r in s.past
    requires s.store.refresh == Some(r) == Step(s, e).state.store.refresh
    requires !s.tabs[t].Idle? && !BegunBefore(s, t, r)
    requires e.Call? || Step(s, e).answer.None? || Step(s, e).answer.value.tab != t
    requires Sane(Step(s, e).state)
    ensures t in Step(s, e).state.tabs && !Step(s, e).state.tabs[t].Idle? && !BegunBefore(Step(s, e).state, t, r)
  {
  }

  lemma GuardedAnswer(s: State, e: Event, t: Tab, r: Token)
    requires Guarded(s, t, r) && Enabled(s, e) && !e.Call?
    requires Step(s, e).answer.Some? && Step(s, e).answer.value.tab == t
    ensures var a, after := Step(s, e).answer.value.token, Step(s, e).state.store;
            a == None || (a == after.token && after.refresh.Some? && after.refresh != Some(r) && a != Some(r - 1))
  {
  }

  /** The step answers the callers that wait for the tab's refresh. */
  predicate Ends(s: State, e: Event, t: Tab)
    requires Enabled(s, e)
  {
    !e.Call? && Step(s, e).answer.Some? && Step(s, e).answer.value.tab == t
  }

  lemma CallIsGuarded(s: State, t: Tab, x: Token, r: Token)
    requires Sane(s) && Paired(s) && t in s.tabs && s.store == Store(Some(x), Some(r)) && !BegunBefore(s, t, r)
    ensures Guarded(Step(s, Call(t, Some(x))).state, t, r)
  {
    StepKeepsSane(s, Call(t, Some(x)));
    StepKeepsPaired(s, Call(t, Some(x)));
  }

  lemma {:induction false} GuardedStays(ss: seq<State>, es: seq<Event>, i: nat, k: nat, t: Tab, r: Token)
    requires Trace(ss, es) && i <= k < |ss| && Guarded(ss[i], t, r)
    requires forall j :: i <= j < k ==> !Ends(ss[j], es[j], t)
    ensures Guarded(ss[k], t, r)
  {
    hide Sane, Step, Guarded;
    if i < k {
      GuardedStays(ss, es, i, k - 1, t, r);
      assert !Ends(ss[k - 1], es[k - 1], t);
      GuardedIsKept(ss[k - 1], es[k - 1], t, r);
      assert ss[k - 1 + 1] == Step(ss[k - 1], es[k - 1]).state;
    }
  }

  /** Over every interleaving : a caller whose token, the one stored, failed is answered none or a token
      stored since, never that one, unless the refresh it joined began before that token was stored. */
  lemma NeverTheFailed(ss: seq<State>, es: seq<Event>, i: nat, k: nat, t: Tab, x: Token, r: Token)
    requires Trace(ss, es) && Paired(ss[0]) && i < k < |es|
    requires es[i] == Call(t, Some(x)) && ss[i].store == Store(Some(x), Some(r))
    requires t in ss[i].tabs && !BegunBefore(ss[i], t, r)
    requires Ends(ss[k], es[k], t) && forall j :: i < j < k ==> !Ends(ss[j], es[j], t)
    ensures var a := Step(ss[k], es[k]).answer.value.token;
            a == None || (a == ss[k + 1].store.token && a != Some(x) && ss[k + 1].store.refresh != Some(r))
  {
    TraceIsSane(ss, es, i);
    TraceIsPaired(ss, es, i);
    hide Sane, Guarded;
    CallIsGuarded(ss[i], t, x, r);
    assert ss[i + 1] == Step(ss[i], es[i]).state;
    GuardedStays(ss, es, i + 1, k, t, r);
    GuardedAnswer(ss[k], es[k], t, r);
    assert ss[k + 1] == Step(ss[k], es[k]).state;
    assert ss[i].store.token.value + 1 == ss[i].store.refresh.value;
  }

  // ─── a refresh begun before ──────────────────────────────────────────────────

  /** How many steps at most a refresh is from its end, when nothing replaces what is stored. */
  function StepsLeft(p: Phase): nat {
    match p
    case Idle => 0
    case Queued(_) => 0
    case Posted(_, reply) => if reply == None then 1 else if reply == Some(Conflict) then 10000 else 0
    case Watching(_, waited) => 2 + if waited < 5000 then 5250 - waited else 0
    case PostedAgain(_, reply) => if reply == None then 1 else 0
  }

  function ToAnswer(s: State, t: Tab): nat
    requires t in s.tabs && (s.holder.Some? ==> s.holder.value in s.tabs)
  {
    if !s.tabs[t].Queued? then StepsLeft(s.tabs[t])
    else if s.holder.Some? then 20000 + StepsLeft(s.tabs[s.holder.value])
    else 0
  }

  /** One step towards the end of the refresh of the tab that holds the lock : it is refused, or goes on waiting. */
  function Onwards(s: State, u: Tab): Event
    requires u in s.tabs
  {
    if s.tabs[u].Watching? then Poll(u) else if Asked(s.tabs[u]) then Reject(u, false) else Receive(u)
  }

  function NextFor(s: State, t: Tab): Event
    requires t in s.tabs && (s.holder.Some? ==> s.holder.value in s.tabs)
  {
    if s.tabs[t].Queued? && s.holder == None then Grant(t)
    else Onwards(s, if s.tabs[t].Queued? then s.holder.value else t)
  }

  /** A step that changes nothing stored : it answers the tab with the token stored, or leads towards that. */
  lemma StepTowards(s: State, t: Tab, x: Token, r: Token)
    requires Sane(s) && t in s.tabs && s.store == Store(Some(x), Some(r)) && BegunBefore(s, t, r)
    ensures var e := NextFor(s, t);
            && Enabled(s, e) && !e.Call? && Step(s, e).state.store == s.store
            && if Ends(s, e, t) then Step(s, e).answer.value.token == Some(x)
               else
                 var next := Step(s, e).state;
                 && t in next.tabs && (next.holder.Some? ==> next.holder.value in next.tabs)
                 && BegunBefore(next, t, r) && ToAnswer(next, t) < ToAnswer(s, t)
  {
  }

  /** The last step answers the tab's callers, none before does. */
  ghost predicate EndsLast(ss: seq<State>, es: seq<Event>, t: Tab, token: Option<Token>) {
    && Trace(ss, es) && es != []
    && Ends(ss[|es| - 1], es[|es| - 1], t) && Step(ss[|es| - 1], es[|es| - 1]).answer.value.token == token
    && forall j :: 0 <= j < |es| - 1 ==> !Ends(ss[j], es[j], t)
  }

  lemma OneMoreBefore(s: State, e: Event, ss: seq<State>, es: seq<Event>, t: Tab, token: Option<Token>)
    requires Sane(s) && Enabled(s, e) && !Ends(s, e, t)
    requires EndsLast(ss, es, t, token) && ss[0] == Step(s, e).state
    ensures EndsLast([s] + ss, [e] + es, t, token)
  {
    hide Sane, Step, Ends;
    var all, events := [s] + ss, [e] + es;
    forall j | 0 <= j < |events|
      ensures Enabled(all[j], events[j]) && all[j + 1] == Step(all[j], events[j]).state
      ensures j < |events| - 1 ==> !Ends(all[j], events[j], t)
    {
      if j > 0 {
        assert all[j] == ss[j - 1] && events[j] == es[j - 1] && all[j + 1] == ss[j - 1 + 1];
      }
    }
    assert all[|events| - 1] == ss[|es| - 1] && events[|events| - 1] == es[|es| - 1];
  }

  lemma JustThis(s: State, e: Event, t: Tab)
    requires Sane(s) && Enabled(s, e) && Ends(s, e, t)
    ensures EndsLast([s, Step(s, e).state], [e], t, Step(s, e).answer.value.token)
  {
    hide Sane, Step;
  }

  lemma {:induction false} EndsWithStored(s: State, t: Tab, x: Token, r: Token) returns (ss: seq<State>, es: seq<Event>)
    requires Sane(s) && t in s.tabs && s.store == Store(Some(x), Some(r)) && BegunBefore(s, t, r)
    ensures EndsLast(ss, es, t, Some(x)) && ss[0] == s
    decreases ToAnswer(s, t)
  {
    hide Step, EndsLast;
    var e := NextFor(s, t);
    StepTowards(s, t, x, r);
    var next := Step(s, e).state;
    if Ends(s, e, t) {
      JustThis(s, e, t);
      ss, es := [s, next], [e];
    } else {
      StepKeepsSane(s, e);
      var later, events := EndsWithStored(next, t, x, r);
      OneMoreBefore(s, e, later, events, t, Some(x));
      ss, es := [s] + later, [e] + events;
    }
  }

  /** Exactly when a caller may be answered the token that it says failed : when it joins a refresh that began
      before that token was stored. */
  lemma TheFailedExactly(s: State, t: Tab, x: Token, r: Token)
    requires Sane(s) && Paired(s) && t in s.tabs && s.store == Store(Some(x), Some(r))
    ensures BegunBefore(s, t, r) <==>
            exists ss, es :: EndsLast(ss, es, t, Some(x)) && ss[0] == s && es[0] == Call(t, Some(x))
  {
    var call := Call(t, Some(x));
    if BegunBefore(s, t, r) {
      assert Step(s, call).state == s && !Ends(s, call, t);
      hide Sane, Step, EndsLast, BegunBefore;
      var ss, es := EndsWithStored(s, t, x, r);
      OneMoreBefore(s, call, ss, es, t, Some(x));
      assert ([s] + ss)[0] == s && ([call] + es)[0] == call;
    }
    forall ss, es | EndsLast(ss, es, t, Some(x)) && ss[0] == s && es[0] == call ensures BegunBefore(s, t, r) {
      if !BegunBefore(s, t, r) {
        hide Sane, Step, BegunBefore;
        NeverTheFailed(ss, es, 0, |es| - 1, t, x, r);
      }
    }
  }

  /** One such state : tab 0 waits for the lock since the refresh token 1 was stored ; the tokens 2 and 3 are
      stored now, and a request sent with 2 is refused. */
  lemma JoinedTooLate()
    ensures var s := State(Store(Some(2), Some(3)), None, map[0 := Queued(Some(1))], Server({3}, {}, 4), {1, 3});
            && Sane(s) && Paired(s) && BegunBefore(s, 0, 3)
            && Step(s, Call(0, Some(2))) == Outcome(s, None) && Step(s, Grant(0)).answer == Some(Answer(0, Some(2)))
  {
  }
}
