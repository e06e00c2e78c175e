/** The refresh of the session's tokens by any number of tabs : one storage, one lock, and a server
    that exchanges each refresh token once. Each step is what runs between two awaits. */
module TokenRefresh {
  import opened Wrappers

  type Tab = nat

  /** An access token or a refresh token ; the server numbers those it issues. */
  type Token = nat

  /** The browser's storage, shared by the tabs. */
  datatype Store = Store(token: Option<Token>, refresh: Option<Token>)

  datatype Reply = Fresh(token: Token, refresh: Token) | Conflict | Refused

  /** Where the refresh of a tab is. */
  datatype Phase =
    | Idle
    | Queued(startedWith: Option<Token>)            // waits for the lock
    | Posted(sent: Token, reply: Option<Reply>)     // waits for the server
    | Watching(sent: Token, waited: nat)            // after a 409 : waits for another's tokens
    | PostedAgain(sent: Token, reply: Option<Reply>)

  /** What the server exchanges : the refresh tokens it takes, and those a refresh the lock could not
      reach has taken and not yet answered. */
  datatype Server = Server(live: set<Token>, taken: set<Token>, issued: nat)

  /** `past` : every refresh token the storage ever held. */
  datatype State = State(store: Store, holder: Option<Tab>, tabs: map<Tab, Phase>, server: Server, past: set<Token>)

  datatype Event =
    | Call(tab: Tab, failed: Option<Token>)   // getNewToken
    | Grant(tab: Tab)                         // the lock is granted
    | Exchange(tab: Tab)                      // the server exchanges the token posted
    | Lose(tab: Tab)                          // it does, but its answer is lost
    | Reject(tab: Tab, replaced: bool)        // it refuses it : replaced already (409), or otherwise
    | Receive(tab: Tab)                       // its answer arrives
    | Poll(tab: Tab)                          // a look at the storage while waiting
    | SignIn
    | SignOut
    | Take(token: Token)                      // a refresh outside the lock posts a token
    | Finish(token: Token)                    // and stores what it got
    | GiveBack(token: Token)                  // or fails, and the token can be exchanged again

  /** A tab's callers are answered : a token, or none when the session cannot be refreshed. */
  datatype Answer = Answer(tab: Tab, token: Option<Token>)

  datatype Outcome = Outcome(state: State, answer: Option<Answer>)

  const POLL_MS := 250
  const TIMEOUT_MS := 5000

  // ─── the steps ───────────────────────────────────────────────────────────────

  predicate Asked(p: Phase) {
    (p.Posted? || p.PostedAgain?) && p.reply == None
  }

  predicate Enabled(s: State, e: Event) {
    match e
    case Call(t, _) => t in s.tabs
    case Grant(t) => t in s.tabs && s.tabs[t].Queued? && s.holder == None
    case Exchange(t) => t in s.tabs && Asked(s.tabs[t]) && s.tabs[t].sent in s.server.live
    case Lose(t) => t in s.tabs && Asked(s.tabs[t]) && s.tabs[t].sent in s.server.live
    case Reject(t, replaced) => t in s.tabs && Asked(s.tabs[t]) && (replaced ==> s.tabs[t].sent !in s.server.live)
    case Receive(t) => t in s.tabs && (s.tabs[t].Posted? || s.tabs[t].PostedAgain?) && s.tabs[t].reply.Some?
    case Poll(t) => t in s.tabs && s.tabs[t].Watching?
    case SignIn => true
    case SignOut => true
    case Take(r) => r in s.server.live
    case Finish(r) => r in s.server.taken
    case GiveBack(r) => r in s.server.taken
  }

  function Put(s: State, t: Tab, p: Phase): State
    requires t in s.tabs
  {
    s.(tabs := s.tabs[t := p])
  }

  /** The refresh of a tab ends : its callers are answered, its lock is free. */
  function End(s: State, t: Tab, token: Option<Token>): Outcome
    requires t in s.tabs
  {
    Outcome(Put(s, t, Idle).(holder := None), Some(Answer(t, token)))
  }

  function Keep(s: State, token: Token, refresh: Token): State {
    s.(store := Store(Some(token), Some(refresh)), past := s.past + {refresh})
  }

  /** What the callers get when the token sent is not the one stored any more : the one stored. */
  function Stored(s: State, sent: Token): Option<Token> {
    if s.store.refresh != Some(sent) then s.store.token else None
  }

  function Replied(s: State, t: Tab, reply: Reply): State
    requires t in s.tabs && Asked(s.tabs[t])
  {
    Put(s, t, s.tabs[t].(reply := Some(reply)))
  }

  /** Two tokens more issued by the server : an access token and the refresh token it takes next. */
  function Issue(v: Server, spent: set<Token>): Server {
    Server((v.live - spent) + {v.issued + 1}, v.taken - spent, v.issued + 2)
  }

  function Step(s: State, e: Event): Outcome
    requires Enabled(s, e)
  {
    match e
    case Call(t, failed) =>
      if failed.Some? && s.store.token.Some? && s.store.token != failed then Outcome(s, Some(Answer(t, s.store.token)))
      else if s.tabs[t].Idle? then Outcome(Put(s, t, Queued(s.store.refresh)), None)
      else Outcome(s, None)
    case Grant(t) =>
      var startedWith := s.tabs[t].startedWith;
      if s.store.refresh == None then End(s, t, None)
      else if startedWith.Some? && s.store.refresh != startedWith then End(s, t, s.store.token)
      else Outcome(Put(s, t, Posted(s.store.refresh.value, None)).(holder := Some(t)), None)
    case Exchange(t) =>
      var reply := Fresh(s.server.issued, s.server.issued + 1);
      Outcome(Replied(s, t, reply).(server := Issue(s.server, {s.tabs[t].sent})), None)
    case Lose(t) =>
      Outcome(Replied(s, t, Refused).(server := Issue(s.server, {s.tabs[t].sent})), None)
    case Reject(t, replaced) =>
      Outcome(Replied(s, t, if replaced then Conflict else Refused), None)
    case Receive(t) =>
      var p := s.tabs[t];
      match p.reply.value {
        case Fresh(token, refresh) => End(Keep(s, token, refresh), t, Some(token))
        case Conflict =>
          if p.Posted? then Outcome(Put(s, t, Watching(p.sent, 0)), None) else End(s, t, Stored(s, p.sent))
        case Refused => End(s, t, Stored(s, p.sent))
      }
    case Poll(t) =>
      var p := s.tabs[t];
      if s.store.refresh != Some(p.sent) then End(s, t, s.store.token)
      else if p.waited < TIMEOUT_MS then Outcome(Put(s, t, Watching(p.sent, p.waited + POLL_MS)), None)
      else Outcome(Put(s, t, PostedAgain(p.sent, None)), None)
    case SignIn =>
      Outcome(Keep(s, s.server.issued, s.server.issued + 1).(server := Issue(s.server, {})), None)
    case SignOut =>
      Outcome(s.(store := Store(None, None)), None)
    case Take(r) =>
      Outcome(s.(server := s.server.(live := s.server.live - {r}, taken := s.server.taken + {r})), None)
    case Finish(r) =>
      Outcome(Keep(s, s.server.issued, s.server.issued + 1).(server := Issue(s.server, {r})), None)
    case GiveBack(r) =>
      Outcome(s.(server := s.server.(live := s.server.live + {r}, taken := s.server.taken - {r})), None)
  }

  // ─── what every step keeps ───────────────────────────────────────────────────

  predicate InFlight(p: Phase) {
    p.Posted? || p.Watching? || p.PostedAgain?
  }

  function Sent(p: Phase): Token
    requires InFlight(p)
  {
    p.sent
  }

  /** Only the lock's holder refreshes ; the storage holds both tokens or none ; what it ever held and
      what the server issued is below the server's next number ; an answer under way brings a refresh
      token the storage never held. */
  ghost predicate Sane(s: State) {
    && (forall t :: t in s.tabs && InFlight(s.tabs[t]) <==> s.holder == Some(t))
    && (s.store.token.Some? <==> s.store.refresh.Some?)
    && (s.store.refresh.Some? ==> s.store.refresh.value in s.past)
    && (forall r :: r in s.past ==> r < s.server.issued)
    && (forall r :: r in s.server.live ==> r < s.server.issued)
    && (forall r :: r in s.server.taken ==> r < s.server.issued)
    && (s.holder.Some? ==> Awaited(s, s.tabs[s.holder.value]))
  }

  ghost predicate Awaited(s: State, p: Phase) {
    InFlight(p) ==>
      Sent(p) in s.past
      && ((p.Posted? || p.PostedAgain?) && p.reply.Some? && p.reply.value.Fresh? ==>
            p.reply.value.refresh !in s.past && p.reply.value.refresh < s.server.issued)
  }

  predicate TabWaits(e: Event) {
    e.Call? || e.Grant? || e.Poll?
  }

  predicate ServerActs(e: Event) {
    e.Exchange? || e.Lose? || e.Reject?
  }

  lemma TabWaitsKeepsSane(s: State, e: Event)
    requires Sane(s) && Enabled(s, e) && TabWaits(e)
    ensures Sane(Step(s, e).state)
  {
  }

  lemma ServerActsKeepsSane(s: State, e: Event)
    requires Sane(s) && Enabled(s, e) && ServerActs(e)
    ensures Sane(Step(s, e).state)
  {
  }

  lemma ReceiveKeepsSane(s: State, e: Event)
    requires Sane(s) && Enabled(s, e) && e.Receive?
    ensures Sane(Step(s, e).state)
  {
  }

  lemma OthersKeepSane(s: State, e: Event)
    requires Sane(s) && Enabled(s, e) && !TabWaits(e) && !ServerActs(e) && !e.Receive?
    ensures Sane(Step(s, e).state)
  {
  }

  lemma StepKeepsSane(s: State, e: Event)
    requires Sane(s) && Enabled(s, e)
    ensures Sane(Step(s, e).state)
  {
    hide Sane, Step;
    if TabWaits(e) {
      TabWaitsKeepsSane(s, e);
    } else if ServerActs(e) {
      ServerActsKeepsSane(s, e);
    } else if e.Receive? {
      ReceiveKeepsSane(s, e);
    } else {
      OthersKeepSane(s, e);
    }
  }

  // ─── one refresh at a time, of the token stored ──────────────────────────────

  /** A run from a sane state, step by step. */
  ghost predicate Trace(ss: seq<State>, es: seq<Event>) {
    && |ss| == |es| + 1 && Sane(ss[0])
    && forall i :: 0 <= i < |es| ==> Enabled(ss[i], es[i]) && ss[i + 1] == Step(ss[i], es[i]).state
  }

  lemma {:induction false} TraceIsSane(ss: seq<State>, es: seq<Event>, k: nat)
    requires Trace(ss, es) && k < |ss|
    ensures Sane(ss[k])
  {
    hide Sane, Step;
    if k > 0 {
      TraceIsSane(ss, es, k - 1);
      StepKeepsSane(ss[k - 1], es[k - 1]);
      assert ss[k - 1 + 1] == Step(ss[k - 1], es[k - 1]).state;
    }
  }

  /** In a step, tab `t` posts the refresh token `r`. */
  ghost predicate Posts(s: State, e: Event, t: Tab, r: Token) {
    && Enabled(s, e) && t in s.tabs && t in Step(s, e).state.tabs
    && !Asked(s.tabs[t]) && Asked(Step(s, e).state.tabs[t]) && Step(s, e).state.tabs[t].sent == r
  }

  /** At most one tab refreshes, at any moment of any interleaving. */
  lemma OneRefreshInFlight(ss: seq<State>, es: seq<Event>, k: nat, t: Tab, u: Tab)
    requires Trace(ss, es) && k < |ss| && t in ss[k].tabs && u in ss[k].tabs
    requires InFlight(ss[k].tabs[t]) && InFlight(ss[k].tabs[u])
    ensures t == u
  {
    TraceIsSane(ss, es, k);
  }

  /** Every post sends the refresh token in storage, and while no other is in flight. */
  lemma PostsWhatIsStored(s: State, e: Event, t: Tab, r: Token)
    requires Sane(s) && Posts(s, e, t, r)
    ensures s.store.refresh == Some(r)
    ensures forall u :: u in s.tabs && u != t ==> !InFlight(s.tabs[u])
  {
  }

  /** A refresh token replaced in storage never comes back there. */
  lemma ReplacedForGood(s: State, e: Event, r: Token)
    requires Sane(s) && Enabled(s, e) && r in s.past && s.store.refresh != Some(r)
    ensures r in Step(s, e).state.past && Step(s, e).state.store.refresh != Some(r)
  {
  }

  lemma {:induction false} ReplacedStays(ss: seq<State>, es: seq<Event>, j: nat, k: nat, r: Token)
    requires Trace(ss, es) && j <= k < |ss| && r in ss[j].past && ss[j].store.refresh != Some(r)
    ensures r in ss[k].past && ss[k].store.refresh != Some(r)
  {
    hide Sane, Step;
    if j < k {
      ReplacedStays(ss, es, j, k - 1, r);
      TraceIsSane(ss, es, k - 1);
      ReplacedForGood(ss[k - 1], es[k - 1], r);
      assert ss[k - 1 + 1] == Step(ss[k - 1], es[k - 1]).state;
    }
  }

  lemma PastGrows(s: State, e: Event)
    requires Enabled(s, e)
    ensures s.past <= Step(s, e).state.past
  {
  }

  lemma {:induction false} PastStays(ss: seq<State>, es: seq<Event>, i: nat, j: nat)
    requires Trace(ss, es) && i <= j < |ss|
    ensures ss[i].past <= ss[j].past
  {
    hide Sane, Step;
    if i < j {
      PastStays(ss, es, i, j - 1);
      PastGrows(ss[j - 1], es[j - 1]);
      assert ss[j - 1 + 1] == Step(ss[j - 1], es[j - 1]).state;
    }
  }

  /** A refresh token that was in storage and was replaced there is never sent again, by any tab. */
  lemma NeverSentAgain(ss: seq<State>, es: seq<Event>, i: nat, j: nat, k: nat, t: Tab, r: Token)
    requires Trace(ss, es) && i < j <= k < |es|
    requires ss[i].store.refresh == Some(r) && ss[j].store.refresh != Some(r)
    ensures !Posts(ss[k], es[k], t, r)
  {
    TraceIsSane(ss, es, i);
    TraceIsSane(ss, es, k);
    PastStays(ss, es, i, j);
    ReplacedStays(ss, es, j, k, r);
    hide Step, Sane;
    if Posts(ss[k], es[k], t, r) {
      PostsWhatIsStored(ss[k], es[k], t, r);
    }
  }

  // ─── the answers ─────────────────────────────────────────────────────────────

  /** A token answered is the one then in storage ; none is answered only when the storage then holds
      no tokens, or still the refresh token this tab posted. */
  lemma AnswersAreStored(s: State, e: Event)
    requires Sane(s) && Enabled(s, e) && Step(s, e).answer.Some?
    ensures var after, a := Step(s, e).state.store, Step(s, e).answer.value;
            && a.tab in s.tabs
            && (a.token.Some? ==> after.token == a.token)
            && (a.token.None? ==> after == Store(None, None)
                                  || (InFlight(s.tabs[a.tab]) && after.refresh == Some(Sent(s.tabs[a.tab]))))
  {
  }

  /** A call of a tab that refreshes already posts nothing : it waits for the same refresh. */
  lemma CallJoins(s: State, t: Tab, failed: Option<Token>)
    requires t in s.tabs && !s.tabs[t].Idle?
    ensures Step(s, Call(t, failed)).state == s
  {
  }

  // ─── undisturbed, no session is lost ─────────────────────────────────────────

  /** The steps of tabs the lock reaches, with a server that answers : nobody signs in or out, no
      answer is lost, no refusal but of a token already replaced, no refresh outside the lock. */
  predicate Undisturbed(e: Event) {
    e.Call? || e.Grant? || e.Exchange? || e.Receive? || e.Poll? || (e.Reject? && e.replaced)
  }

  /** Signed in, and the token the next post sends can be exchanged. */
  ghost predicate Healthy(s: State) {
    && Sane(s) && s.store.refresh.Some?
    && match s.holder
       case None => s.store.refresh.value in s.server.live
       case Some(t) =>
         var p := s.tabs[t];
         p.Posted?
         && match p.reply
            case None => s.store.refresh == Some(p.sent) && p.sent in s.server.live
            case Some(reply) => reply.Fresh? && reply.refresh in s.server.live
  }

  /** Tabs just opened, before any sign-in. */
  function Opened(tabs: set<Tab>): State {
    State(Store(None, None), None, map t | t in tabs :: Idle, Server({}, {}, 0), {})
  }

  /** A run that begins with a sign-in begins well, as does what follows any sign-in while no tab refreshes. */
  lemma SignInIsHealthy(tabs: set<Tab>, s: State)
    requires Sane(s) && s.holder == None
    ensures Sane(Opened(tabs)) && Healthy(Step(Opened(tabs), SignIn).state)
    ensures Healthy(Step(s, SignIn).state)
  {
  }

  /** However the tabs interleave, undisturbed no post is refused and no caller goes without a token. */
  lemma HealthyStep(s: State, e: Event)
    requires Healthy(s) && Enabled(s, e) && Undisturbed(e)
    ensures Healthy(Step(s, e).state) && !e.Reject?
    ensures Step(s, e).answer.Some? ==> Step(s, e).answer.value.token.Some?
  {
  }

  lemma {:induction false} NoSessionIsLost(ss: seq<State>, es: seq<Event>, k: nat)
    requires Trace(ss, es) && k < |es| && Healthy(ss[0])
    requires forall i :: 0 <= i <= k ==> Undisturbed(es[i])
    ensures Healthy(ss[k]) && !es[k].Reject?
    ensures Step(ss[k], es[k]).answer.Some? ==> Step(ss[k], es[k]).answer.value.token.Some?
  {
    hide Healthy, Step;
    if k > 0 {
      NoSessionIsLost(ss, es, k - 1);
      HealthyStep(ss[k - 1], es[k - 1]);
      assert ss[k - 1 + 1] == Step(ss[k - 1], es[k - 1]).state;
    }
    HealthyStep(ss[k], es[k]);
  }
}
