/** What the job notifications tell : the user's jobs that ended, the jobs that wait for its approval,
    each once ; and when they look. */
module JobNotifications {
  datatype Profile = Profile(username: string, loginType: string)

  /** A job as a list gives it ; `step` : a step of a multistep job. */
  datatype Job = Job(id: int, status: string, user: string, userType: string, step: bool)

  /** What was seen : each job's status when last seen, whether a look was made, the newest job then. */
  datatype Memory = Memory(seen: map<int, string>, primed: bool, newest: int)

  const FINAL_STATUSES: set<string> := {"success", "failed", "aborted", "rejected", "abandoned"}

  const APPROVE := "approve"

  const NOTHING_SEEN := Memory(map[], false, 0)

  predicate Final(status: string) {
    || status == "success" || status == "failed" || status == "aborted" || status == "rejected"
    || status == "abandoned"
  }

  function OrLocal(loginType: string): string {
    if loginType == "" then "local" else loginType
  }

  predicate IsMine(j: Job, p: Profile) {
    j.user == p.username && OrLocal(j.userType) == OrLocal(p.loginType)
  }

  /** The user launched the job : the same username, and the same login type, none being local. */
  predicate Launched(p: Profile, j: Job) {
    && j.user == p.username
    && (j.userType == p.loginType || (j.userType in {"", "local"} && p.loginType in {"", "local"}))
  }

  lemma MineIsLaunched(j: Job, p: Profile)
    ensures IsMine(j, p) <==> Launched(p, j)
  {
  }

  // ─── what one look tells ─────────────────────────────────────────────────────

  /** The status the job was last seen with, "" when it was not seen. */
  function Before(m: Memory, id: int): string {
    if id in m.seen then m.seen[id] else ""
  }

  predicate EndedNow(m: Memory, j: Job) {
    && !j.step && Final(j.status)
    && if Before(m, j.id) != "" then !Final(Before(m, j.id)) else j.id > m.newest
  }

  predicate WaitsNow(m: Memory, j: Job, p: Profile) {
    && j.status == APPROVE && !IsMine(j, p)
    && if Before(m, j.id) != "" then Before(m, j.id) != APPROVE else j.id > m.newest
  }

  function EndedIn(m: Memory, mine: seq<Job>): (told: seq<Job>)
    ensures forall j :: j in told <==> j in mine && EndedNow(m, j)
  {
    if mine == [] then []
    else
      var last := mine[|mine| - 1];
      assert mine == mine[..|mine| - 1] + [last];
      EndedIn(m, mine[..|mine| - 1]) + if EndedNow(m, last) then [last] else []
  }

  function WaitingIn(m: Memory, waiting: seq<Job>, p: Profile): (told: seq<Job>)
    ensures forall j :: j in told <==> j in waiting && WaitsNow(m, j, p)
  {
    if waiting == [] then []
    else
      var last := waiting[|waiting| - 1];
      assert waiting == waiting[..|waiting| - 1] + [last];
      WaitingIn(m, waiting[..|waiting| - 1], p) + if WaitsNow(m, last, p) then [last] else []
  }

  function ToldEnded(m: Memory, mine: seq<Job>): seq<Job> {
    if m.primed then EndedIn(m, mine) else []
  }

  function ToldWaiting(m: Memory, waiting: seq<Job>, p: Profile): seq<Job> {
    if m.primed then WaitingIn(m, waiting, p) else []
  }

  function SeenAfter(seen: map<int, string>, jobs: seq<Job>): map<int, string> {
    if jobs == [] then seen
    else SeenAfter(seen, jobs[..|jobs| - 1])[jobs[|jobs| - 1].id := jobs[|jobs| - 1].status]
  }

  function NewestOf(jobs: seq<Job>): (newest: int)
    ensures 0 <= newest
  {
    if jobs == [] then 0
    else
      var newest := NewestOf(jobs[..|jobs| - 1]);
      if newest < jobs[|jobs| - 1].id then jobs[|jobs| - 1].id else newest
  }

  function Learned(m: Memory, jobs: seq<Job>): Memory {
    Memory(SeenAfter(m.seen, jobs), true, if m.primed then m.newest else NewestOf(jobs))
  }

  /** No job is newer, and one has that number, unless none has one. */
  lemma {:induction false} NewestIs(jobs: seq<Job>)
    ensures forall j :: j in jobs ==> j.id <= NewestOf(jobs)
    ensures NewestOf(jobs) == 0 || exists j :: j in jobs && j.id == NewestOf(jobs)
  {
    if jobs != [] {
      var front, last := jobs[..|jobs| - 1], jobs[|jobs| - 1];
      assert jobs == front + [last];
      NewestIs(front);
    }
  }

  lemma FinalIs()
    ensures forall status :: Final(status) <==> status in FINAL_STATUSES
  {
  }

  // ─── the page's state ────────────────────────────────────────────────────────

  /** When looks run : one under way, a change heard meanwhile ; and, for the record, how many were
      begun and ended, and how many were begun when each change was heard. */
  datatype Looker = Looker(looking: bool, lookAgain: bool, begun: nat, ended: nat, heard: seq<nat>)

  function Heard(l: Looker): Looker {
    if l.looking then l.(lookAgain := true, heard := l.heard + [l.begun])
    else l.(looking := true, lookAgain := false, begun := l.begun + 1, heard := l.heard + [l.begun])
  }

  /** A look ends : another begins when a change was heard meanwhile, unless it threw. */
  function LookEnded(l: Looker, threw: bool): Looker {
    if !threw && l.lookAgain then l.(lookAgain := false, begun := l.begun + 1, ended := l.ended + 1)
    else l.(looking := false, ended := l.ended + 1)
  }

  class Notifications {
    var seen: map<int, string>
    var primed: bool
    var newestAtPrime: int
    var looking: bool
    var lookAgain: bool
    ghost var begun: nat
    ghost var ended: nat
    ghost var heard: seq<nat>

    constructor ()
      ensures Remembered() == NOTHING_SEEN && Looks() == Looker(false, false, 0, 0, [])
    {
      seen, primed, newestAtPrime := map[], false, 0;
      looking, lookAgain := false, false;
      begun, ended, heard := 0, 0, [];
    }

    function Remembered(): Memory
      reads this
    {
      Memory(seen, primed, newestAtPrime)
    }

    ghost function Looks(): Looker
      reads this
    {
      Looker(looking, lookAgain, begun, ended, heard)
    }

    /** Forgets what was seen : the next look learns again, telling nothing. */
    method Reset()
      modifies this`seen, this`primed, this`newestAtPrime
      ensures Remembered() == NOTHING_SEEN
    {
      seen := map[];
      primed := false;
      newestAtPrime := 0;
    }

    /** What is new since the last look ; the first look only learns. */
    method WhatIsNew(mine: seq<Job>, waiting: seq<Job>, p: Profile) returns (endedJobs: seq<Job>, approve: seq<Job>)
      modifies this`seen, this`primed, this`newestAtPrime
      ensures endedJobs == ToldEnded(old(Remembered()), mine)
      ensures approve == ToldWaiting(old(Remembered()), waiting, p)
      ensures Remembered() == Learned(old(Remembered()), mine + waiting)
    {
      endedJobs, approve := [], [];
      ghost var m := Remembered();
      FinalIs();
      hide Final, FINAL_STATUSES, IsMine, NewestOf, SeenAfter;
      if primed {
        for i := 0 to |mine|
          invariant endedJobs == EndedIn(m, mine[..i])
        {
          var j := mine[i];
          assert mine[..i + 1][..i] == mine[..i];
          if !j.step && j.status in FINAL_STATUSES {
            var before := if j.id in seen then seen[j.id] else "";
            if if before != "" then before !in FINAL_STATUSES else j.id > newestAtPrime {
              endedJobs := endedJobs + [j];
            }
          }
        }
        assert mine[..|mine|] == mine;
        for i := 0 to |waiting|
          invariant approve == WaitingIn(m, waiting[..i], p)
        {
          var j := waiting[i];
          assert waiting[..i + 1][..i] == waiting[..i];
          if j.status == APPROVE && !IsMine(j, p) {
            var before := if j.id in seen then seen[j.id] else "";
            if if before != "" then before != APPROVE else j.id > newestAtPrime {
              approve := approve + [j];
            }
          }
        }
        assert waiting[..|waiting|] == waiting;
      }
      Note(mine + waiting);
      if !primed {
        newestAtPrime := NewestOf(mine + waiting);
      }
      primed := true;
    }

    method Note(jobs: seq<Job>)
      modifies this`seen
      ensures seen == SeenAfter(old(seen), jobs)
    {
      for i := 0 to |jobs|
        invariant seen == SeenAfter(old(seen), jobs[..i])
      {
        assert jobs[..i + 1][..i] == jobs[..i];
        seen := seen[jobs[i].id := jobs[i].status];
      }
      assert jobs[..|jobs|] == jobs;
    }

    /** A change is heard : a look begins, or one more is asked for after the one under way. */
    method Hear() returns (begins: bool)
      modifies this`looking, this`lookAgain, this`begun, this`heard
      ensures Looks() == Heard(old(Looks()))
      ensures begins <==> begun == old(begun) + 1
    {
      heard := heard + [begun];
      if looking {
        lookAgain := true;
        return false;
      }
      looking := true;
      lookAgain := false;
      begun := begun + 1;
      return true;
    }

    /** The look under way ends. */
    method EndLook(threw: bool) returns (begins: bool)
      requires looking
      modifies this`looking, this`lookAgain, this`begun, this`ended
      ensures Looks() == LookEnded(old(Looks()), threw)
      ensures begins <==> begun == old(begun) + 1
    {
      ended := ended + 1;
      if !threw && lookAgain {
        lookAgain := false;
        begun := begun + 1;
        return true;
      }
      looking := false;
      return false;
    }
  }

  // ─── told once, over any sequence of looks ───────────────────────────────────

  /** What a look read. */
  datatype Look = Look(mine: seq<Job>, waiting: seq<Job>)

  function Listed(l: Look): seq<Job> {
    l.mine + l.waiting
  }

  /** What is remembered before look `k`, from a reset on. */
  function MemoryAt(looks: seq<Look>, k: nat): Memory
    requires k <= |looks|
  {
    if k == 0 then NOTHING_SEEN else Learned(MemoryAt(looks, k - 1), Listed(looks[k - 1]))
  }

  function EndedAt(looks: seq<Look>, k: nat): seq<Job>
    requires k < |looks|
  {
    ToldEnded(MemoryAt(looks, k), looks[k].mine)
  }

  function WaitingAt(looks: seq<Look>, p: Profile, k: nat): seq<Job>
    requires k < |looks|
  {
    ToldWaiting(MemoryAt(looks, k), looks[k].waiting, p)
  }

  /** A job of that id is listed in look `k` with a final status. */
  ghost predicate ListedFinal(looks: seq<Look>, k: nat, id: int)
    requires k < |looks|
  {
    exists j :: j in Listed(looks[k]) && j.id == id && Final(j.status)
  }

  ghost predicate ListedAt(looks: seq<Look>, k: nat, id: int)
    requires k < |looks|
  {
    exists j :: j in Listed(looks[k]) && j.id == id
  }

  /** Once a job is listed with a final status it has one wherever it is listed later ; every status is
      a word. */
  ghost predicate FinalForGood(looks: seq<Look>) {
    && (forall k, j :: 0 <= k < |looks| && j in Listed(looks[k]) ==> j.status != "")
    && (forall i, k, id, j ::
          0 <= i <= k < |looks| && ListedFinal(looks, i, id) && j in Listed(looks[k]) && j.id == id ==>
          Final(j.status))
  }

  lemma {:induction false} SeenIs(seen: map<int, string>, jobs: seq<Job>, id: int)
    ensures id in SeenAfter(seen, jobs) <==> id in seen || exists j :: j in jobs && j.id == id
    ensures (forall j :: j in jobs ==> j.id != id) && id in seen ==> SeenAfter(seen, jobs)[id] == seen[id]
    ensures (exists j :: j in jobs && j.id == id) ==>
              exists j :: j in jobs && j.id == id && SeenAfter(seen, jobs)[id] == j.status
  {
    if jobs != [] {
      var front, last := jobs[..|jobs| - 1], jobs[|jobs| - 1];
      assert jobs == front + [last];
      SeenIs(seen, front, id);
    }
  }

  /** Listed, listed with a final status, in a look before look `k`. */
  ghost predicate EverListed(looks: seq<Look>, k: nat, id: int)
    requires k <= |looks|
  {
    k > 0 && (EverListed(looks, k - 1, id) || ListedAt(looks, k - 1, id))
  }

  ghost predicate EverFinal(looks: seq<Look>, k: nat, id: int)
    requires k <= |looks|
  {
    k > 0 && (EverFinal(looks, k - 1, id) || ListedFinal(looks, k - 1, id))
  }

  lemma {:induction false} EverFinalIff(looks: seq<Look>, k: nat, id: int)
    requires k <= |looks|
    ensures EverFinal(looks, k, id) <==> exists i :: 0 <= i < k && ListedFinal(looks, i, id)
  {
    if k > 0 {
      EverFinalIff(looks, k - 1, id);
    }
  }

  lemma {:induction false} EverListedIff(looks: seq<Look>, k: nat, id: int)
    requires k <= |looks|
    ensures EverListed(looks, k, id) <==> exists i :: 0 <= i < k && ListedAt(looks, i, id)
  {
    if k > 0 {
      EverListedIff(looks, k - 1, id);
    }
  }

  lemma RememberedNext(looks: seq<Look>, k: nat, id: int)
    requires FinalForGood(looks) && k < |looks|
    ensures var m, n := MemoryAt(looks, k), MemoryAt(looks, k + 1);
            && (Before(n, id) != "" <==> Before(m, id) != "" || ListedAt(looks, k, id))
            && (Final(Before(n, id)) <==>
                  if ListedAt(looks, k, id) then ListedFinal(looks, k, id) else Final(Before(m, id)))
  {
    var m, n := MemoryAt(looks, k), MemoryAt(looks, k + 1);
    SeenIs(m.seen, Listed(looks[k]), id);
    if ListedAt(looks, k, id) {
      var j :| j in Listed(looks[k]) && j.id == id && n.seen[id] == j.status;
      if Final(j.status) {
        assert ListedFinal(looks, k, id);
      }
    }
  }

  lemma {:induction false} FinalStays(looks: seq<Look>, k: nat, id: int)
    requires FinalForGood(looks) && k < |looks| && EverFinal(looks, k, id) && ListedAt(looks, k, id)
    ensures ListedFinal(looks, k, id)
  {
    EverFinalIff(looks, k, id);
    var i :| 0 <= i < k && ListedFinal(looks, i, id);
    var j :| j in Listed(looks[k]) && j.id == id;
  }

  /** What is remembered of a job : whether it was ever listed, and with a final status. */
  lemma {:induction false} RememberedIs(looks: seq<Look>, k: nat, id: int)
    requires FinalForGood(looks) && k <= |looks|
    ensures Before(MemoryAt(looks, k), id) != "" <==> EverListed(looks, k, id)
    ensures Final(Before(MemoryAt(looks, k), id)) <==> EverFinal(looks, k, id)
  {
    hide FinalForGood, ListedAt, ListedFinal, Learned, Before, Final;
    if k == 0 {
      NothingRemembered(id);
    } else {
      RememberedIs(looks, k - 1, id);
      RememberedNext(looks, k - 1, id);
      if EverFinal(looks, k - 1, id) && ListedAt(looks, k - 1, id) {
        FinalStays(looks, k - 1, id);
      }
      FinalIsListed(looks, k - 1, id);
    }
  }

  lemma NothingRemembered(id: int)
    ensures Before(NOTHING_SEEN, id) == "" && !Final("")
  {
  }

  lemma FinalIsListed(looks: seq<Look>, k: nat, id: int)
    requires k < |looks|
    ensures ListedFinal(looks, k, id) ==> ListedAt(looks, k, id)
  {
  }

  lemma {:induction false} PrimedAt(looks: seq<Look>, k: nat)
    requires k <= |looks|
    ensures MemoryAt(looks, k).primed <==> k > 0
    ensures k > 0 ==> MemoryAt(looks, k).newest == NewestOf(Listed(looks[0]))
  {
    if k > 0 {
      PrimedAt(looks, k - 1);
    }
  }

  /** Exactly what a look tells ended : the user's jobs (not a step) listed final for the first time,
      seen before or launched since the first look. */
  lemma {:induction false} EndedExactly(looks: seq<Look>, k: nat, j: Job)
    requires FinalForGood(looks) && k < |looks|
    ensures j in EndedAt(looks, k) <==>
              && k > 0 && j in looks[k].mine && !j.step && Final(j.status)
              && !EverFinal(looks, k, j.id)
              && (EverListed(looks, k, j.id) || j.id > NewestOf(Listed(looks[0])))
  {
    PrimedAt(looks, k);
    RememberedIs(looks, k, j.id);
    hide FinalForGood, EverFinal, EverListed, Final, NewestOf, Listed, MemoryAt, EndedIn, Before;
    FinalWasListed(looks, k, j.id);
  }

  lemma {:induction false} FinalWasListed(looks: seq<Look>, k: nat, id: int)
    requires k <= |looks|
    ensures EverFinal(looks, k, id) ==> EverListed(looks, k, id)
  {
    EverFinalIff(looks, k, id);
    EverListedIff(looks, k, id);
    if i :| 0 <= i < k && ListedFinal(looks, i, id) {
      FinalIsListed(looks, i, id);
    }
  }

  /** A job is told ended once : never in two looks. */
  lemma EndedToldOnce(looks: seq<Look>, i: nat, k: nat, j: Job, j': Job)
    requires FinalForGood(looks) && i < k < |looks| && j in EndedAt(looks, i) && j' in EndedAt(looks, k)
    ensures j.id != j'.id
  {
    EndedExactly(looks, i, j);
    EndedExactly(looks, k, j');
    EverFinalIff(looks, k, j'.id);
    if j.id == j'.id {
      assert ListedFinal(looks, i, j'.id);
    }
  }

  /** The jobs told are in the order of the lists. */
  lemma {:induction false} ToldInOrder(m: Memory, p: Profile, a: seq<Job>, b: seq<Job>)
    ensures EndedIn(m, a + b) == EndedIn(m, a) + EndedIn(m, b)
    ensures WaitingIn(m, a + b, p) == WaitingIn(m, a, p) + WaitingIn(m, b, p)
  {
    hide EndedNow, WaitsNow;
    if b == [] {
      assert a + b == a;
    } else {
      assert (a + b)[..|a + b| - 1] == a + b[..|b| - 1];
      ToldInOrder(m, p, a, b[..|b| - 1]);
    }
  }

  ghost predicate DistinctIds(jobs: seq<Job>) {
    forall i, j :: 0 <= i < j < |jobs| ==> jobs[i].id != jobs[j].id
  }

  /** Nor twice in one look, its list giving each job once. */
  lemma {:induction false} EndedOnceInLook(m: Memory, mine: seq<Job>)
    requires DistinctIds(mine)
    ensures DistinctIds(EndedIn(m, mine))
  {
    if mine != [] {
      var front, last := mine[..|mine| - 1], mine[|mine| - 1];
      EndedOnceInLook(m, front);
      forall j | j in EndedIn(m, front) ensures j.id != last.id {
        var i :| 0 <= i < |front| && front[i] == j;
        assert mine[i] == j;
      }
    }
  }

  /** A job seen unfinished and then listed finished is told in that look. */
  lemma EndedIsTold(looks: seq<Look>, i: nat, k: nat, j: Job)
    requires FinalForGood(looks) && i < k < |looks|
    requires ListedAt(looks, i, j.id) && !(exists h :: 0 <= h < k && ListedFinal(looks, h, j.id))
    requires j in looks[k].mine && !j.step && Final(j.status)
    ensures j in EndedAt(looks, k)
  {
    EndedExactly(looks, k, j);
    EverFinalIff(looks, k, j.id);
    EverListedIff(looks, k, j.id);
  }

  // ─── the jobs that wait for an approval ──────────────────────────────────────

  /** Another user's job is listed only among those waiting for an approval. */
  ghost predicate OnlyWaits(looks: seq<Look>, id: int) {
    forall k, j :: 0 <= k < |looks| && j in Listed(looks[k]) && j.id == id ==> j.status == "approve"
  }

  lemma WaitingNext(looks: seq<Look>, k: nat, id: int)
    requires OnlyWaits(looks, id) && k < |looks|
    ensures Before(MemoryAt(looks, k + 1), id) ==
            if ListedAt(looks, k, id) then APPROVE else Before(MemoryAt(looks, k), id)
  {
    SeenIs(MemoryAt(looks, k).seen, Listed(looks[k]), id);
  }

  lemma {:induction false} WaitingRemembered(looks: seq<Look>, k: nat, id: int)
    requires OnlyWaits(looks, id) && k <= |looks|
    ensures Before(MemoryAt(looks, k), id) == if EverListed(looks, k, id) then APPROVE else ""
  {
    hide OnlyWaits, ListedAt, Learned, Before;
    if k == 0 {
      NothingRemembered(id);
    } else {
      WaitingRemembered(looks, k - 1, id);
      WaitingNext(looks, k - 1, id);
    }
  }

  /** Exactly when another user's job is told waiting : the first time it is listed, if it was launched
      since the first look. */
  lemma {:induction false} WaitingExactly(looks: seq<Look>, p: Profile, k: nat, j: Job)
    requires k < |looks| && OnlyWaits(looks, j.id)
    ensures j in WaitingAt(looks, p, k) <==>
              && k > 0 && j in looks[k].waiting && !Launched(p, j)
              && !EverListed(looks, k, j.id) && j.id > NewestOf(Listed(looks[0]))
  {
    PrimedAt(looks, k);
    MineIsLaunched(j, p);
    WaitingRemembered(looks, k, j.id);
    if j in looks[k].waiting {
      assert j in Listed(looks[k]);
    }
  }

  /** Another user's job is told waiting once. */
  lemma WaitingToldOnce(looks: seq<Look>, p: Profile, i: nat, k: nat, j: Job, j': Job)
    requires i < k < |looks| && OnlyWaits(looks, j.id)
    requires j in WaitingAt(looks, p, i) && j' in WaitingAt(looks, p, k)
    ensures j.id != j'.id
  {
    WaitingExactly(looks, p, i, j);
    if j.id == j'.id {
      WaitingExactly(looks, p, k, j');
      EverListedIff(looks, k, j.id);
      assert j in Listed(looks[i]);
      assert ListedAt(looks, i, j.id);
    }
  }

  // ─── looks never overlap, no change is lost ──────────────────────────────────

  datatype LookEvent = Change | End(threw: bool)

  ghost function LooksAfter(events: seq<LookEvent>): Looker {
    if events == [] then Looker(false, false, 0, 0, [])
    else
      var l := LooksAfter(events[..|events| - 1]);
      match events[|events| - 1]
      case Change => Heard(l)
      case End(threw) => if l.looking then LookEnded(l, threw) else l
  }

  /** Every change heard was followed by a look begun after it. */
  ghost predicate AllFollowed(l: Looker) {
    forall i :: 0 <= i < |l.heard| ==> l.heard[i] < l.begun
  }

  /** At any moment of any run at most one look is under way, and the changes heard were all followed
      by a look begun after them exactly when none more is asked for. */
  lemma {:induction false} LooksInTurn(events: seq<LookEvent>)
    ensures var l := LooksAfter(events);
            && l.begun == l.ended + (if l.looking then 1 else 0)
            && (forall i :: 0 <= i < |l.heard| ==> l.heard[i] <= l.begun)
            && (AllFollowed(l) <==> !l.lookAgain)
  {
    if events != [] {
      LooksInTurn(events[..|events| - 1]);
      var l, l' := LooksAfter(events[..|events| - 1]), LooksAfter(events);
      if events[|events| - 1].Change? && l.looking {
        assert l'.heard[|l.heard|] == l'.begun;
      }
      if l.lookAgain && l'.lookAgain && l'.begun == l.begun {
        var i :| 0 <= i < |l.heard| && !(l.heard[i] < l.begun);
        assert l'.heard[i] == l.heard[i];
      }
    }
  }

  /** A look throws with a change heard while it ran, and no change is heard after. */
  ghost predicate LosesAt(events: seq<LookEvent>, i: int) {
    && 0 <= i < |events| && events[i] == End(true)
    && LooksAfter(events[..i]).looking && LooksAfter(events[..i]).lookAgain
    && (forall k :: i < k < |events| ==> events[k].End?)
  }

  lemma LosesBefore(events: seq<LookEvent>, i: int)
    requires events != [] && 0 <= i < |events| - 1
    ensures LosesAt(events, i) <==> LosesAt(events[..|events| - 1], i) && events[|events| - 1].End?
  {
    var front := events[..|events| - 1];
    assert front[..i] == events[..i];
    if LosesAt(front, i) && events[|events| - 1].End? {
      forall k | i < k < |events| ensures events[k].End? {
        if k < |front| { assert events[k] == front[k]; }
      }
    }
    if LosesAt(events, i) {
      forall k | i < k < |front| ensures front[k].End? {
        assert events[k] == front[k];
      }
    }
  }

  /** A change so lost stays asked for, with no look under way. */
  lemma {:induction false} LostStays(events: seq<LookEvent>, i: int)
    requires LosesAt(events, i)
    ensures !LooksAfter(events).looking && LooksAfter(events).lookAgain
  {
    if i < |events| - 1 {
      LosesBefore(events, i);
      LostStays(events[..|events| - 1], i);
    }
  }

  /** And a look still asked for when none is under way was lost by one that threw. */
  lemma {:induction false} AskedWasLost(events: seq<LookEvent>) returns (i: int)
    requires !LooksAfter(events).looking && LooksAfter(events).lookAgain
    ensures LosesAt(events, i)
  {
    var last := |events| - 1;
    if LooksAfter(events[..last]).looking {
      i := last;
    } else {
      i := AskedWasLost(events[..last]);
      LosesBefore(events, i);
    }
  }

  /** Which runs lose a change : once no look is under way, some change heard was followed by no look begun
      after it exactly when a look threw with a change heard while it ran, and none was heard since. */
  lemma {:induction false} ChangeIsLostExactly(events: seq<LookEvent>)
    requires !LooksAfter(events).looking
    ensures !AllFollowed(LooksAfter(events)) <==> exists i :: LosesAt(events, i)
  {
    hide LosesAt, LooksAfter, AllFollowed;
    LooksInTurn(events);
    if LooksAfter(events).lookAgain {
      var i := AskedWasLost(events);
    }
    forall i | LosesAt(events, i) ensures LooksAfter(events).lookAgain {
      LostStays(events, i);
    }
  }

  /** So nothing is lost when no look throws. */
  lemma {:induction false} NoChangeIsLost(events: seq<LookEvent>)
    requires forall i :: 0 <= i < |events| ==> events[i] != End(true)
    ensures !LooksAfter(events).looking ==> AllFollowed(LooksAfter(events))
  {
    if !LooksAfter(events).looking {
      ChangeIsLostExactly(events);
    }
  }

  /** One such run : a change, another while its look runs, and the look throws. */
  lemma ThrowLosesChange()
    ensures var l := LooksAfter([Change, Change, End(true)]);
            !l.looking && !AllFollowed(l)
  {
    var events := [Change, Change, End(true)];
    assert events[..2] == [Change, Change] && events[..2][..1] == [Change] && events[..2][..1][..0] == [];
    LooksInTurn(events);
    assert LooksAfter(events[..2]).lookAgain;
  }
}
