/** What every run of the SIP server keeps, and when the digest handshake succeeds. */
module WaRuns {
  import opened Options
  import opened Dicts
  import opened SipAuth
  import opened SipAuthProofs
  import opened SipAuthDigest
  import opened WaSpec

  // ---- Bounded, consistent tables -------------------------------------------------------------------

  predicate Inv(c: Config, s: Server) {
    && |s.sessions| <= c.maxCalls
    && |s.pending| <= 2 * c.maxCalls && Unique(s.pending)
    && s.sessions == s.tasks
    && (forall t :: t in s.running ==> t < s.nextTask)
  }

  lemma EvictUnique(p: Dict<string, string>, bound: nat)
    requires Unique(p)
    ensures Unique(Evict(p, bound))
  {
  }

  lemma SmallerWithout(m: map<string, nat>, k: string)
    ensures |m - {k}| <= |m|
  {
    assert (m - {k}).Keys == m.Keys - {k};
    assert |m.Keys - {k}| <= |m.Keys|;
  }

  lemma AtMostOneMore(m: map<string, nat>, k: string, v: nat)
    ensures |m[k := v]| <= |m| + 1
  {
    assert m[k := v].Keys == m.Keys + {k};
  }

  lemma ChallengeKeepsInv(c: Config, s: Server, i: Invite)
    requires Inv(c, s) && c.maxCalls > 0
    ensures Inv(c, Challenge(c, s, i).server)
  {
    hide ChallengeValue, IssuedNonce, Unique, Put, Evict;
    var nonce, kept := IssuedNonce(ChallengeValue(c.realm, i.drawn)), Evict(s.pending, 2 * c.maxCalls);
    EvictUnique(s.pending, 2 * c.maxCalls);
    assert |kept| < 2 * c.maxCalls;
    UniqueKept(kept, i.callId, nonce);
  }

  lemma AcceptKeepsInv(c: Config, s: Server, callId: string)
    requires Inv(c, s) && |s.sessions| < c.maxCalls
    ensures Inv(c, Accept(s, callId))
  {
    AtMostOneMore(s.sessions, callId, s.nextTask);
  }

  lemma InviteKeepsInv(h: Hash, c: Config, s: Server, i: Invite)
    requires Inv(c, s)
    ensures Inv(c, HandleInvite(h, c, s, i).server)
  {
    hide VerifyDigest, Challenge, Unique, Pop, Accept, NonceMismatch;
    var closed := s.(pending := Pop(s.pending, i.callId));
    UniqueKept(s.pending, i.callId, "");
    if |s.sessions| < c.maxCalls {
      ChallengeKeepsInv(c, s, i);
      AcceptKeepsInv(c, closed, i.callId);
    }
  }

  lemma StepKeepsInv(h: Hash, c: Config, s: Server, e: Event)
    requires Inv(c, s)
    ensures Inv(c, Step(h, c, s, e))
  {
    hide HandleInvite;
    match e
    case Invited(i) => InviteKeepsInv(h, c, s, i);
    case Bye(callId) => SmallerWithout(s.sessions, callId);
    case Done(task) => if task in s.running { SmallerWithout(s.sessions, s.running[task]); }
    case StopBegins =>
    case StopEnds =>
  }

  /**
   In every run the recorded sessions stay within the limit, open challenges within twice the limit,
   and the session and task tables agree.
   */
  lemma {:induction false} RunKeepsInv(h: Hash, c: Config, es: seq<Event>)
    ensures Inv(c, Run(h, c, IDLE, es))
  {
    hide Step, Inv;
    if es == [] {
      IdleInv(c);
    } else {
      RunKeepsInv(h, c, es[..|es| - 1]);
      StepKeepsInv(h, c, Run(h, c, IDLE, es[..|es| - 1]), es[|es| - 1]);
    }
  }

  lemma IdleInv(c: Config)
    ensures Inv(c, IDLE)
  {
  }

  /**
   An INVITE is accepted only with credentials that verify; and while a challenge is open for its
   call, only with that challenge's nonce, although a header that does not parse raises no mismatch.
   */
  lemma AcceptedCarriesNonce(h: Hash, c: Config, s: Server, i: Invite)
    requires Unique(s.pending) && HandleInvite(h, c, s, i).status == 200
    ensures VerifyDigest(h, i.auth, c.username, c.password, "INVITE")
    ensures ParseChallenge(i.auth).Some?
    ensures Get(s.pending, i.callId).Some? ==>
              Param(ParseChallenge(i.auth).value, "nonce") == Get(s.pending, i.callId)
    ensures Get(HandleInvite(h, c, s, i).server.pending, i.callId) == None
  {
    GetPop(s.pending, i.callId, i.callId);
    hide ParseChallenge, Response, ChallengeValue, IssuedNonce;
  }

  // ---- Every live task is recorded, as long as no call id is reused too early ------------------------

  predicate Live(s: Server, t: nat) {
    t in s.running && t !in s.cancelled
  }

  predicate Recorded(s: Server) {
    forall t :: t in s.running && t !in s.cancelled ==> s.running[t] in s.tasks && s.tasks[s.running[t]] == t
  }

  predicate OneTaskPerCall(s: Server) {
    forall t, u :: t in s.running && u in s.running && t != u ==> s.running[t] != s.running[u]
  }

  /** No task of this call is still running. */
  predicate Fresh(s: Server, callId: string) {
    forall t :: t in s.running ==> s.running[t] != callId
  }

  predicate CancelledRun(s: Server) {
    s.cancelled <= s.running.Keys
  }

  predicate Sound(c: Config, s: Server) {
    Inv(c, s) && Recorded(s) && OneTaskPerCall(s) && CancelledRun(s)
  }

  // ---- Exactly when a live task drops out of the tables ------------------------------------------------

  /** What each step needs so that every live task stays recorded. */
  predicate KeepsRecord(h: Hash, c: Config, s: Server, e: Event) {
    match e
    case Invited(i) =>
      HandleInvite(h, c, s, i).status == 200 ==> forall t :: t in s.running && Live(s, t) ==> s.running[t] != i.callId
    case Done(task) =>
      task in s.running ==> forall t :: t in s.running && Live(s, t) && t != task ==> s.running[t] != s.running[task]
    case StopEnds => forall t :: t in s.running ==> t in s.cancelled
    case _ => true
  }

  lemma AcceptRecords(c: Config, s: Server, callId: string)
    requires Inv(c, s) && Recorded(s) && CancelledRun(s)
    ensures var r := Accept(s, callId);
            CancelledRun(r) && (Recorded(r) <==> forall t :: Live(s, t) ==> s.running[t] != callId)
  {
    var r := Accept(s, callId);
    assert s.nextTask !in s.cancelled;
    if t :| Live(s, t) && s.running[t] == callId {
      assert Live(r, t);
    }
  }

  lemma DoneRecords(s: Server, task: nat)
    requires Recorded(s) && CancelledRun(s) && task in s.running
    ensures var r := OnDone(s, task);
            && CancelledRun(r)
            && (Recorded(r) <==> forall t :: Live(s, t) && t != task ==> s.running[t] != s.running[task])
  {
    var r := OnDone(s, task);
    if t :| Live(s, t) && t != task && s.running[t] == s.running[task] {
      assert Live(r, t);
    }
  }

  lemma InviteRecords(h: Hash, c: Config, s: Server, i: Invite)
    requires Inv(c, s) && Recorded(s) && CancelledRun(s)
    ensures var r := HandleInvite(h, c, s, i).server;
            CancelledRun(r) && (Recorded(r) <==> KeepsRecord(h, c, s, Invited(i)))
  {
    hide VerifyDigest, ParseChallenge, ChallengeValue, IssuedNonce, Evict, Put, Pop, NonceMismatch, Accept, Unique;
    var closed := s.(pending := Pop(s.pending, i.callId));
    UniqueKept(s.pending, i.callId, "");
    AcceptRecords(c, closed, i.callId);
    assert forall t :: Live(closed, t) <==> Live(s, t);
  }

  /** A step after which every live task is still recorded: exactly one that meets its condition. */
  lemma StepRecordsExactly(h: Hash, c: Config, s: Server, e: Event)
    requires Inv(c, s) && Recorded(s) && CancelledRun(s)
    ensures CancelledRun(Step(h, c, s, e))
    ensures Recorded(Step(h, c, s, e)) <==> KeepsRecord(h, c, s, e)
  {
    hide HandleInvite, Inv;
    match e
    case Invited(i) => InviteRecords(h, c, s, i);
    case Bye(callId) =>
    case Done(task) => if task in s.running { DoneRecords(s, task); }
    case StopBegins =>
    case StopEnds =>
  }

  /** Every live task is recorded, now and before. */
  predicate AlwaysRecorded(h: Hash, c: Config, es: seq<Event>) {
    Recorded(Run(h, c, IDLE, es)) && (es != [] ==> AlwaysRecorded(h, c, es[..|es| - 1]))
  }

  /** Every step of the run met its condition. */
  predicate AlwaysKept(h: Hash, c: Config, es: seq<Event>) {
    es != [] ==>
      var front := es[..|es| - 1];
      AlwaysKept(h, c, front) && KeepsRecord(h, c, Run(h, c, IDLE, front), es[|es| - 1])
  }

  /** Every live task is recorded throughout a run exactly when every step of it meets its condition. */
  lemma {:induction false} RecordedExactly(h: Hash, c: Config, es: seq<Event>)
    ensures AlwaysRecorded(h, c, es) <==> AlwaysKept(h, c, es)
    ensures AlwaysRecorded(h, c, es) ==> CancelledRun(Run(h, c, IDLE, es)) && |LiveTasks(Run(h, c, IDLE, es))| <= c.maxCalls
  {
    hide Step, Inv, KeepsRecord, Recorded, CancelledRun, LiveTasks;
    if es == [] {
      IdleRecorded();
    } else {
      var front, e := es[..|es| - 1], es[|es| - 1];
      RecordedExactly(h, c, front);
      if AlwaysRecorded(h, c, front) {
        RunKeepsInv(h, c, front);
        assert Recorded(Run(h, c, IDLE, front));
        StepRecordsExactly(h, c, Run(h, c, IDLE, front), e);
      }
    }
    RunKeepsInv(h, c, es);
    if Recorded(Run(h, c, IDLE, es)) {
      RecordedBounds(c, Run(h, c, IDLE, es));
    }
  }

  lemma IdleRecorded()
    ensures Recorded(IDLE) && CancelledRun(IDLE)
  {
  }

  /**
   Accepting a call, its task and every other one will be recorded until they are done, whichever ends
   first, iff no task of that call id is still running - be it cancelled already.
   */
  lemma AcceptExactly(c: Config, s: Server, callId: string)
    requires Sound(c, s)
    ensures (forall t :: t in s.running ==> Recorded(OnDone(Accept(s, callId), t))) <==> Fresh(s, callId)
  {
    if Fresh(s, callId) {
      var r := Accept(s, callId);
      assert Recorded(r) && OneTaskPerCall(r) && CancelledRun(r);
    } else {
      var t :| t in s.running && s.running[t] == callId;
      ReuseLosesTask(c, s, callId, t);
      assert !Recorded(OnDone(Accept(s, callId), t));
    }
  }

  /** With a call id that is not fresh, the end of the old task loses the new one. */
  lemma ReuseLosesTask(c: Config, s: Server, callId: string, t: nat)
    requires Sound(c, s) && t in s.running && s.running[t] == callId
    ensures var r := OnDone(Accept(s, callId), t);
            Live(r, s.nextTask) && r.running[s.nextTask] == callId && callId !in r.tasks && callId !in r.sessions
  {
    assert t < s.nextTask;
    assert s.nextTask !in s.cancelled;
  }

  /** A call accepted while `stop` waits is live when the tables are cleared, whatever its call id. */
  lemma AcceptedDuringStop(c: Config, s: Server, callId: string)
    requires Inv(c, s) && CancelledRun(s)
    ensures var r := StopEnd(Accept(StopBegin(s), callId));
            Live(r, s.nextTask) && r.tasks == map[] && r.sessions == map[] && !Recorded(r)
  {
    var r := StopEnd(Accept(StopBegin(s), callId));
    assert s.nextTask !in s.cancelled;
    assert Live(r, s.nextTask);
  }

  // ---- Runs that respect both conditions ----------------------------------------------------------------

  /** What a step must respect: accepted call ids are fresh, and a stop ends with nothing live. */
  predicate Careful(h: Hash, c: Config, s: Server, e: Event) {
    match e
    case Invited(i) => HandleInvite(h, c, s, i).status == 200 ==> Fresh(s, i.callId)
    case StopEnds => forall t :: t in s.running ==> t in s.cancelled
    case _ => true
  }

  lemma InviteKeepsSound(h: Hash, c: Config, s: Server, i: Invite)
    requires Sound(c, s) && (HandleInvite(h, c, s, i).status == 200 ==> Fresh(s, i.callId))
    ensures Sound(c, HandleInvite(h, c, s, i).server)
  {
    hide VerifyDigest, ParseChallenge, ChallengeValue, IssuedNonce, Evict;
    InviteKeepsInv(h, c, s, i);
  }

  lemma DoneKeepsSound(c: Config, s: Server, t: nat)
    requires Sound(c, s)
    ensures Recorded(OnDone(s, t)) && OneTaskPerCall(OnDone(s, t)) && CancelledRun(OnDone(s, t))
  {
  }

  lemma ByeKeepsSound(c: Config, s: Server, callId: string)
    requires Sound(c, s)
    ensures var r := HandleBye(s, callId); Recorded(r) && OneTaskPerCall(r) && CancelledRun(r)
  {
  }

  lemma StepKeepsSound(h: Hash, c: Config, s: Server, e: Event)
    requires Sound(c, s) && Careful(h, c, s, e)
    ensures Sound(c, Step(h, c, s, e))
  {
    hide HandleInvite, Inv;
    StepKeepsInv(h, c, s, e);
    match e
    case Invited(i) => InviteKeepsSound(h, c, s, i);
    case Bye(callId) => ByeKeepsSound(c, s, callId);
    case Done(t) => DoneKeepsSound(c, s, t);
    case StopBegins =>
    case StopEnds =>
  }

  predicate CarefulRun(h: Hash, c: Config, es: seq<Event>) {
    forall n :: 0 <= n < |es| ==> Careful(h, c, Run(h, c, IDLE, es[..n]), es[n])
  }

  function LiveTasks(s: Server): set<nat> {
    set t | t in s.running && t !in s.cancelled
  }

  /**
   A caller's view: when every accepted call id is fresh and nothing is live as a stop ends, every live
   task is the recorded one of its call, so live tasks are within the limit too.
   */
  lemma {:induction false} LiveTasksBounded(h: Hash, c: Config, es: seq<Event>)
    requires CarefulRun(h, c, es)
    ensures var s := Run(h, c, IDLE, es); Sound(c, s) && |LiveTasks(s)| <= c.maxCalls
  {
    hide Careful, Step, Inv;
    if es == [] {
      IdleInv(c);
    } else {
      var front, e := es[..|es| - 1], es[|es| - 1];
      forall n | 0 <= n < |front|
        ensures Careful(h, c, Run(h, c, IDLE, front[..n]), front[n])
      {
        assert front[..n] == es[..n] && front[n] == es[n];
      }
      LiveTasksBounded(h, c, front);
      StepKeepsSound(h, c, Run(h, c, IDLE, front), e);
    }
    RecordedBounds(c, Run(h, c, IDLE, es));
  }

  lemma RecordedBounds(c: Config, s: Server)
    requires Inv(c, s) && Recorded(s)
    ensures |LiveTasks(s)| <= c.maxCalls
  {
    forall t | t in LiveTasks(s)
      ensures t in s.tasks.Values
    {
      assert s.tasks[s.running[t]] == t;
    }
    SubsetSize(LiveTasks(s), s.tasks.Values);
    ValuesBounded(s.tasks);
  }

  lemma {:induction false} SubsetSize(a: set<nat>, b: set<nat>)
    requires a <= b
    ensures |a| <= |b|
  {
    if a != {} {
      var x :| x in a;
      SubsetSize(a - {x}, b - {x});
    }
  }

  lemma {:induction false} ValuesBounded(m: map<string, nat>)
    ensures |m.Values| <= |m|
    decreases |m|
  {
    if m.Keys == {} {
      assert m.Values == {};
    } else {
      var k :| k in m.Keys;
      var r := m - {k};
      assert r.Keys == m.Keys - {k};
      ValuesBounded(r);
      forall v | v in m.Values
        ensures v in r.Values + {m[k]}
      {
        var j :| j in m.Keys && m[j] == v;
        if j != k {
          assert j in r.Keys && r[j] == v;
        }
      }
      SubsetSize(m.Values, r.Values + {m[k]});
    }
  }
}
