/** Runs from the idle server that reach what its tables do not cover. */
module WaLimits {
  import opened Options
  import opened Dicts
  import opened SipAuth
  import opened SipAuthProofs
  import opened SipAuthDigest
  import opened WaSpec
  import opened WaRuns
  import opened WaHandshake

  /** The configured client, with a realm the server can find its nonce behind. */
  predicate Usable(h: Hash, c: Config, u: Client) {
    && Quotable(c.realm) && !EndsWith(c.realm, "nonce=")
    && ClientOk(u) && u.user == c.username && u.secret == c.password
  }

  /** The two INVITEs of a handshake, with the nonce drawn for it. */
  function Connect(h: Hash, c: Config, callId: string, nonce: string, u: Client): seq<Event> {
    [Invited(Invite(callId, "", nonce, true, true)),
     Invited(Invite(callId, ClientAnswer(h, ChallengeValue(c.realm, nonce), u.user, u.secret, u.uri, u.cnonce), "", true, true))]
  }

  /** Everything but the open challenges. */
  function Calls(s: Server): Server {
    s.(pending := [])
  }

  lemma {:induction false} RunAppend(h: Hash, c: Config, s: Server, a: seq<Event>, b: seq<Event>)
    ensures Run(h, c, s, a + b) == Run(h, c, Run(h, c, s, a), b)
  {
    hide Step;
    if b == [] {
      assert a + b == a;
    } else {
      RunAppend(h, c, s, a, b[..|b| - 1]);
      assert (a + b)[..|a + b| - 1] == a + b[..|b| - 1];
    }
  }

  lemma RunOne(h: Hash, c: Config, s: Server, e: Event)
    ensures Run(h, c, s, [e]) == Step(h, c, s, e)
  {
    assert [e][..0] == [];
  }

  /** With room, a handshake of the configured client is one accepted call. */
  lemma Connects(h: Hash, c: Config, s: Server, callId: string, nonce: string, u: Client)
    requires GoodHash(h) && Usable(h, c, u) && Drawn(nonce) && |s.sessions| < c.maxCalls
    ensures Calls(Run(h, c, s, Connect(h, c, callId, nonce, u))) == Accept(Calls(s), callId)
  {
    hide ParseChallenge, ChallengeValue, Quotable, GoodHash, VerifyDigest, IssuedNonce, ClientAnswer, EndsWith, Get, HandleInvite, Pop, Run;
    var es := Connect(h, c, callId, nonce, u);
    var first, second := es[0].invite, es[1].invite;
    assert es == [es[0]] + [es[1]];
    RunAppend(h, c, s, [es[0]], [es[1]]);
    RunOne(h, c, s, es[0]);
    RunOne(h, c, Step(h, c, s, es[0]), es[1]);
    Challenged(h, c, s, first);
    IssuedNonceExactly(c.realm, nonce);
    AnswerVerifies(h, c.realm, nonce, u.user, u.secret, u.uri, u.cnonce);
    ChallengeKeepsCalls(h, c, s, first);
    Answered(h, c, HandleInvite(h, c, s, first).server, second);
  }

  lemma ChallengeKeepsCalls(h: Hash, c: Config, s: Server, i: Invite)
    requires |s.sessions| < c.maxCalls && i.auth == ""
    ensures Calls(HandleInvite(h, c, s, i).server) == Calls(s)
  {
    hide ChallengeValue, IssuedNonce, Evict, Put;
  }

  /** The other events neither see nor change the open challenges. */
  lemma StepsCalls(h: Hash, c: Config, s: Server, e: Event)
    requires !e.Invited?
    ensures var t, r := Calls(s), Calls(Run(h, c, s, [e]));
            && (e.Bye? ==> r == HandleBye(t, e.callId))
            && (e.Done? ==> r == OnDone(t, e.task))
            && (e.StopBegins? ==> r == StopBegin(t))
            && (e.StopEnds? ==> r == StopEnd(t))
  {
    RunOne(h, c, s, e);
  }

  // ---- A call id used again before its old task is done ------------------------------------------------

  /** A call, its BYE, the same call id again, and only then the end of the first call's task. */
  function Reuse(h: Hash, c: Config, callId: string, nonce: string, again: string, u: Client, task: nat): seq<Event> {
    Connect(h, c, callId, nonce, u) + [Bye(callId)] + Connect(h, c, callId, again, u) + [Done(task)]
  }

  predicate Emptied(s: Server) {
    s.sessions == map[] && s.tasks == map[] && s.cancelled == {} && forall t :: t in s.running ==> t < s.nextTask
  }

  lemma ReuseSteps(s: Server, callId: string)
    requires Emptied(s)
    ensures var r := OnDone(Accept(HandleBye(Accept(s, callId), callId), callId), s.nextTask);
            Emptied(r) && r.nextTask == s.nextTask + 2 && r.running == s.running[s.nextTask + 1 := callId]
    ensures HandleBye(Accept(s, callId), callId).sessions == map[]
  {
    var s2 := HandleBye(Accept(s, callId), callId);
    assert s2.sessions == map[] && s2.tasks == map[] && s2.cancelled == {s.nextTask};
    var s3 := Accept(s2, callId);
    assert s3.running == s.running[s.nextTask := callId][s.nextTask + 1 := callId];
    assert s3.sessions == map[callId := s.nextTask + 1];
    var s4 := OnDone(s3, s.nextTask);
    assert s4.running == s.running[s.nextTask + 1 := callId];
    assert s4.cancelled == {};
  }

  lemma EmptiedCalls(s: Server)
    ensures Emptied(Calls(s)) <==> Emptied(s)
  {
  }

  lemma ReuseRuns(h: Hash, c: Config, s: Server, callId: string, nonce: string, again: string, u: Client, task: nat)
    requires GoodHash(h) && Usable(h, c, u) && Drawn(nonce) && Drawn(again)
    requires |s.sessions| < c.maxCalls && |HandleBye(Accept(Calls(s), callId), callId).sessions| < c.maxCalls
    ensures Calls(Run(h, c, s, Reuse(h, c, callId, nonce, again, u, task))) ==
            OnDone(Accept(HandleBye(Accept(Calls(s), callId), callId), callId), task)
  {
    hide GoodHash, Usable, Drawn, Connect, Run, Step, Accept, HandleBye, OnDone;
    var a, b := Connect(h, c, callId, nonce, u), Connect(h, c, callId, again, u);
    RunAppend(h, c, s, a + [Bye(callId)] + b, [Done(task)]);
    RunAppend(h, c, s, a + [Bye(callId)], b);
    RunAppend(h, c, s, a, [Bye(callId)]);
    Connects(h, c, s, callId, nonce, u);
    var s1 := Run(h, c, s, a);
    StepsCalls(h, c, s1, Bye(callId));
    var s2 := Run(h, c, s1, [Bye(callId)]);
    assert Calls(s2).sessions == s2.sessions;
    Connects(h, c, s2, callId, again, u);
    StepsCalls(h, c, Run(h, c, s2, b), Done(task));
  }

  /** The tables end up empty, with the second call's task still live. */
  lemma ReuseLeavesLive(h: Hash, c: Config, s: Server, callId: string, nonce: string, again: string, u: Client)
    requires GoodHash(h) && Usable(h, c, u) && Drawn(nonce) && Drawn(again) && c.maxCalls > 0 && Emptied(s)
    ensures var r := Run(h, c, s, Reuse(h, c, callId, nonce, again, u, s.nextTask));
            Emptied(r) && r.nextTask == s.nextTask + 2 && r.running == s.running[s.nextTask + 1 := callId]
  {
    hide GoodHash, Usable, Drawn, Reuse, Run, Accept, HandleBye, OnDone;
    ReuseSteps(Calls(s), callId);
    ReuseRuns(h, c, s, callId, nonce, again, u, s.nextTask);
    EmptiedCalls(Run(h, c, s, Reuse(h, c, callId, nonce, again, u, s.nextTask)));
  }

  /** One reuse after another, two nonces each. */
  function Reuses(h: Hash, c: Config, callId: string, nonces: seq<string>, u: Client): seq<Event> {
    if |nonces| < 2 then []
    else
      var n := |nonces|;
      Reuses(h, c, callId, nonces[..n - 2], u) + Reuse(h, c, callId, nonces[n - 2], nonces[n - 1], u, n - 2)
  }

  /**
   The limit holds for recorded calls only: after n reuses n tasks are live and none is recorded,
   whatever the limit.
   */
  lemma {:induction false} ReusesLeaveLive(h: Hash, c: Config, callId: string, nonces: seq<string>, u: Client)
    requires GoodHash(h) && Usable(h, c, u) && c.maxCalls > 0
    requires |nonces| % 2 == 0 && forall i :: 0 <= i < |nonces| ==> Drawn(nonces[i])
    ensures var s := Run(h, c, IDLE, Reuses(h, c, callId, nonces, u));
            && Emptied(s) && s.nextTask == |nonces|
            && |LiveTasks(s)| == |nonces| / 2
    decreases |nonces|
  {
    hide GoodHash, Usable, Drawn, Reuse, Run;
    var es := Reuses(h, c, callId, nonces, u);
    if |nonces| < 2 {
      RunNone(h, c);
    } else {
      var n := |nonces|;
      var front := nonces[..n - 2];
      ReusesLeaveLive(h, c, callId, front, u);
      var s := Run(h, c, IDLE, Reuses(h, c, callId, front, u));
      RunAppend(h, c, IDLE, Reuses(h, c, callId, front, u), Reuse(h, c, callId, nonces[n - 2], nonces[n - 1], u, n - 2));
      ReuseLeavesLive(h, c, s, callId, nonces[n - 2], nonces[n - 1], u);
      var r := Run(h, c, IDLE, es);
      assert LiveTasks(r) == LiveTasks(s) + {n - 1};
    }
  }

  lemma RunNone(h: Hash, c: Config)
    ensures Run(h, c, IDLE, []) == IDLE && LiveTasks(IDLE) == {}
  {
  }

  // ---- A call accepted while the server stops --------------------------------------------------------

  /** One call, a stop, another call while the stop waits for the first one's task. */
  function CallDuringStop(h: Hash, c: Config, a: string, b: string, nonce: string, other: string, u: Client): seq<Event> {
    Connect(h, c, a, nonce, u) + [StopBegins] + Connect(h, c, b, other, u) + [Done(0), StopEnds]
  }

  lemma StopSteps(a: string, b: string)
    requires a != b
    ensures var s2 := StopBegin(Accept(IDLE, a));
            var r := StopEnd(OnDone(Accept(s2, b), 0));
            && s2.sessions == map[a := 0]
            && Live(r, 1) && r.running == map[1 := b] && r.sessions == map[] && r.tasks == map[]
  {
    var s1 := Accept(IDLE, a);
    var s2 := StopBegin(s1);
    assert s1.running == map[0 := a] && s1.tasks[a] == 0;
    assert s2.cancelled == {0};
    var s3 := Accept(s2, b);
    assert s3.running == map[0 := a, 1 := b];
    var s4 := OnDone(s3, 0);
    assert s4.running == map[1 := b] && s4.cancelled == {};
  }

  /** Although its call id is fresh, the second call's task is live after the stop, in neither table. */
  lemma StopLosesTask(h: Hash, c: Config, a: string, b: string, nonce: string, other: string, u: Client)
    requires GoodHash(h) && Usable(h, c, u) && Drawn(nonce) && Drawn(other) && c.maxCalls >= 2 && a != b
    ensures var s := Run(h, c, IDLE, CallDuringStop(h, c, a, b, nonce, other, u));
            Live(s, 1) && s.running == map[1 := b] && s.sessions == map[] && s.tasks == map[]
  {
    hide GoodHash, Usable, Drawn, Connect, Run, Step, Accept, StopBegin, OnDone, StopEnd;
    var x, y := Connect(h, c, a, nonce, u), Connect(h, c, b, other, u);
    assert x + [StopBegins] + y + [Done(0), StopEnds] == x + [StopBegins] + y + [Done(0)] + [StopEnds];
    RunAppend(h, c, IDLE, x + [StopBegins] + y + [Done(0)], [StopEnds]);
    RunAppend(h, c, IDLE, x + [StopBegins] + y, [Done(0)]);
    RunAppend(h, c, IDLE, x + [StopBegins], y);
    RunAppend(h, c, IDLE, x, [StopBegins]);
    StopSteps(a, b);
    assert Calls(IDLE) == IDLE;
    Connects(h, c, IDLE, a, nonce, u);
    var s1 := Run(h, c, IDLE, x);
    StepsCalls(h, c, s1, StopBegins);
    var s2 := Run(h, c, s1, [StopBegins]);
    Connects(h, c, s2, b, other, u);
    var s3 := Run(h, c, s2, y);
    StepsCalls(h, c, s3, Done(0));
    var s4 := Run(h, c, s3, [Done(0)]);
    StepsCalls(h, c, s4, StopEnds);
  }
}
