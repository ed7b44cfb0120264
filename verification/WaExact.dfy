/** When each answer to an INVITE is given, what it leaves behind, and where recorded calls come from. */
module WaExact {
  import opened Options
  import opened Dicts
  import opened SipAuth
  import opened WaSpec
  import opened WaRuns

  /** The INVITE verifies and, while a challenge of its call is pending, carries that challenge's nonce. */
  predicate Rightful(h: Hash, c: Config, s: Server, i: Invite) {
    var open := Get(s.pending, i.callId);
    && VerifyDigest(h, i.auth, c.username, c.password, "INVITE")
    && ParseChallenge(i.auth).Some?
    && (open.Some? ==> Param(ParseChallenge(i.auth).value, "nonce") == open)
  }

  /** The one condition for each status. */
  lemma StatusExactly(h: Hash, c: Config, s: Server, i: Invite)
    ensures var status, room := HandleInvite(h, c, s, i).status, |s.sessions| < c.maxCalls;
            && (status == 503 <==> !room)
            && (status == 407 <==> room && i.auth == "")
            && (status == 403 <==> room && i.auth != "" && !Rightful(h, c, s, i))
            && (status == 488 <==> room && i.auth != "" && Rightful(h, c, s, i) && !(i.mediaOk && i.setupOk))
            && (status == 200 <==> room && i.auth != "" && Rightful(h, c, s, i) && i.mediaOk && i.setupOk)
  {
    hide ParseChallenge, Response, ChallengeValue, IssuedNonce, Get, Pop, Put, Evict;
  }

  /** A refused or challenged call leaves every table but the open challenges as it was. */
  lemma RefusedExactly(h: Hash, c: Config, s: Server, i: Invite)
    requires Unique(s.pending) && HandleInvite(h, c, s, i).status != 200
    ensures var a := HandleInvite(h, c, s, i);
            && a.server == s.(pending := a.server.pending)
            && (a.status == 503 ==> a.server == s)
            && (a.status == 403 || a.status == 488 ==> forall k :: Get(a.server.pending, k) == if k == i.callId then None else Get(s.pending, k))
            && (a.status != 407 ==> a.challenge == "")
  {
    hide VerifyDigest, ParseChallenge, ChallengeValue, IssuedNonce, Get, Pop, Put, Evict;
    forall k
      ensures Get(Pop(s.pending, i.callId), k) == if k == i.callId then None else Get(s.pending, k)
    {
      GetPop(s.pending, i.callId, k);
    }
  }

  /**
   A challenge is remembered with its nonce; the open ones are kept while they are fewer than twice the
   limit, else all but the oldest of them.
   */
  lemma ChallengedExactly(h: Hash, c: Config, s: Server, i: Invite, k: string)
    requires HandleInvite(h, c, s, i).status == 407
    ensures var a, bound := HandleInvite(h, c, s, i), 2 * c.maxCalls;
            var kept := if |s.pending| < bound then s.pending else s.pending[|s.pending| - (bound - 1)..];
            && a.challenge == ChallengeValue(c.realm, i.drawn)
            && Get(a.server.pending, k) == if k == i.callId then Some(IssuedNonce(a.challenge)) else Get(kept, k)
  {
    hide HandleInvite, ChallengeValue, IssuedNonce, Get, Put, Evict;
    ChallengeAnswers(h, c, s, i);
    EvictExactly(s.pending, 2 * c.maxCalls);
    GetPut(Evict(s.pending, 2 * c.maxCalls), i.callId, IssuedNonce(ChallengeValue(c.realm, i.drawn)), k);
  }

  lemma ChallengeAnswers(h: Hash, c: Config, s: Server, i: Invite)
    requires HandleInvite(h, c, s, i).status == 407
    ensures HandleInvite(h, c, s, i) == Challenge(c, s, i) && c.maxCalls > 0
  {
    hide VerifyDigest, NonceMismatch, Challenge, Pop, Accept;
  }

  lemma EvictExactly(p: Dict<string, string>, bound: nat)
    requires bound > 0
    ensures Evict(p, bound) == if |p| < bound then p else p[|p| - (bound - 1)..]
  {
    hide Evict;
  }

  /** An accepted call is recorded under a new task, which runs; nothing else is recorded or lost. */
  lemma AcceptedExactly(h: Hash, c: Config, s: Server, i: Invite)
    requires Unique(s.pending) && HandleInvite(h, c, s, i).status == 200
    ensures var r := HandleInvite(h, c, s, i).server;
            && (forall k :: k in r.sessions <==> k == i.callId || k in s.sessions)
            && (forall k :: k in r.sessions ==> r.sessions[k] == if k == i.callId then s.nextTask else s.sessions[k])
            && (forall k :: k in r.tasks <==> k == i.callId || k in s.tasks)
            && (forall k :: k in r.tasks ==> r.tasks[k] == if k == i.callId then s.nextTask else s.tasks[k])
            && (forall t :: t in r.running <==> t == s.nextTask || t in s.running)
            && (forall t :: t in r.running ==> r.running[t] == if t == s.nextTask then i.callId else s.running[t])
            && r.cancelled == s.cancelled && r.nextTask == s.nextTask + 1
            && (forall k :: Get(r.pending, k) == if k == i.callId then None else Get(s.pending, k))
  {
    hide VerifyDigest, ParseChallenge, ChallengeValue, IssuedNonce, Get, Pop, Put, Evict;
    forall k
      ensures Get(Pop(s.pending, i.callId), k) == if k == i.callId then None else Get(s.pending, k)
    {
      GetPop(s.pending, i.callId, k);
    }
  }

  /** A BYE forgets its call alone and cancels the task recorded for it if that still runs. */
  lemma ByeExactly(s: Server, callId: string)
    ensures var r := HandleBye(s, callId);
            && (forall k :: k in r.sessions <==> k != callId && k in s.sessions)
            && (forall k :: k in r.sessions ==> r.sessions[k] == s.sessions[k])
            && (forall k :: k in r.tasks <==> k != callId && k in s.tasks)
            && (forall k :: k in r.tasks ==> r.tasks[k] == s.tasks[k])
            && (forall t :: t in r.cancelled <==> t in s.cancelled || (callId in s.tasks && t == s.tasks[callId] && t in s.running))
            && r.running == s.running && r.pending == s.pending && r.nextTask == s.nextTask
  {
  }

  /** The end of a task: it no longer runs, and its call id leaves both tables. */
  lemma DoneExactly(s: Server, task: nat)
    ensures var r := OnDone(s, task);
            && (task !in s.running ==> r == s)
            && (task in s.running ==>
                  && (forall k :: k in r.sessions <==> k != s.running[task] && k in s.sessions)
                  && (forall k :: k in r.sessions ==> r.sessions[k] == s.sessions[k])
                  && (forall k :: k in r.tasks <==> k != s.running[task] && k in s.tasks)
                  && (forall k :: k in r.tasks ==> r.tasks[k] == s.tasks[k]))
            && (forall t :: t in r.running <==> t != task && t in s.running)
            && (forall t :: t in r.running ==> r.running[t] == s.running[t])
            && r.pending == s.pending && r.nextTask == s.nextTask
  {
  }

  /** A stop cancels the recorded running tasks and, once they have ended, empties both tables. */
  lemma StopExactly(s: Server)
    ensures var r := StopBegin(s);
            && r == s.(cancelled := r.cancelled)
            && forall t :: t in r.cancelled <==> t in s.cancelled || (t in s.running && exists k :: k in s.tasks && s.tasks[k] == t)
    ensures StopEnd(s) == s.(sessions := map[], tasks := map[])
  {
  }

  /** This INVITE, of this call, was accepted with credentials that verify and media that can be set up. */
  predicate Admitted(h: Hash, c: Config, e: Event, callId: string) {
    && e.Invited? && e.invite.callId == callId && e.invite.mediaOk && e.invite.setupOk
    && VerifyDigest(h, e.invite.auth, c.username, c.password, "INVITE")
  }

  /** In every run, a recorded call comes from an INVITE of its own that verified and had usable media. */
  lemma {:induction false} RecordedFromInvite(h: Hash, c: Config, es: seq<Event>, callId: string)
    requires callId in Run(h, c, IDLE, es).sessions
    ensures exists n :: 0 <= n < |es| && Admitted(h, c, es[n], callId)
  {
    hide HandleInvite, VerifyDigest;
    if es != [] {
      var front, e := es[..|es| - 1], es[|es| - 1];
      var s := Run(h, c, IDLE, front);
      if callId in s.sessions {
        RecordedFromInvite(h, c, front, callId);
        var n :| 0 <= n < |front| && Admitted(h, c, front[n], callId);
        assert Admitted(h, c, es[n], callId);
      } else {
        NewlyRecorded(h, c, s, e, callId);
        assert Admitted(h, c, es[|es| - 1], callId);
      }
    }
  }

  lemma NewlyRecorded(h: Hash, c: Config, s: Server, e: Event, callId: string)
    requires callId !in s.sessions && callId in Step(h, c, s, e).sessions
    ensures Admitted(h, c, e, callId)
  {
    hide VerifyDigest, ParseChallenge, ChallengeValue, IssuedNonce, Get, Pop, Put, Evict, NonceMismatch;
  }
}
