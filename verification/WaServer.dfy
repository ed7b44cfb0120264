/** WaSIPServer: the call tables changed in place, against the transitions of WaSpec. */
module WaServer {
  import opened Options
  import opened Dicts
  import opened SipAuth
  import WaSpec

  class WaSIPServer {
    const config: WaSpec.Config
    const hash: Hash
    var activeSessions: map<string, nat>
    var sessionTasks: map<string, nat>
    var pendingChallenges: Dict<string, string>
    var running: map<nat, string>
    var cancelled: set<nat>
    var nextTask: nat

    ghost function View(): WaSpec.Server
      reads this
    {
      WaSpec.Server(activeSessions, sessionTasks, pendingChallenges, running, cancelled, nextTask)
    }

    constructor (h: Hash, c: WaSpec.Config)
      ensures config == c && hash == h && View() == WaSpec.IDLE
    {
      config, hash := c, h;
      activeSessions, sessionTasks, pendingChallenges := map[], map[], [];
      running, cancelled, nextTask := map[], {}, 0;
    }

    method EvictChallenges(bound: nat)
      requires bound > 0
      modifies this`pendingChallenges
      ensures pendingChallenges == WaSpec.Evict(old(pendingChallenges), bound)
    {
      while |pendingChallenges| >= bound
        invariant WaSpec.Evict(pendingChallenges, bound) == WaSpec.Evict(old(pendingChallenges), bound)
        decreases |pendingChallenges|
      {
        var oldest := pendingChallenges[0].key;
        assert Find(pendingChallenges, oldest) == 0;
        assert Pop(pendingChallenges, oldest) == pendingChallenges[1..];
        pendingChallenges := Pop(pendingChallenges, oldest);
      }
    }

    method HandleInvite(i: WaSpec.Invite) returns (status: int, challenge: string)
      modifies this
      ensures WaSpec.Answer(View(), status, challenge) == WaSpec.HandleInvite(hash, config, old(View()), i)
    {
      hide VerifyDigest, ParseChallenge, ChallengeValue, IssuedNonce, Get, Put, Pop, WaSpec.Evict;
      if |activeSessions| >= config.maxCalls {
        return 503, "";
      }
      if i.auth == "" {
        EvictChallenges(2 * config.maxCalls);
        challenge := ChallengeValue(config.realm, i.drawn);
        pendingChallenges := Put(pendingChallenges, i.callId, IssuedNonce(challenge));
        return 407, challenge;
      }
      var pending := Get(pendingChallenges, i.callId);
      if pending.Some? {
        var params := ParseChallenge(i.auth);
        if params.Some? && Param(params.value, "nonce") != pending {
          pendingChallenges := Pop(pendingChallenges, i.callId);
          return 403, "";
        }
      }
      if !VerifyDigest(hash, i.auth, config.username, config.password, "INVITE") {
        pendingChallenges := Pop(pendingChallenges, i.callId);
        return 403, "";
      }
      pendingChallenges := Pop(pendingChallenges, i.callId);
      if !i.mediaOk {
        return 488, "";
      }
      if !i.setupOk {
        return 488, "";
      }
      var task := nextTask;
      activeSessions := activeSessions[i.callId := task];
      nextTask := nextTask + 1;
      running := running[task := i.callId];
      sessionTasks := sessionTasks[i.callId := task];
      return 200, "";
    }

    method HandleBye(callId: string)
      modifies this
      ensures View() == WaSpec.HandleBye(old(View()), callId)
    {
      activeSessions := activeSessions - {callId};
      if callId in sessionTasks {
        var task := sessionTasks[callId];
        sessionTasks := sessionTasks - {callId};
        if task in running {
          cancelled := cancelled + {task};
        }
      }
    }

    method OnDone(task: nat)
      modifies this
      ensures View() == WaSpec.OnDone(old(View()), task)
    {
      if task in running {
        var callId := running[task];
        running := running - {task};
        cancelled := cancelled - {task};
        sessionTasks := sessionTasks - {callId};
        activeSessions := activeSessions - {callId};
      }
    }

    method StopBegin()
      modifies this`cancelled
      ensures View() == WaSpec.StopBegin(old(View()))
    {
      cancelled := cancelled + set t | t in running && t in sessionTasks.Values;
    }

    method StopEnd()
      modifies this
      ensures View() == WaSpec.StopEnd(old(View()))
    {
      sessionTasks := map[];
      activeSessions := map[];
    }
  }
}
