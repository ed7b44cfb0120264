/**
 The call tables of WaSIPServer (sip_bridge/wa_main.py) as transitions on values. INVITE, BYE and
 done callbacks run without interruption; `stop` awaits in the middle and is two transitions.
 */
module WaSpec {
  import opened Options
  import opened Dicts
  import opened SipAuth

  datatype Config = Config(realm: string, username: string, password: string, maxCalls: nat)

  /**
   `sessions` and `tasks` are keyed by call id and hold the number of the session's task; `pending`
   keeps the nonces of open challenges, oldest first. `running` are the tasks that are not done yet,
   with the call id their done callback will pop, and `cancelled` those that were cancelled.
   */
  datatype Server = Server(
    sessions: map<string, nat>, tasks: map<string, nat>, pending: Dict<string, string>,
    running: map<nat, string>, cancelled: set<nat>, nextTask: nat)

  const IDLE := Server(map[], map[], [], map[], {}, 0)

  /**
   An INVITE: its call id and Proxy-Authorization header (empty when absent), the nonce drawn should
   it be challenged, and whether its SDP names a media endpoint and the media setup succeeds.
   */
  datatype Invite = Invite(callId: string, auth: string, drawn: string, mediaOk: bool, setupOk: bool)

  datatype Answer = Answer(server: Server, status: int, challenge: string)

  /** Drop the oldest challenges while there are `bound` or more. */
  function Evict(pending: Dict<string, string>, bound: nat): (r: Dict<string, string>)
    ensures |r| <= |pending| && r == pending[|pending| - |r|..]
    ensures |pending| < bound ==> r == pending
    ensures 0 < bound <= |pending| ==> |r| == bound - 1
    ensures bound > 0 ==> |r| < bound
  {
    if |pending| >= bound && pending != [] then Evict(pending[1..], bound) else pending
  }

  function Challenge(c: Config, s: Server, i: Invite): Answer {
    var challenge := ChallengeValue(c.realm, i.drawn);
    Answer(s.(pending := Put(Evict(s.pending, 2 * c.maxCalls), i.callId, IssuedNonce(challenge))), 407, challenge)
  }

  /** A parsable header whose nonce is not the one issued to this call. */
  predicate NonceMismatch(s: Server, i: Invite) {
    match Get(s.pending, i.callId)
    case None => false
    case Some(nonce) =>
      match ParseChallenge(i.auth)
      case None => false  // the exception is swallowed
      case Some(p) => Param(p, "nonce") != Some(nonce)
  }

  function Accept(s: Server, callId: string): Server {
    s.(sessions := s.sessions[callId := s.nextTask],
       tasks := s.tasks[callId := s.nextTask],
       running := s.running[s.nextTask := callId],
       nextTask := s.nextTask + 1)
  }

  function HandleInvite(h: Hash, c: Config, s: Server, i: Invite): Answer {
    if |s.sessions| >= c.maxCalls then Answer(s, 503, "")
    else if i.auth == "" then Challenge(c, s, i)
    else
      var closed := s.(pending := Pop(s.pending, i.callId));
      if NonceMismatch(s, i) then Answer(closed, 403, "")
      else if !VerifyDigest(h, i.auth, c.username, c.password, "INVITE") then Answer(closed, 403, "")
      else if !i.mediaOk || !i.setupOk then Answer(closed, 488, "")
      else Answer(Accept(closed, i.callId), 200, "")
  }

  function HandleBye(s: Server, callId: string): Server {
    s.(sessions := s.sessions - {callId},
       tasks := s.tasks - {callId},
       cancelled := s.cancelled + if callId in s.tasks && s.tasks[callId] in s.running then {s.tasks[callId]} else {})
  }

  /** The done callback of a task: it pops by call id, whichever task is recorded there. */
  function OnDone(s: Server, task: nat): Server {
    if task in s.running then
      s.(sessions := s.sessions - {s.running[task]},
         tasks := s.tasks - {s.running[task]},
         running := s.running - {task},
         cancelled := s.cancelled - {task})
    else s
  }

  function StopBegin(s: Server): Server {
    s.(cancelled := s.cancelled + set t | t in s.running && t in s.tasks.Values)
  }

  function StopEnd(s: Server): Server {
    s.(sessions := map[], tasks := map[])
  }

  datatype Event = Invited(invite: Invite) | Bye(callId: string) | Done(task: nat) | StopBegins | StopEnds

  function Step(h: Hash, c: Config, s: Server, e: Event): Server {
    match e
    case Invited(i) => HandleInvite(h, c, s, i).server
    case Bye(callId) => HandleBye(s, callId)
    case Done(task) => OnDone(s, task)
    case StopBegins => StopBegin(s)
    case StopEnds => StopEnd(s)
  }

  function Run(h: Hash, c: Config, s: Server, es: seq<Event>): Server {
    if es == [] then s else Step(h, c, Run(h, c, s, es[..|es| - 1]), es[|es| - 1])
  }
}
