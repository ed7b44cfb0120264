/** INVITE, 407, authenticated INVITE: when the handshake ends in an accepted call. */
module WaHandshake {
  import opened Options
  import opened Dicts
  import opened SipText
  import opened SipAuth
  import opened SipAuthProofs
  import opened SipAuthDigest
  import opened SipAuthSound
  import opened WaSpec
  import opened WaRuns

  /** The credential a client derives from a challenge. */
  function CredentialFor(p: Params, username: string, password: string, uri: string, cnonce: string): Credential {
    Credential(username, ParamOr(p, "realm", ""), password, ParamOr(p, "nonce", ""), "INVITE", uri,
               ParamOr(p, "algorithm", "MD5"), Param(p, "qop"), Param(p, "opaque"), cnonce)
  }

  /** The Proxy-Authorization value a client answers a 407 with; empty when it cannot. */
  function ClientAnswer(h: Hash, challenge: string, username: string, password: string, uri: string, cnonce: string): string {
    match ParseChallenge(challenge)
    case None => ""
    case Some(p) =>
      match BuildAuthHeader(h, 407, CredentialFor(p, username, password, uri, cnonce))
      case None => ""
      case Some(header) => if |header| >= 21 then header[21..] else ""
  }

  lemma ChallengeFieldsOk(realm: string, nonce: string)
    requires Quotable(realm) && Quotable(nonce)
    ensures AllOk(ChallengeFields(realm, nonce)) && DistinctKeys(ChallengeFields(realm, nonce))
  {
    KeysAreWords();
    var fs := ChallengeFields(realm, nonce);
    assert Token("MD5") && Quotable("auth");
    forall i, j | 0 <= i < j < |fs|
      ensures fs[i].key != fs[j].key
    {
      KeysDiffer(fs[i].key, fs[j].key);
    }
  }

  lemma NoOpaque(realm: string, nonce: string)
    ensures !HasKey(ChallengeFields(realm, nonce), "opaque")
  {
    var fs := ChallengeFields(realm, nonce);
    forall i | 0 <= i < |fs|
      ensures fs[i].key != "opaque"
    {
      KeysDiffer(fs[i].key, "opaque");
    }
  }

  /** A challenge parses back to what it was built from. */
  lemma ChallengeParses(realm: string, nonce: string)
    requires Quotable(realm) && Quotable(nonce)
    ensures var r := ParseChallenge(ChallengeValue(realm, nonce));
            && r.Some?
            && Param(r.value, "realm") == Some(realm) && Param(r.value, "nonce") == Some(nonce)
            && Param(r.value, "algorithm") == Some("MD5") && Param(r.value, "qop") == Some("auth")
            && Param(r.value, "opaque") == None
  {
    hide ParseChallenge, Updated, AllOk, DistinctKeys, RenderAll, HasKey;
    var fs, name := ChallengeFields(realm, nonce), "Proxy-Authenticate";
    ChallengeFieldsOk(realm, nonce);
    ChallengeName(name);
    ParseRendered(fs, name);
    UpdatedAt(map[], fs, 0);
    UpdatedAt(map[], fs, 1);
    UpdatedAt(map[], fs, 2);
    UpdatedAt(map[], fs, 3);
    NoOpaque(realm, nonce);
    UpdatedOther(map[], fs, "opaque");
  }

  lemma ChallengeName(name: string)
    requires name == "Proxy-Authenticate"
    ensures name != "" && forall i :: 0 <= i < |name| ==> IsNameChar(name[i])
  {
  }

  lemma AuthSelected(q: Option<string>)
    requires q == Some("auth")
    ensures SelectQop(q) == Some("auth") && Token("auth")
  {
    var t := "auth";
    assert Strip(t) == t && ',' !in t by { StripTrims(t); }
    SingleToken(t);
  }

  lemma Md5Supported(a: string)
    requires a == "MD5"
    ensures FamilyOf(a) == Some(Md5) && !IsSess(a)
  {
    assert Upper(a) == a;
  }

  lemma ProxyHeaderName()
    ensures |HeaderName(407) + ": "| == 21
  {
  }

  /** The answer to a challenge verifies and carries the challenge's nonce. */
  lemma AnswerVerifies(h: Hash, realm: string, nonce: string, username: string, password: string, uri: string, cnonce: string)
    requires GoodHash(h) && Quotable(realm) && Quotable(nonce) && Quotable(username) && Quotable(uri) && Quotable(cnonce)
    ensures var answer := ClientAnswer(h, ChallengeValue(realm, nonce), username, password, uri, cnonce);
            && VerifyDigest(h, answer, username, password, "INVITE")
            && ParseChallenge(answer).Some? && Param(ParseChallenge(answer).value, "nonce") == Some(nonce)
            && answer != ""
  {
    hide ParseChallenge, ChallengeValue, Quotable, Response, FamilyOf, IsSess, SelectQop, Token, HeaderName, BuildAuthHeader, VerifyDigest;
    ChallengeParses(realm, nonce);
    var p := ParseChallenge(ChallengeValue(realm, nonce)).value;
    var c := CredentialFor(p, username, password, uri, cnonce);
    assert c == Credential(username, realm, password, nonce, "INVITE", uri, "MD5", Some("auth"), None, cnonce);
    AuthSelected(c.qop);
    Md5Supported(c.algorithm);
    BuiltVerifies(h, 407, c);
    ProxyHeaderName();
    var answer := ClientAnswer(h, ChallengeValue(realm, nonce), username, password, uri, cnonce);
    if answer == "" {
      EmptyDoesNotParse();
    }
  }

  lemma EmptyDoesNotParse()
    ensures ParseChallenge("") == None
  {
    assert Strip("") == "";
  }

  /** An INVITE without credentials is challenged, and its challenge becomes the pending one. */
  lemma Challenged(h: Hash, c: Config, s: Server, i: Invite)
    requires |s.sessions| < c.maxCalls && i.auth == ""
    ensures var r := HandleInvite(h, c, s, i);
            && r.status == 407 && r.challenge == ChallengeValue(c.realm, i.drawn)
            && Get(r.server.pending, i.callId) == Some(IssuedNonce(r.challenge))
  {
    hide ChallengeValue, IssuedNonce, Evict, Put, Get;
    GetPut(Evict(s.pending, 2 * c.maxCalls), i.callId, IssuedNonce(ChallengeValue(c.realm, i.drawn)), i.callId);
  }

  /** A usable INVITE whose header parses is decided by its digest and by the nonce that is pending, if any. */
  lemma Answered(h: Hash, c: Config, s: Server, i: Invite)
    requires |s.sessions| < c.maxCalls && i.auth != "" && i.mediaOk && i.setupOk && ParseChallenge(i.auth).Some?
    ensures var r, remembered := HandleInvite(h, c, s, i), Get(s.pending, i.callId);
            var right := && (remembered.None? || Param(ParseChallenge(i.auth).value, "nonce") == remembered)
                         && VerifyDigest(h, i.auth, c.username, c.password, "INVITE");
            && r.status == (if right then 200 else 403)
            && r.server == (if right then Accept(s.(pending := Pop(s.pending, i.callId)), i.callId)
                            else s.(pending := Pop(s.pending, i.callId)))
  {
    hide ParseChallenge, VerifyDigest, Pop, Get, Accept;
  }

  // ---- The pending challenge over a run ---------------------------------------------------------------

  predicate NoInviteOf(callId: string, es: seq<Event>) {
    forall n :: 0 <= n < |es| && es[n].Invited? ==> es[n].invite.callId != callId
  }

  /** Eviction keeps a nonce or loses it, but never changes it. */
  lemma {:induction false} EvictKeeps(p: Dict<string, string>, bound: nat, k: string)
    requires Unique(p)
    ensures Get(Evict(p, bound), k) == Get(p, k) || Get(Evict(p, bound), k) == None
    decreases |p|
  {
    if |p| >= bound && p != [] {
      assert Unique(p[1..]);
      EvictKeeps(p[1..], bound, k);
      FirstGet(p, k);
    }
  }

  lemma FirstGet(p: Dict<string, string>, k: string)
    requires p != [] && Unique(p)
    ensures Get(p[1..], k) == if p[0].key == k then None else Get(p, k)
  {
    assert forall j :: 0 <= j < |p| - 1 ==> p[1..][j] == p[j + 1];
  }

  lemma ChallengeKeepsPending(c: Config, s: Server, i: Invite, callId: string)
    requires Unique(s.pending) && i.callId != callId
    ensures var r := Get(Challenge(c, s, i).server.pending, callId); r == Get(s.pending, callId) || r == None
  {
    hide ChallengeValue, IssuedNonce, Unique, Get, Put, Evict;
    EvictKeeps(s.pending, 2 * c.maxCalls, callId);
    GetPut(Evict(s.pending, 2 * c.maxCalls), i.callId, IssuedNonce(ChallengeValue(c.realm, i.drawn)), callId);
  }

  lemma InviteKeepsPending(h: Hash, c: Config, s: Server, i: Invite, callId: string)
    requires Unique(s.pending) && i.callId != callId
    ensures var r := Get(HandleInvite(h, c, s, i).server.pending, callId); r == Get(s.pending, callId) || r == None
  {
    hide VerifyDigest, NonceMismatch, Unique, Get, Pop, Challenge;
    ChallengeKeepsPending(c, s, i, callId);
    GetPop(s.pending, i.callId, callId);
  }

  lemma StepKeepsPending(h: Hash, c: Config, s: Server, e: Event, callId: string)
    requires Unique(s.pending) && (e.Invited? ==> e.invite.callId != callId)
    ensures var r := Get(Step(h, c, s, e).pending, callId); r == Get(s.pending, callId) || r == None
  {
    hide HandleInvite, Unique, Get;
    if e.Invited? {
      InviteKeepsPending(h, c, s, e.invite, callId);
    }
  }

  /** Until the call's next INVITE, its pending nonce stays as it is or is evicted. */
  lemma {:induction false} PendingKept(h: Hash, c: Config, s: Server, es: seq<Event>, callId: string)
    requires Inv(c, s) && NoInviteOf(callId, es)
    ensures var r := Get(Run(h, c, s, es).pending, callId); r == Get(s.pending, callId) || r == None
    ensures Inv(c, Run(h, c, s, es))
  {
    hide Step, Get, Inv;
    if es != [] {
      var front, e := es[..|es| - 1], es[|es| - 1];
      PendingKept(h, c, s, front, callId);
      var t := Run(h, c, s, front);
      InvUnique(c, t);
      StepKeepsPending(h, c, t, e, callId);
      StepKeepsInv(h, c, t, e);
    }
  }

  lemma InvUnique(c: Config, s: Server)
    requires Inv(c, s)
    ensures Unique(s.pending)
  {
  }

  // ---- The handshake ------------------------------------------------------------------------------------

  datatype Client = Client(user: string, secret: string, uri: string, cnonce: string)

  predicate ClientOk(u: Client) {
    Quotable(u.user) && Quotable(u.uri) && Quotable(u.cnonce)
  }

  predicate Drawn(nonce: string) {
    Quotable(nonce) && ',' !in nonce
  }

  function AfterChallenge(h: Hash, c: Config, before: seq<Event>, first: Invite): Server {
    HandleInvite(h, c, Run(h, c, IDLE, before), first).server
  }

  /**
   A handshake within a run: what happened before the first INVITE and between the two, each coming
   while there is room, and the second carrying the client's answer to the challenge.
   */
  predicate Handshake(h: Hash, c: Config, before: seq<Event>, first: Invite, between: seq<Event>, second: Invite, u: Client) {
    && |Run(h, c, IDLE, before).sessions| < c.maxCalls && first.auth == "" && Drawn(first.drawn)
    && NoInviteOf(first.callId, between)
    && |Run(h, c, AfterChallenge(h, c, before, first), between).sessions| < c.maxCalls
    && second.callId == first.callId && second.mediaOk && second.setupOk
    && second.auth == ClientAnswer(h, ChallengeValue(c.realm, first.drawn), u.user, u.secret, u.uri, u.cnonce)
  }

  /** What the server still remembers of the challenge when the answer comes. */
  lemma Remembered(h: Hash, c: Config, before: seq<Event>, first: Invite, between: seq<Event>, second: Invite, u: Client)
    requires Handshake(h, c, before, first, between, second, u)
    ensures var r := HandleInvite(h, c, Run(h, c, IDLE, before), first);
            r.status == 407 && r.challenge == ChallengeValue(c.realm, first.drawn)
    ensures var r := Get(Run(h, c, AfterChallenge(h, c, before, first), between).pending, first.callId);
            r == Some(IssuedNonce(ChallengeValue(c.realm, first.drawn))) || r == None
  {
    hide Run, HandleInvite, Get, Inv, ChallengeValue, IssuedNonce, ClientAnswer;
    RunKeepsInv(h, c, before);
    InviteKeepsInv(h, c, Run(h, c, IDLE, before), first);
    Challenged(h, c, Run(h, c, IDLE, before), first);
    PendingKept(h, c, AfterChallenge(h, c, before, first), between, first.callId);
  }

  /**
   INVITE, 407, authenticated INVITE with the right credentials, in any run and with anything but
   another INVITE of the call between the two: the call is accepted and recorded exactly when the realm
   does not end with the text that makes the server remember the wrong nonce, or the challenge has been
   evicted meanwhile.
   */
  lemma HandshakeExactly(h: Hash, c: Config, before: seq<Event>, first: Invite, between: seq<Event>, second: Invite, u: Client)
    requires GoodHash(h) && Quotable(c.realm) && ClientOk(u) && u.user == c.username && u.secret == c.password
    requires Handshake(h, c, before, first, between, second, u)
    ensures HandleInvite(h, c, Run(h, c, IDLE, before), first).status == 407
    ensures var later := Run(h, c, AfterChallenge(h, c, before, first), between);
            var r := HandleInvite(h, c, later, second);
            && (r.status == 200 <==> !EndsWith(c.realm, "nonce=") || Get(later.pending, first.callId) == None)
            && (r.status == 200 ==> r.server.sessions == later.sessions[first.callId := later.nextTask])
            && (r.status != 200 ==> r.status == 403)
  {
    hide ParseChallenge, ChallengeValue, Quotable, GoodHash, VerifyDigest, IssuedNonce, ClientAnswer, EndsWith, Get, HandleInvite, Run, Pop;
    Remembered(h, c, before, first, between, second, u);
    IssuedNonceExactly(c.realm, first.drawn);
    AnswerVerifies(h, c.realm, first.drawn, u.user, u.secret, u.uri, u.cnonce);
    Answered(h, c, Run(h, c, AfterChallenge(h, c, before, first), between), second);
  }

  /** The digest of an answer to an MD5 challenge. */
  function AnswerDigest(realm: string, nonce: string, u: Client): Digest {
    Digest(u.user, realm, u.secret, nonce, "INVITE", u.uri, "MD5", Some("auth"), Some(NC), Some(u.cnonce))
  }

  /** An answer verifies for exactly the credentials it was made with, but for a collision. */
  lemma AnswerVerifiesExactly(h: Hash, realm: string, nonce: string, u: Client, username: string, password: string)
    requires GoodHash(h) && ColonFree(h) && Quotable(realm) && Quotable(nonce) && ClientOk(u)
    requires !Clash(h, AnswerDigest(realm, nonce, u), AnswerDigest(realm, nonce, u.(secret := password)))
    ensures VerifyDigest(h, ClientAnswer(h, ChallengeValue(realm, nonce), u.user, u.secret, u.uri, u.cnonce), username, password, "INVITE") <==>
            u.user == username && u.secret == password
  {
    hide ParseChallenge, ChallengeValue, Quotable, Response, FamilyOf, IsSess, SelectQop, Token, HeaderName, BuildAuthHeader,
      GoodHash, ColonFree, Clash;
    ChallengeParses(realm, nonce);
    var c := CredentialFor(ParseChallenge(ChallengeValue(realm, nonce)).value, u.user, u.secret, u.uri, u.cnonce);
    assert c == Credential(u.user, realm, u.secret, nonce, "INVITE", u.uri, "MD5", Some("auth"), None, u.cnonce);
    AuthSelected(c.qop);
    Md5Supported(c.algorithm);
    BuiltVerifies(h, 407, c);
    assert ReadDigest(c) == AnswerDigest(realm, nonce, u);
    VerifiesExactly(h, 407, c, username, password, c.sipMethod);
    ProxyHeaderName();
  }

  /**
   The handshake of any client, in any run, ends in 200 exactly for the configured user name and
   password and in 403 otherwise. The only exception is a collision between the texts hashed for the
   client's password and for the configured one.
   */
  lemma OnlyRightCredentialsConnect(h: Hash, c: Config, before: seq<Event>, first: Invite, between: seq<Event>, second: Invite, u: Client)
    requires GoodHash(h) && ColonFree(h) && Quotable(c.realm) && ClientOk(u) && !EndsWith(c.realm, "nonce=")
    requires Handshake(h, c, before, first, between, second, u)
    requires !Clash(h, AnswerDigest(c.realm, first.drawn, u), AnswerDigest(c.realm, first.drawn, u.(secret := c.password)))
    ensures var later := Run(h, c, AfterChallenge(h, c, before, first), between);
            var r := HandleInvite(h, c, later, second);
            && r.status == (if u.user == c.username && u.secret == c.password then 200 else 403)
            && (r.status == 403 ==> r.server.sessions == later.sessions)
  {
    hide ParseChallenge, ChallengeValue, Quotable, GoodHash, ColonFree, Clash, VerifyDigest, IssuedNonce, ClientAnswer,
      EndsWith, Get, HandleInvite, Run, Pop;
    Remembered(h, c, before, first, between, second, u);
    IssuedNonceExactly(c.realm, first.drawn);
    AnswerVerifies(h, c.realm, first.drawn, u.user, u.secret, u.uri, u.cnonce);
    AnswerVerifiesExactly(h, c.realm, first.drawn, u, c.username, c.password);
    Answered(h, c, Run(h, c, AfterChallenge(h, c, before, first), between), second);
  }

  /** With no challenge pending, the right answer to any nonce at all is accepted, issued or not. */
  lemma NothingPendingAccepts(h: Hash, c: Config, later: Server, second: Invite, nonce: string, u: Client)
    requires GoodHash(h) && Quotable(c.realm) && ClientOk(u) && u.user == c.username && u.secret == c.password && Quotable(nonce)
    requires |later.sessions| < c.maxCalls && Get(later.pending, second.callId) == None
    requires second.mediaOk && second.setupOk
    requires second.auth == ClientAnswer(h, ChallengeValue(c.realm, nonce), u.user, u.secret, u.uri, u.cnonce)
    ensures var r := HandleInvite(h, c, later, second);
            r.status == 200 && r.server.sessions == later.sessions[second.callId := later.nextTask]
  {
    hide ParseChallenge, ChallengeValue, Quotable, GoodHash, VerifyDigest, ClientAnswer, Pop, Get, HandleInvite;
    AnswerVerifies(h, c.realm, nonce, u.user, u.secret, u.uri, u.cnonce);
    Answered(h, c, later, second);
  }
}
