/** What a digest response commits to, and that only the right credentials verify. */
module SipAuthSound {
  import opened Options
  import opened SipText
  import opened SipAuth
  import opened SipAuthProofs
  import opened SipAuthDigest

  /** A digest has no colon: hexadecimal text has none. */
  ghost predicate ColonFree(h: Hash) {
    forall f: Family, d: string :: ':' !in h(f, d)
  }

  /** Two different texts with one digest. */
  predicate Collide(h: Hash, f: Family, a: string, b: string) {
    a != b && h(f, a) == h(f, b)
  }

  // ---- Texts joined by colons -------------------------------------------------------------------------

  /** No part but perhaps the last has a colon. */
  predicate Separable(ps: seq<string>) {
    ps != [] && forall i :: 0 <= i < |ps| - 1 ==> ':' !in ps[i]
  }

  lemma FirstColon(a: string, b: string)
    requires ':' !in a
    ensures var s := a + ":" + b; IndexOf(s, ':') == |a| && s[..|a|] == a && s[|a| + 1..] == b
  {
    var s := a + ":" + b;
    assert forall j :: 0 <= j < |a| ==> s[j] == a[j];
    IndexOfAt(s, ':', |a|);
  }

  lemma SplitColon(a: string, b: string, c: string, d: string)
    requires ':' !in a && ':' !in c && a + ":" + b == c + ":" + d
    ensures a == c && b == d
  {
    FirstColon(a, b);
    FirstColon(c, d);
  }

  lemma JoinedHasColon(ps: seq<string>)
    requires |ps| > 1
    ensures ':' in Join(ps, ":")
  {
    assert Join(ps, ":")[|ps[0]|] == ':';
  }

  /** Joined texts are equal only when their parts are; with last parts free of colons, for any number. */
  lemma {:induction false} JoinInjective(ps: seq<string>, qs: seq<string>)
    requires Separable(ps) && Separable(qs) && Join(ps, ":") == Join(qs, ":")
    requires |ps| == |qs| || (':' !in ps[|ps| - 1] && ':' !in qs[|qs| - 1])
    ensures ps == qs
    decreases |ps|
  {
    if |ps| > 1 && |qs| > 1 {
      SplitColon(ps[0], Join(ps[1..], ":"), qs[0], Join(qs[1..], ":"));
      JoinInjective(ps[1..], qs[1..]);
      assert ps == [ps[0]] + ps[1..] && qs == [qs[0]] + qs[1..];
    } else if |ps| > 1 {
      JoinedHasColon(ps);
    } else if |qs| > 1 {
      JoinedHasColon(qs);
    }
  }

  // ---- What is hashed -----------------------------------------------------------------------------------

  predicate Protects(d: Digest) {
    SelectQop(d.qop) == Some("auth") || SelectQop(d.qop) == Some("auth-int")
  }

  function UserParts(d: Digest): seq<string> {
    [d.username, d.realm, d.password]
  }

  function SessionParts(user: string, d: Digest): seq<string>
    requires d.cnonce.Some?
  {
    [user, d.nonce, d.cnonce.value]
  }

  function RequestParts(d: Digest): seq<string> {
    [d.sipMethod, d.uri]
  }

  predicate Computable(d: Digest) {
    FamilyOf(d.algorithm).Some? && (IsSess(d.algorithm) || Protects(d) ==> d.nc.Some? && d.cnonce.Some?)
  }

  function Secret(h: Hash, f: Family, d: Digest): string
    requires Computable(d)
  {
    var user := h(f, Join(UserParts(d), ":"));
    if IsSess(d.algorithm) then h(f, Join(SessionParts(user, d), ":")) else user
  }

  function ResponseParts(h: Hash, f: Family, d: Digest): seq<string>
    requires Computable(d)
  {
    var request := h(f, Join(RequestParts(d), ":"));
    if Protects(d) then [Secret(h, f, d), d.nonce, d.nc.value, d.cnonce.value, SelectQop(d.qop).value, request]
    else [Secret(h, f, d), d.nonce, request]
  }

  lemma JoinTwo(a: string, b: string)
    ensures Join([a, b], ":") == a + ":" + b
  {
    assert [a, b][1..] == [b];
  }

  lemma JoinThree(a: string, b: string, c: string)
    ensures Join([a, b, c], ":") == a + ":" + b + ":" + c
  {
    JoinTwo(b, c);
    assert [a, b, c][1..] == [b, c];
  }

  lemma JoinMore(p: string, ps: seq<string>)
    requires ps != []
    ensures Join([p] + ps, ":") == p + ":" + Join(ps, ":")
  {
    assert ([p] + ps)[1..] == ps;
  }

  lemma RegroupSix(a: string, b: string, c: string, d: string, e: string, f: string, sep: string)
    ensures a + sep + (b + sep + (c + sep + (d + sep + e + sep + f))) ==
            a + sep + b + sep + c + sep + d + sep + e + sep + f
  {
  }

  lemma JoinSix(a: string, b: string, c: string, d: string, e: string, f: string)
    ensures Join([a, b, c, d, e, f], ":") == a + ":" + b + ":" + c + ":" + d + ":" + e + ":" + f
  {
    hide Join;
    JoinThree(d, e, f);
    JoinMore(c, [d, e, f]);
    JoinMore(b, [c, d, e, f]);
    JoinMore(a, [b, c, d, e, f]);
    assert [c] + [d, e, f] == [c, d, e, f] && [b] + [c, d, e, f] == [b, c, d, e, f];
    assert [a] + [b, c, d, e, f] == [a, b, c, d, e, f];
    RegroupSix(a, b, c, d, e, f, ":");
  }

  /** A response is the digest of its joined parts. */
  lemma ResponseHashes(h: Hash, d: Digest)
    ensures Response(h, d).Some? <==> Computable(d)
    ensures Computable(d) ==>
              var f := FamilyOf(d.algorithm).value;
              Response(h, d) == Some(h(f, Join(ResponseParts(h, f, d), ":")))
  {
    hide FamilyOf, IsSess, SelectQop, Join;
    if Computable(d) {
      var f := FamilyOf(d.algorithm).value;
      var request := h(f, d.sipMethod + ":" + d.uri);
      JoinThree(d.username, d.realm, d.password);
      JoinTwo(d.sipMethod, d.uri);
      var user := h(f, Join(UserParts(d), ":"));
      if IsSess(d.algorithm) {
        JoinThree(user, d.nonce, d.cnonce.value);
      }
      var secret := Secret(h, f, d);
      JoinThree(secret, d.nonce, request);
      if Protects(d) {
        JoinSix(secret, d.nonce, d.nc.value, d.cnonce.value, SelectQop(d.qop).value, request);
      }
    }
  }

  function SecretText(h: Hash, f: Family, d: Digest): string
    requires Computable(d)
  {
    if IsSess(d.algorithm) then Join(SessionParts(h(f, Join(UserParts(d), ":")), d), ":") else Join(UserParts(d), ":")
  }

  /**
   A collision between texts that are really hashed for the two digests, in the same place: the user
   line, the session line, the request line or the response line.
   */
  predicate Clash(h: Hash, d: Digest, e: Digest) {
    Computable(d) && Computable(e) &&
    var f := FamilyOf(d.algorithm).value;
    || Collide(h, f, Join(UserParts(d), ":"), Join(UserParts(e), ":"))
    || Collide(h, f, SecretText(h, f, d), SecretText(h, f, e))
    || Collide(h, f, Join(RequestParts(d), ":"), Join(RequestParts(e), ":"))
    || Collide(h, f, Join(ResponseParts(h, f, d), ":"), Join(ResponseParts(h, f, e), ":"))
  }

  // ---- The response commits to everything it protects --------------------------------------------------

  predicate NoColon(v: Option<string>) {
    v.Some? ==> ':' !in v.value
  }

  /** Colons only where they cannot be confused: in the password and the uri. */
  predicate Unambiguous(d: Digest) {
    && ':' !in d.username && ':' !in d.realm && ':' !in d.nonce && ':' !in d.sipMethod
    && NoColon(d.nc) && NoColon(d.cnonce)
  }

  lemma SecretBinds(h: Hash, f: Family, d: Digest, e: Digest)
    requires ColonFree(h) && Unambiguous(d) && Unambiguous(e)
    requires Computable(d) && Computable(e) && d.algorithm == e.algorithm && FamilyOf(d.algorithm) == Some(f)
    requires !Clash(h, d, e) && Secret(h, f, d) == Secret(h, f, e)
    ensures d.username == e.username && d.realm == e.realm && d.password == e.password
    ensures IsSess(d.algorithm) ==> d.nonce == e.nonce && d.cnonce == e.cnonce
  {
    hide ColonFree, FamilyOf, IsSess, SelectQop, Join;
    var p, q := h(f, Join(UserParts(d), ":")), h(f, Join(UserParts(e), ":"));
    assert SecretText(h, f, d) == SecretText(h, f, e);
    if IsSess(d.algorithm) {
      NoColonIn(h, f, Join(UserParts(d), ":"));
      NoColonIn(h, f, Join(UserParts(e), ":"));
      JoinInjective(SessionParts(p, d), SessionParts(q, e));
      assert SessionParts(p, d)[0] == SessionParts(q, e)[0];
      assert SessionParts(p, d)[1] == SessionParts(q, e)[1];
      assert SessionParts(p, d)[2] == SessionParts(q, e)[2];
    }
    JoinInjective(UserParts(d), UserParts(e));
    assert UserParts(d)[0] == UserParts(e)[0] && UserParts(d)[1] == UserParts(e)[1] && UserParts(d)[2] == UserParts(e)[2];
  }

  lemma NoColonIn(h: Hash, f: Family, d: string)
    requires ColonFree(h)
    ensures ':' !in h(f, d)
  {
  }

  lemma NoColonInQop(q: Option<string>)
    requires q == Some("auth") || q == Some("auth-int")
    ensures ':' !in q.value
  {
  }

  lemma PartsClear(h: Hash, f: Family, d: Digest)
    requires ColonFree(h) && Unambiguous(d) && Computable(d)
    ensures var ps := ResponseParts(h, f, d); Separable(ps) && ':' !in ps[|ps| - 1]
  {
    hide ColonFree, FamilyOf, IsSess, SelectQop, Join;
    var user := h(f, Join(UserParts(d), ":"));
    NoColonIn(h, f, Join(UserParts(d), ":"));
    if IsSess(d.algorithm) {
      NoColonIn(h, f, Join(SessionParts(user, d), ":"));
    }
    NoColonIn(h, f, Join(RequestParts(d), ":"));
    if Protects(d) {
      NoColonInQop(SelectQop(d.qop));
    }
  }

  /** Agreement on everything a response protects. */
  predicate Agree(d: Digest, e: Digest) {
    && d.username == e.username && d.realm == e.realm && d.password == e.password
    && d.nonce == e.nonce && d.sipMethod == e.sipMethod && d.uri == e.uri
    && (IsSess(d.algorithm) ==> d.cnonce == e.cnonce)
    && Protects(d) == Protects(e)
    && (Protects(d) ==> d.nc == e.nc && d.cnonce == e.cnonce && SelectQop(d.qop) == SelectQop(e.qop))
  }

  /**
   Without a collision between the texts hashed for them, two digests under one algorithm have equal
   responses exactly when they agree on credentials, request and protection: nothing that goes into
   a response can be traded for something else.
   */
  lemma ResponseBinds(h: Hash, d: Digest, e: Digest)
    requires ColonFree(h) && Unambiguous(d) && Unambiguous(e) && !Clash(h, d, e)
    requires d.algorithm == e.algorithm && Response(h, d).Some? && Response(h, e).Some?
    ensures Response(h, d) == Response(h, e) <==> Agree(d, e)
  {
    hide ColonFree, FamilyOf, IsSess, SelectQop, Join, Response;
    ResponseHashes(h, d);
    ResponseHashes(h, e);
    if Response(h, d) == Response(h, e) {
      EqualResponsesAgree(h, d, e);
    }
    if Agree(d, e) {
      var f := FamilyOf(d.algorithm).value;
      assert Secret(h, f, d) == Secret(h, f, e);
    }
  }

  lemma EqualResponsesAgree(h: Hash, d: Digest, e: Digest)
    requires ColonFree(h) && Unambiguous(d) && Unambiguous(e) && !Clash(h, d, e)
    requires d.algorithm == e.algorithm && Response(h, d).Some? && Response(h, d) == Response(h, e)
    ensures Agree(d, e)
  {
    hide ColonFree, FamilyOf, IsSess, SelectQop, Join, Response, Secret, SecretText;
    ResponseHashes(h, d);
    ResponseHashes(h, e);
    var f := FamilyOf(d.algorithm).value;
    var ps, qs := ResponseParts(h, f, d), ResponseParts(h, f, e);
    PartsClear(h, f, d);
    PartsClear(h, f, e);
    JoinInjective(ps, qs);
    assert ps[0] == qs[0] && ps[1] == qs[1] && ps[2] == qs[2] && ps[|ps| - 1] == qs[|qs| - 1];
    SecretBinds(h, f, d, e);
    JoinInjective(RequestParts(d), RequestParts(e));
    assert RequestParts(d)[0] == RequestParts(e)[0] && RequestParts(d)[1] == RequestParts(e)[1];
    if Protects(d) {
      assert ps[3] == qs[3] && ps[4] == qs[4];
    }
  }

  // ---- Only the right credentials verify ----------------------------------------------------------------

  /** Joined texts that start with the same parts end with the same part. */
  lemma {:induction false} JoinCancel(ps: seq<string>, a: string, b: string)
    requires Join(ps + [a], ":") == Join(ps + [b], ":")
    ensures a == b
    decreases |ps|
  {
    if ps != [] {
      var more := ps[1..];
      assert ps + [a] == [ps[0]] + (more + [a]) && ps + [b] == [ps[0]] + (more + [b]);
      JoinMore(ps[0], more + [a]);
      JoinMore(ps[0], more + [b]);
      SamePrefix(ps[0] + ":", Join(more + [a], ":"), Join(more + [b], ":"));
      JoinCancel(more, a, b);
    }
  }

  lemma SamePrefix(p: string, a: string, b: string)
    requires p + a == p + b
    ensures a == b
  {
    assert a == (p + a)[|p|..] && b == (p + b)[|p|..];
  }

  lemma SameSuffix(a: string, b: string, p: string)
    requires a + p == b + p
    ensures a == b
  {
    assert |a| == |b|;
    assert a == (a + p)[..|a|] && b == (b + p)[..|b|];
  }

  lemma FirstPart(p: string, ps: seq<string>, q: string, qs: seq<string>)
    requires ps != [] && qs != [] && ':' !in p && ':' !in q && Join([p] + ps, ":") == Join([q] + qs, ":")
    ensures p == q && Join(ps, ":") == Join(qs, ":")
  {
    JoinMore(p, ps);
    JoinMore(q, qs);
    SplitColon(p, Join(ps, ":"), q, Join(qs, ":"));
  }

  lemma SecretNeedsPassword(h: Hash, f: Family, d: Digest, password: string)
    requires ColonFree(h) && Computable(d)
    requires var e := d.(password := password);
             && Secret(h, f, e) == Secret(h, f, d)
             && !Collide(h, f, Join(UserParts(d), ":"), Join(UserParts(e), ":")) && !Collide(h, f, SecretText(h, f, d), SecretText(h, f, e))
    ensures password == d.password
  {
    hide ColonFree, FamilyOf, IsSess, SelectQop, Join;
    var e := d.(password := password);
    var p, q := h(f, Join(UserParts(d), ":")), h(f, Join(UserParts(e), ":"));
    if IsSess(d.algorithm) {
      NoColonIn(h, f, Join(UserParts(d), ":"));
      NoColonIn(h, f, Join(UserParts(e), ":"));
      var more := [d.nonce, d.cnonce.value];
      assert SessionParts(p, d) == [p] + more && SessionParts(q, e) == [q] + more;
      FirstPart(p, more, q, more);
    }
    var who := [d.username, d.realm];
    assert UserParts(d) == who + [d.password] && UserParts(e) == who + [password];
    JoinCancel(who, d.password, password);
  }

  lemma NoColonInSecret(h: Hash, f: Family, d: Digest)
    requires ColonFree(h) && Computable(d)
    ensures ':' !in Secret(h, f, d)
  {
    hide ColonFree, Join;
    NoColonIn(h, f, Join(UserParts(d), ":"));
    if IsSess(d.algorithm) {
      NoColonIn(h, f, Join(SessionParts(h(f, Join(UserParts(d), ":")), d), ":"));
    }
  }

  lemma RequestNeedsMethod(h: Hash, f: Family, d: Digest, sipMethod: string)
    requires h(f, Join(RequestParts(d.(sipMethod := sipMethod)), ":")) == h(f, Join(RequestParts(d), ":"))
    requires !Collide(h, f, Join(RequestParts(d), ":"), Join(RequestParts(d.(sipMethod := sipMethod)), ":"))
    ensures sipMethod == d.sipMethod
  {
    JoinTwo(sipMethod, d.uri);
    JoinTwo(d.sipMethod, d.uri);
    assert sipMethod + (":" + d.uri) == sipMethod + ":" + d.uri && d.sipMethod + (":" + d.uri) == d.sipMethod + ":" + d.uri;
    SameSuffix(sipMethod, d.sipMethod, ":" + d.uri);
  }

  /** What stands between the secret and the request in a response. */
  function Middle(d: Digest): seq<string>
    requires Computable(d)
  {
    if Protects(d) then [d.nonce, d.nc.value, d.cnonce.value, SelectQop(d.qop).value] else [d.nonce]
  }

  lemma PartsSplit(h: Hash, f: Family, d: Digest)
    requires Computable(d)
    ensures ResponseParts(h, f, d) == [Secret(h, f, d)] + (Middle(d) + [h(f, Join(RequestParts(d), ":"))])
  {
    hide Secret, Join, SelectQop, IsSess, FamilyOf;
  }

  lemma ResponseNeeds(h: Hash, d: Digest, password: string, sipMethod: string)
    requires ColonFree(h) && Response(h, d).Some?
    requires var e := d.(password := password, sipMethod := sipMethod);
             Response(h, e) == Response(h, d) && !Clash(h, d, e)
    ensures password == d.password && sipMethod == d.sipMethod
  {
    hide ColonFree, FamilyOf, IsSess, SelectQop, Join, Response, Secret, ResponseParts, SecretText, UserParts;
    var e := d.(password := password, sipMethod := sipMethod);
    ResponseHashes(h, d);
    ResponseHashes(h, e);
    var f := FamilyOf(d.algorithm).value;
    PartsSplit(h, f, d);
    PartsSplit(h, f, e);
    NoColonInSecret(h, f, d);
    NoColonInSecret(h, f, e);
    var m, a, b := Middle(d), h(f, Join(RequestParts(d), ":")), h(f, Join(RequestParts(e), ":"));
    FirstPart(Secret(h, f, d), m + [a], Secret(h, f, e), m + [b]);
    JoinCancel(m, a, b);
    SecretIgnoresMethod(h, f, d.(password := password), sipMethod);
    SecretNeedsPassword(h, f, d, password);
    assert RequestParts(e) == RequestParts(d.(sipMethod := sipMethod));
    RequestNeedsMethod(h, f, d, sipMethod);
  }

  lemma SecretIgnoresMethod(h: Hash, f: Family, d: Digest, sipMethod: string)
    requires Computable(d)
    ensures var e := d.(sipMethod := sipMethod);
            && Secret(h, f, e) == Secret(h, f, d) && SecretText(h, f, e) == SecretText(h, f, d)
            && UserParts(e) == UserParts(d)
  {
    hide Join, SelectQop, FamilyOf;
  }

  /**
   A built header verifies for exactly one user name, password and method: the ones it was built with
   (and never for a session variant without a qop). The only exception is a collision between the
   texts hashed for what was sent and for what is expected.
   */
  lemma VerifiesExactly(h: Hash, status: int, c: Credential, username: string, password: string, sipMethod: string)
    requires GoodHash(h) && ColonFree(h) && CredentialOk(c) && FamilyOf(c.algorithm).Some?
    requires !Clash(h, ReadDigest(c), ReadDigest(c).(password := password, sipMethod := sipMethod))
    ensures BuildAuthHeader(h, status, c).Some?
    ensures VerifyDigest(h, BuildAuthHeader(h, status, c).value, username, password, sipMethod) <==>
            username == c.username && password == c.password && sipMethod == c.sipMethod &&
            (IsSess(c.algorithm) ==> HasQop(c))
  {
    hide GoodHash, ColonFree, Clash, FamilyOf, Response, SelectToken, IsSess, ParseChallenge, Updated, AuthFields, BuildAuthHeader, HeaderName;
    BuiltVerifies(h, status, c);
    ResponseDefined(h, c);
    var header, response := BuildAuthHeader(h, status, c).value, Response(h, CredentialDigest(c)).value;
    AuthParams(c, response);
    SameResponse(h, c);
    var d := ReadDigest(c);
    if VerifyDigest(h, header, username, password, sipMethod) {
      var e := d.(password := password, sipMethod := sipMethod);
      assert username == c.username;
      assert Response(h, e) == Some(response);
      if Response(h, d).Some? {
        ResponseNeeds(h, d, password, sipMethod);
      } else {
        ResponseHashes(h, d);
        ResponseHashes(h, e);
      }
    }
  }
}
