/** What the header scanner, the qop choice and the verifier do, on the text alone. */
module SipAuthExact {
  import opened Options
  import opened SipText
  import opened SipTextFacts
  import opened SipAuth
  import opened SipAuthProofs
  import opened SipAuthDigest
  import opened SipAuthSound

  // ---- One match ------------------------------------------------------------------------------------------

  /** `"([^"]+)"` from `q` to `end` */
  predicate QuotedSpan(s: string, q: nat, end: nat) {
    && q + 2 < end <= |s| && s[q] == '"' && s[end - 1] == '"'
    && forall i :: q < i < end - 1 ==> s[i] != '"'
  }

  /** `([^,\s]+)` from `q` to `end`, as long as can be */
  predicate BareSpan(s: string, q: nat, end: nat) {
    && q < end <= |s| && (forall i :: q <= i < end ==> s[i] != ',' && !IsSpace(s[i]))
    && (end < |s| ==> s[end] == ',' || IsSpace(s[end]))
  }

  /** `\w+=` from `p` to `q` */
  predicate KeySpan(s: string, p: nat, q: nat) {
    && p + 1 < q <= |s| && s[q - 1] == '=' && forall i :: p <= i < q - 1 ==> IsWord(s[i])
  }

  /** What the whole expression matches at `p`, with the value starting at `q`: quoted if it can be, else bare. */
  predicate MatchSpan(s: string, p: nat, q: nat, m: Match) {
    && KeySpan(s, p, q) && m.key == s[p..q - 1]
    && ((QuotedSpan(s, q, m.end) && m.value == s[q + 1..m.end - 1])
        || (BareSpan(s, q, m.end) && m.value == s[q..m.end] && forall e :: q <= e <= |s| ==> !QuotedSpan(s, q, e)))
  }

  lemma QuotedAtExactly(s: string, q: nat, end: nat)
    requires q <= |s|
    ensures QuotedSpan(s, q, end) ==> QuotedAt(s, q) == Some(Value(s[q + 1..end - 1], end))
    ensures QuotedAt(s, q).Some? ==> QuotedSpan(s, q, QuotedAt(s, q).value.end)
  {
    if QuotedSpan(s, q, end) {
      assert IndexFrom(s, '"', q + 1) == end - 1;
    }
  }

  lemma BareAtExactly(s: string, q: nat, end: nat)
    requires q <= |s|
    ensures BareSpan(s, q, end) ==> BareAt(s, q) == Some(Value(s[q..end], end))
    ensures BareAt(s, q).Some? ==>
              BareSpan(s, q, BareAt(s, q).value.end) && BareAt(s, q).value.text == s[q..BareAt(s, q).value.end]
  {
  }

  lemma WordEndAt(s: string, p: nat, n: nat)
    requires p <= n < |s| && !IsWord(s[n]) && forall i :: p <= i < n ==> IsWord(s[i])
    ensures WordEnd(s, p) == n
  {
  }

  /** Letters, digits and the underscore; in a header name also the hyphen. */
  lemma WordsExactly(c: char)
    ensures IsWord(c) <==> 48 <= c as int <= 57 || 65 <= c as int <= 90 || c as int == 95 || 97 <= c as int <= 122
    ensures IsNameChar(c) <==> IsWord(c) || c as int == 45
  {
  }

  /** A match at `p` is exactly a match of the expression there. */
  lemma MatchAtExactly(s: string, p: nat, q: nat, m: Match)
    requires p <= |s|
    ensures MatchSpan(s, p, q, m) ==> MatchAt(s, p) == Some(m)
    ensures MatchAt(s, p).Some? ==> exists v :: p <= v <= |s| && MatchSpan(s, p, v, MatchAt(s, p).value)
  {
    hide WordEnd, QuotedAt, BareAt, QuotedSpan, BareSpan;
    if MatchSpan(s, p, q, m) {
      WordEndAt(s, p, q - 1);
      QuotedAtExactly(s, q, m.end);
      BareAtExactly(s, q, m.end);
    }
    if MatchAt(s, p).Some? {
      var v := WordEnd(s, p) + 1;
      var r := MatchAt(s, p).value;
      QuotedAtExactly(s, v, r.end);
      forall e | v <= e <= |s|
        ensures QuotedSpan(s, v, e) ==> QuotedAt(s, v).Some?
      {
        QuotedAtExactly(s, v, e);
      }
      BareAtExactly(s, v, r.end);
      assert MatchSpan(s, p, v, r);
    }
  }

  /** The first match is the leftmost one. */
  lemma {:induction false} FindExactly(s: string, p: nat)
    requires p <= |s|
    ensures match FindMatch(s, p)
            case None => forall i :: p <= i < |s| ==> MatchAt(s, i) == None
            case Some(m) => exists i :: p <= i < |s| && MatchAt(s, i) == Some(m) && forall j :: p <= j < i ==> MatchAt(s, j) == None
    decreases |s| - p
  {
    hide MatchAt;
    if p < |s| && MatchAt(s, p) == None {
      FindExactly(s, p + 1);
    }
  }

  /** Scanning takes the leftmost match, under its key in lower case, and goes on where it ends. */
  lemma ScanExactly(s: string, p: nat, i: nat, params: Params)
    requires p <= i <= |s| && forall j :: p <= j < i ==> MatchAt(s, j) == None
    ensures i == |s| ==> Scan(s, p, params) == params
    ensures i < |s| && MatchAt(s, i).Some? ==>
              var m := MatchAt(s, i).value; Scan(s, p, params) == Scan(s, m.end, params[Lower(m.key) := m.value])
  {
    hide MatchAt;
    FindExactly(s, p);
  }

  // ---- Headers ----------------------------------------------------------------------------------------------

  /** A header name before the value is dropped with its colon and the white space on both sides of it. */
  lemma NameDropped(name: string, a: string, b: string, value: string)
    requires name != "" && forall i :: 0 <= i < |name| ==> IsNameChar(name[i])
    requires AllSpace(a) && AllSpace(b) && value != "" && !IsSpace(value[0])
    ensures DropHeaderName(name + a + ":" + b + value) == value
  {
    hide NameEnd, StartFrom, IsSpace;
    var s, n := name + a + ":" + b + value, |name|;
    var c := n + |a|;
    var v := c + 1 + |b|;
    assert forall j :: 0 <= j < n ==> s[j] == name[j];
    assert forall j :: n <= j < c ==> s[j] == a[j - n];
    assert s[c] == ':' && s[v] == value[0];
    assert forall j :: c < j < v ==> s[j] == b[j - c - 1];
    assert s[n] == if a == "" then ':' else a[0];
    NotInName(s[n]);
    NotInName(':');
    NameEndAt(s, 0, n);
    StartAfter(s, n, c);
    StartAfter(s, c + 1, v);
    assert s[v..] == value;
  }

  lemma NotInName(c: char)
    ensures c == ':' ==> !IsNameChar(c) && !IsSpace(c)
    ensures IsSpace(c) ==> !IsNameChar(c)
  {
  }

  /** Only the scheme `Digest`, in any case, is read. */
  lemma SchemeExactly(scheme: string, rest: string)
    requires |scheme| == 6 && forall i :: 0 <= i < 6 ==> 'a' <= scheme[i] <= 'z' || 'A' <= scheme[i] <= 'Z'
    requires rest != "" && Trimmed(rest) && rest[0] != ':'
    ensures ParseChallenge(scheme + " " + rest) ==
            if Lower(scheme) == "digest" then Complete(Scan(rest, 0, map[])) else None
  {
    hide Scan, Complete, Lower, Strip;
    var s := scheme + " " + rest;
    assert s[0] == scheme[0] && s[|s| - 1] == rest[|rest| - 1] && s[6] == ' ' && s[7] == rest[0];
    assert forall j :: 0 <= j < 6 ==> s[j] == scheme[j];
    StripTrims(s);
    NameEndAt(s, 0, 6);
    StartAfter(s, 6, 7);
    assert s[..6] == scheme && s[6..] == " " + rest;
    StripSpaceBefore(rest);
  }

  /** A printed header is read iff it names a realm and a nonce, and its algorithm is MD5 unless it names one. */
  lemma RequiredExactly(fs: seq<Field>, key: string)
    requires AllOk(fs) && fs != []
    ensures var r := ParseChallenge("Digest " + RenderAll(fs));
            && (r.Some? <==> HasKey(fs, "realm") && HasKey(fs, "nonce"))
            && (r.Some? && HasKey(fs, key) ==> Param(r.value, key) == Param(Updated(map[], fs), key) != None)
            && (r.Some? && !HasKey(fs, key) ==> Param(r.value, key) == if key == "algorithm" then Some("MD5") else None)
  {
    hide ParseChallenge, RenderAll, AllOk;
    NameOk("Authorization");
    ParseRendered(fs, "Authorization");
    UpdatedHas(map[], fs, "realm");
    UpdatedHas(map[], fs, "nonce");
    UpdatedHas(map[], fs, "algorithm");
    UpdatedHas(map[], fs, key);
  }

  lemma NameOk(name: string)
    requires name == "Authorization"
    ensures name != "" && forall i :: 0 <= i < |name| ==> IsNameChar(name[i])
  {
  }

  lemma {:induction false} UpdatedHas(params: Params, fs: seq<Field>, key: string)
    ensures key in Updated(params, fs) <==> key in params || HasKey(fs, key)
    decreases |fs|
  {
    if fs != [] {
      UpdatedHas(params[fs[0].key := fs[0].value], fs[1..], key);
      assert HasKey(fs, key) <==> fs[0].key == key || HasKey(fs[1..], key) by {
        if HasKey(fs[1..], key) {
          var i :| 0 <= i < |fs| - 1 && fs[1..][i].key == key;
          assert fs[i + 1].key == key;
        }
        if HasKey(fs, key) && fs[0].key != key {
          var i :| 0 <= i < |fs| && fs[i].key == key;
          assert fs[1..][i - 1].key == key;
        }
      }
    }
  }

  // ---- qop and algorithm ------------------------------------------------------------------------------------

  predicate CommaFree(ts: seq<string>) {
    forall i :: 0 <= i < |ts| ==> ',' !in ts[i]
  }

  /** Some part is this word, but for white space around it. */
  predicate Offers(ts: seq<string>, word: string) {
    exists i :: 0 <= i < |ts| && Strip(ts[i]) == word
  }

  lemma {:induction false} TokensOfJoin(ts: seq<string>)
    requires ts != [] && CommaFree(ts)
    ensures var r := Tokens(Join(ts, ",")); |r| == |ts| && forall i :: 0 <= i < |ts| ==> r[i] == Strip(ts[i])
    decreases |ts|
  {
    hide Strip;
    if |ts| == 1 {
    } else {
      var more, s := Join(ts[1..], ","), Join(ts, ",");
      TokensOfJoin(ts[1..]);
      assert s == ts[0] + "," + more;
      assert forall j :: 0 <= j < |ts[0]| ==> s[j] == ts[0][j] && ts[0][j] in ts[0];
      IndexOfAt(s, ',', |ts[0]|);
      assert s[..|ts[0]|] == ts[0] && s[|ts[0]| + 1..] == more;
      assert Tokens(s) == [Strip(ts[0])] + Tokens(more);
    }
  }

  /** From a list of protections: `auth` if it is offered, else `auth-int` if that is, else the first. */
  lemma SelectExactly(ts: seq<string>)
    requires ts != [] && CommaFree(ts)
    ensures SelectToken(Join(ts, ",")) ==
            if Offers(ts, "auth") then "auth" else if Offers(ts, "auth-int") then "auth-int" else Strip(ts[0])
  {
    hide Tokens, Strip, Join;
    TokensOfJoin(ts);
    var r, auth, integrity := Tokens(Join(ts, ",")), "auth", "auth-int";
    assert auth in r <==> Offers(ts, auth) by { OfferedIn(ts, r, auth); }
    assert integrity in r <==> Offers(ts, integrity) by { OfferedIn(ts, r, integrity); }
  }

  lemma OfferedIn(ts: seq<string>, r: seq<string>, word: string)
    requires |r| == |ts| && forall i :: 0 <= i < |ts| ==> r[i] == Strip(ts[i])
    ensures word in r <==> Offers(ts, word)
  {
    hide Strip;
    if word in r {
      var i :| 0 <= i < |r| && r[i] == word;
      assert Strip(ts[i]) == word;
    }
  }

  /** The answer to a challenge that offers `auth` among others protects with `auth`, counted from one. */
  lemma BuiltQop(h: Hash, status: int, c: Credential, ts: seq<string>)
    requires GoodHash(h) && CredentialOk(c) && FamilyOf(c.algorithm).Some?
    requires ts != [] && CommaFree(ts) && c.qop == Some(Join(ts, ","))
    ensures BuildAuthHeader(h, status, c).Some? && ParseChallenge(BuildAuthHeader(h, status, c).value).Some?
    ensures var p := ParseChallenge(BuildAuthHeader(h, status, c).value).value;
            var chosen := if Offers(ts, "auth") then "auth" else if Offers(ts, "auth-int") then "auth-int" else Strip(ts[0]);
            if chosen == "" then Param(p, "qop") == Param(p, "nc") == Param(p, "cnonce") == None
            else Param(p, "qop") == Some(chosen) && Param(p, "nc") == Some("00000001") && Param(p, "cnonce") == Some(c.cnonce)
  {
    hide FamilyOf, Response, SelectToken, IsSess, ParseChallenge, Updated, AuthFields, BuildAuthHeader, HeaderName, Join, Offers, Strip;
    BuiltVerifies(h, status, c);
    SelectExactly(ts);
    ResponseDefined(h, c);
    AuthParams(c, Response(h, CredentialDigest(c)).value);
  }

  /** An opaque value of the challenge is sent back as it came, an empty one left out. */
  lemma OpaqueEchoed(h: Hash, status: int, c: Credential)
    requires GoodHash(h) && CredentialOk(c) && FamilyOf(c.algorithm).Some?
    ensures BuildAuthHeader(h, status, c).Some? && ParseChallenge(BuildAuthHeader(h, status, c).value).Some?
    ensures Param(ParseChallenge(BuildAuthHeader(h, status, c).value).value, "opaque") ==
            if c.opaqueData == Some("") then None else c.opaqueData
  {
    hide FamilyOf, Response, SelectToken, IsSess, ParseChallenge, Updated, BuildAuthHeader, HeaderName;
    BuiltVerifies(h, status, c);
    ResponseDefined(h, c);
    var fs := AuthFields(c, Response(h, CredentialDigest(c)).value);
    AuthKeysDistinct(c, Response(h, CredentialDigest(c)).value);
    if c.opaqueData.Some? && c.opaqueData.value != "" {
      UpdatedAt(map[], fs, |fs| - 1);
    } else {
      NoOpaqueKey(fs);
      UpdatedOther(map[], fs, "opaque");
    }
  }

  lemma NoOpaqueKey(fs: seq<Field>)
    requires forall i :: 0 <= i < |fs| ==> fs[i].key != "" && fs[i].key[0] != 'o'
    ensures !HasKey(fs, "opaque")
  {
  }

  // ---- The issued nonce -------------------------------------------------------------------------------------

  /** `nonce="..."` from `p` on, with a value that is not empty. */
  predicate NonceSpan(s: string, p: nat, end: nat) {
    && p + 6 <= |s| && s[p..p + 6] == "nonce=" && QuotedSpan(s, p + 6, end)
  }

  lemma NonceAtExactly(s: string, p: nat, end: nat)
    ensures NonceSpan(s, p, end) ==> NonceAt(s, p) == Some(s[p + 7..end - 1])
    ensures NonceAt(s, p).Some? ==> exists e :: p + 6 <= e <= |s| && NonceSpan(s, p, e)
  {
    var key, open := "nonce=", "nonce=\"";
    assert open == key + "\"";
    if NonceSpan(s, p, end) {
      assert s[p..p + 7] == s[p..p + 6] + [s[p + 6]];
      assert IndexFrom(s, '"', p + 7) == end - 1;
    }
    if NonceAt(s, p).Some? {
      assert |open| == 7 && At(s, p, open);
      AtSplit(s, p, key, "\"");
      AtIndex(s, p + 6, "\"", 0);
      assert NonceSpan(s, p, IndexFrom(s, '"', p + 7) + 1);
    }
  }

  /** The nonce remembered for any text: the leftmost one in it, or the empty string. */
  lemma {:induction false} RememberedExactly(s: string, p: nat)
    requires p <= |s|
    ensures forall i, e :: p <= i < |s| && NonceSpan(s, i, e) && (forall j, f :: p <= j < i ==> !NonceSpan(s, j, f)) ==>
              SearchNonce(s, p) == Some(s[i + 7..e - 1])
    ensures (forall i, e :: p <= i < |s| ==> !NonceSpan(s, i, e)) ==> SearchNonce(s, p) == None
    decreases |s| - p
  {
    hide NonceAt;
    if p < |s| {
      RememberedExactly(s, p + 1);
      forall e | NonceSpan(s, p, e)
        ensures NonceAt(s, p) == Some(s[p + 7..e - 1])
      {
        NonceAtExactly(s, p, e);
      }
      NonceAtExactly(s, p, 0);
    }
  }

  lemma NothingRemembered(s: string)
    requires forall i, e :: 0 <= i < |s| ==> !NonceSpan(s, i, e)
    ensures IssuedNonce(s) == ""
  {
    hide NonceSpan;
    RememberedExactly(s, 0);
  }

  /** The four algorithms, in any case, and the session variants. */
  lemma FamiliesExactly(a: string)
    ensures FamilyOf(a) ==
            (if Upper(a) in ["MD5", "MD5-SESS"] then Some(Md5) else if Upper(a) in ["SHA-256", "SHA-256-SESS"] then Some(Sha256) else None)
    ensures FamilyOf(a).Some? ==> (IsSess(a) <==> Upper(a) in ["MD5-SESS", "SHA-256-SESS"])
  {
    if FamilyOf(a).Some? {
      var u := Upper(a);
      SessSuffix(u);
    }
  }

  lemma SessSuffix(u: string)
    requires u in ["MD5", "MD5-SESS", "SHA-256", "SHA-256-SESS"]
    ensures (|u| >= 5 && u[|u| - 5..] == "-SESS") <==> u in ["MD5-SESS", "SHA-256-SESS"]
  {
    if u == "SHA-256" {
      assert u[|u| - 5..][0] == 'A';
    }
  }

  // ---- Verification and the printed headers -----------------------------------------------------------------

  /** What the verifier expects from the parameters of a header. */
  function Expected(p: Params, username: string, password: string, sipMethod: string): Digest {
    Digest(username, ParamOr(p, "realm", ""), password, ParamOr(p, "nonce", ""), sipMethod, ParamOr(p, "uri", ""),
           ParamOr(p, "algorithm", "MD5"), Param(p, "qop"), Param(p, "nc"), Param(p, "cnonce"))
  }

  /**
   Any header verifies iff it parses, names the expected user, and carries the digest of the joined parts
   of what it says and what is expected.
   */
  lemma VerifyExactly(h: Hash, auth: string, username: string, password: string, sipMethod: string)
    ensures VerifyDigest(h, auth, username, password, sipMethod) <==>
            && ParseChallenge(auth).Some?
            && var p := ParseChallenge(auth).value;
               var d := Expected(p, username, password, sipMethod);
               && Param(p, "username") == Some(username) && Computable(d)
               && Param(p, "response") == Some(h(FamilyOf(d.algorithm).value, Join(ResponseParts(h, FamilyOf(d.algorithm).value, d), ":")))
  {
    hide ParseChallenge, FamilyOf, SelectToken, Response, Join, ResponseParts;
    if ParseChallenge(auth).Some? {
      var p := ParseChallenge(auth).value;
      var d := Expected(p, username, password, sipMethod);
      ResponseHashes(h, d);
      if d.qop.Some? {
        SelectAgain(d.qop.value);
      }
      SelectedAlike(h, d);
    }
  }

  lemma SelectedAlike(h: Hash, d: Digest)
    ensures Response(h, d.(qop := SelectQop(d.qop))) == Response(h, d)
  {
    hide FamilyOf, SelectToken, IsSess;
    if d.qop.Some? {
      SelectAgain(d.qop.value);
    }
  }

  /** The text of an answer with a qop and no opaque value. */
  lemma BuiltText(h: Hash, status: int, c: Credential)
    requires FamilyOf(c.algorithm).Some? && HasQop(c) && c.opaqueData == None
    ensures Response(h, CredentialDigest(c)).Some?
    ensures var response, qop := Response(h, CredentialDigest(c)).value, SelectQop(c.qop).value;
            BuildAuthHeader(h, status, c) ==
            Some((if status == 407 then "Proxy-Authorization" else "Authorization") + ": " + "Digest " +
                 Join(["username=\"" + c.username + "\"", "realm=\"" + c.realm + "\"", "nonce=\"" + c.nonce + "\"",
                       "uri=\"" + c.uri + "\"", "response=\"" + response + "\"", "algorithm=" + c.algorithm,
                       "qop=" + qop, "nc=00000001", "cnonce=\"" + c.cnonce + "\""], ", "))
  {
    hide FamilyOf, Response, SelectToken, IsSess;
    ResponseDefined(h, c);
    var response, qop := Response(h, CredentialDigest(c)).value, SelectQop(c.qop).value;
    var fs := AuthFields(c, response);
    var parts := ["username=\"" + c.username + "\"", "realm=\"" + c.realm + "\"", "nonce=\"" + c.nonce + "\"",
                  "uri=\"" + c.uri + "\"", "response=\"" + response + "\"", "algorithm=" + c.algorithm,
                  "qop=" + qop, "nc=00000001", "cnonce=\"" + c.cnonce + "\""];
    QuotedPart("username", c.username, "username=\"");
    QuotedPart("realm", c.realm, "realm=\"");
    QuotedPart("nonce", c.nonce, "nonce=\"");
    QuotedPart("uri", c.uri, "uri=\"");
    QuotedPart("response", response, "response=\"");
    QuotedPart("cnonce", c.cnonce, "cnonce=\"");
    assert "algorithm" + "=" == "algorithm=" && "qop" + "=" == "qop=" && "nc" + "=" + NC == "nc=00000001";
    hide Render, RenderAll, Join;
    assert Rendered(fs, parts);
    RenderIsJoin(fs, parts);
  }

  lemma QuotedPart(key: string, value: string, open: string)
    requires open == key + "=\""
    ensures Render(Quoted(key, value)) == open + value + "\""
  {
    assert key + "=\"" + value + "\"" == open + value + "\"";
  }

  predicate Rendered(fs: seq<Field>, parts: seq<string>) {
    |parts| == |fs| && forall i :: 0 <= i < |fs| ==> parts[i] == Render(fs[i])
  }

  lemma {:induction false} RenderIsJoin(fs: seq<Field>, parts: seq<string>)
    requires fs != [] && Rendered(fs, parts)
    ensures RenderAll(fs) == Join(parts, ", ")
    decreases |fs|
  {
    hide Render;
    if |fs| > 1 {
      RenderIsJoin(fs[1..], parts[1..]);
    }
  }

  /** The text of a challenge. */
  lemma ChallengeTextExactly(realm: string, nonce: string)
    ensures ChallengeValue(realm, nonce) ==
            "Digest " + Join(["realm=\"" + realm + "\"", "nonce=\"" + nonce + "\"", "algorithm=MD5", "qop=\"auth\""], ", ")
  {
    var fs := ChallengeFields(realm, nonce);
    var parts := ["realm=\"" + realm + "\"", "nonce=\"" + nonce + "\"", "algorithm=MD5", "qop=\"auth\""];
    QuotedPart("realm", realm, "realm=\"");
    QuotedPart("nonce", nonce, "nonce=\"");
    QuotedPart("qop", "auth", "qop=\"");
    assert "algorithm" + "=" + "MD5" == "algorithm=MD5" && "qop=\"" + "auth" + "\"" == "qop=\"auth\"";
    hide Render, RenderAll, Join;
    assert Rendered(fs, parts);
    RenderIsJoin(fs, parts);
  }
}
