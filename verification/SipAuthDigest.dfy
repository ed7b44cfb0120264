/** The right credentials verify, and when the issued nonce can be found again. */
module SipAuthDigest {
  import opened Options
  import opened SipText
  import opened SipAuth
  import opened SipAuthProofs

  // ---- Keys -----------------------------------------------------------------------------------------

  lemma LowerCaseKey(k: string)
    requires k != "" && forall i :: 0 <= i < |k| ==> 'a' <= k[i] <= 'z'
    ensures IsKey(k)
  {
    assert Lower(k) == k;
  }

  lemma KeysAreWords()
    ensures IsKey("username") && IsKey("realm") && IsKey("nonce") && IsKey("uri") && IsKey("response")
    ensures IsKey("algorithm") && IsKey("qop") && IsKey("nc") && IsKey("cnonce") && IsKey("opaque")
  {
    LowerCaseKey("username");
    LowerCaseKey("realm");
    LowerCaseKey("nonce");
    LowerCaseKey("uri");
    LowerCaseKey("response");
    LowerCaseKey("algorithm");
    LowerCaseKey("qop");
    LowerCaseKey("nc");
    LowerCaseKey("cnonce");
    LowerCaseKey("opaque");
  }

  /** Keys told apart by their length or first letter. */
  lemma KeysDiffer(a: string, b: string)
    requires a != "" && b != "" && (|a| != |b| || a[0] != b[0])
    ensures a != b
  {
  }

  lemma AuthKeysDistinct(c: Credential, response: string)
    ensures DistinctKeys(AuthFields(c, response))
  {
    var fs := AuthFields(c, response);
    forall i, j | 0 <= i < j < |fs|
      ensures fs[i].key != fs[j].key
    {
      KeysDiffer(fs[i].key, fs[j].key);
    }
  }

  // ---- qop --------------------------------------------------------------------------------------------

  lemma SingleToken(t: string)
    requires Strip(t) == t && ',' !in t
    ensures Tokens(t) == [t] && SelectToken(t) == t
  {
  }

  lemma {:induction false} TokensPlain(q: string)
    ensures forall i :: 0 <= i < |Tokens(q)| ==> Strip(Tokens(q)[i]) == Tokens(q)[i] && ',' !in Tokens(q)[i]
    decreases |q|
  {
    var i := IndexOf(q, ',');
    if i == |q| {
      StripTrims(q);
      StripTrims(Strip(q));
    } else {
      StripTrims(q[..i]);
      StripTrims(Strip(q[..i]));
      assert ',' !in q[..i];
      TokensPlain(q[i + 1..]);
    }
  }

  lemma SelectAgain(q: string)
    ensures SelectToken(SelectToken(q)) == SelectToken(q)
  {
    hide Tokens;
    TokensPlain(q);
    var t := SelectToken(q);
    var ts := Tokens(q);
    var i :| 0 <= i < |ts| && ts[i] == t;
    SingleToken(t);
  }

  // ---- Completeness -----------------------------------------------------------------------------------

  /** Digests are quotable, as hexadecimal text is. */
  ghost predicate GoodHash(h: Hash) {
    forall f: Family, d: string :: Quotable(h(f, d))
  }

  predicate CredentialOk(c: Credential) {
    && Quotable(c.username) && Quotable(c.realm) && Quotable(c.nonce) && Quotable(c.uri) && Quotable(c.cnonce)
    && (c.opaqueData.Some? && c.opaqueData.value != "" ==> Quotable(c.opaqueData.value))
    && (HasQop(c) ==> Token(SelectQop(c.qop).value))
  }

  lemma SupportedIsToken(a: string)
    requires FamilyOf(a).Some?
    ensures Token(a)
  {
    var u := Upper(a);
    forall i | 0 <= i < |a|
      ensures a[i] != ',' && !IsSpace(a[i]) && a[i] != '"'
    {
      assert u[i] == UpperChar(a[i]);
      SupportedChars(u, i);
    }
  }

  lemma SupportedChars(u: string, i: nat)
    requires u == "MD5" || u == "MD5-SESS" || u == "SHA-256" || u == "SHA-256-SESS"
    requires i < |u|
    ensures 'A' <= u[i] <= 'Z' || '0' <= u[i] <= '9' || u[i] == '-'
  {
  }

  /** The header can be built for every supported algorithm. */
  lemma ResponseDefined(h: Hash, c: Credential)
    ensures Response(h, CredentialDigest(c)).Some? <==> FamilyOf(c.algorithm).Some?
  {
    hide FamilyOf, SelectToken;
    if c.qop.Some? {
      SelectAgain(c.qop.value);
    }
  }

  lemma ResponseQuotable(h: Hash, d: Digest)
    requires GoodHash(h) && Response(h, d).Some?
    ensures Quotable(Response(h, d).value)
  {
    hide FamilyOf, SelectToken;
  }

  lemma AuthFieldsOk(c: Credential, response: string)
    requires CredentialOk(c) && Quotable(response) && FamilyOf(c.algorithm).Some?
    ensures AllOk(AuthFields(c, response))
  {
    hide IsKey, Quotable, FamilyOf, SelectToken;
    KeysAreWords();
    SupportedIsToken(c.algorithm);
    CountIsToken();
  }

  lemma CountIsToken()
    ensures Token(NC)
  {
  }

  /** What the verifier reads from a built header. */
  lemma AuthParams(c: Credential, response: string)
    ensures var p := Updated(map[], AuthFields(c, response));
            && Param(p, "username") == Some(c.username) && Param(p, "realm") == Some(c.realm)
            && Param(p, "nonce") == Some(c.nonce) && Param(p, "uri") == Some(c.uri)
            && Param(p, "response") == Some(response) && Param(p, "algorithm") == Some(c.algorithm)
            && Param(p, "qop") == (if HasQop(c) then SelectQop(c.qop) else None)
            && Param(p, "nc") == (if HasQop(c) then Some(NC) else None)
            && Param(p, "cnonce") == (if HasQop(c) then Some(c.cnonce) else None)
  {
    hide SelectToken, Updated;
    var fs := AuthFields(c, response);
    AuthKeysDistinct(c, response);
    UpdatedAt(map[], fs, 0);
    UpdatedAt(map[], fs, 1);
    UpdatedAt(map[], fs, 2);
    UpdatedAt(map[], fs, 3);
    UpdatedAt(map[], fs, 4);
    UpdatedAt(map[], fs, 5);
    if HasQop(c) {
      UpdatedAt(map[], fs, 6);
      UpdatedAt(map[], fs, 7);
      UpdatedAt(map[], fs, 8);
    } else {
      NoCountKeys(fs);
      UpdatedOther(map[], fs, "qop");
      UpdatedOther(map[], fs, "nc");
      UpdatedOther(map[], fs, "cnonce");
    }
  }

  lemma NoCountKeys(fs: seq<Field>)
    requires 6 <= |fs| <= 7
    requires fs[0].key == "username" && fs[1].key == "realm" && fs[2].key == "nonce" && fs[3].key == "uri"
    requires fs[4].key == "response" && fs[5].key == "algorithm" && (|fs| == 7 ==> fs[6].key == "opaque")
    ensures !HasKey(fs, "qop") && !HasKey(fs, "nc") && !HasKey(fs, "cnonce")
  {
    forall i | 0 <= i < |fs|
      ensures fs[i].key != "qop" && fs[i].key != "nc" && fs[i].key != "cnonce"
    {
      KeysDiffer(fs[i].key, "qop");
      KeysDiffer(fs[i].key, "nc");
      KeysDiffer(fs[i].key, "cnonce");
    }
  }

  /** The digest the verifier computes from what the header carries. */
  function ReadDigest(c: Credential): Digest {
    Digest(c.username, c.realm, c.password, c.nonce, c.sipMethod, c.uri, c.algorithm,
           if HasQop(c) then SelectQop(SelectQop(c.qop)) else None,
           if HasQop(c) then Some(NC) else None, if HasQop(c) then Some(c.cnonce) else None)
  }

  lemma SameResponse(h: Hash, c: Credential)
    requires FamilyOf(c.algorithm).Some?
    ensures Response(h, ReadDigest(c)) == Response(h, CredentialDigest(c)) <==> (IsSess(c.algorithm) ==> HasQop(c))
    ensures Response(h, ReadDigest(c)).None? <==> IsSess(c.algorithm) && !HasQop(c)
  {
    hide FamilyOf, SelectToken, IsSess;
    if c.qop.Some? {
      SelectAgain(c.qop.value);
    }
  }

  lemma HeaderNames(status: int)
    ensures var n := HeaderName(status); n != "" && forall i :: 0 <= i < |n| ==> IsNameChar(n[i])
  {
  }

  /**
   A header built with the right user name and password verifies, with or without its name in front,
   for every supported algorithm - except a session variant without a qop, whose nonce count and
   client nonce are computed with but not sent.
   */
  lemma BuiltVerifies(h: Hash, status: int, c: Credential)
    requires GoodHash(h) && CredentialOk(c)
    ensures BuildAuthHeader(h, status, c).Some? <==> FamilyOf(c.algorithm).Some?
    ensures FamilyOf(c.algorithm).Some? ==>
              var header := BuildAuthHeader(h, status, c).value;
              var name := HeaderName(status) + ": ";
              && name <= header
              && (VerifyDigest(h, header, c.username, c.password, c.sipMethod) <==> (IsSess(c.algorithm) ==> HasQop(c)))
              && VerifyDigest(h, header[|name|..], c.username, c.password, c.sipMethod) ==
                 VerifyDigest(h, header, c.username, c.password, c.sipMethod)
              && ParseChallenge(header) == ParseChallenge(header[|name|..])
              && ParseChallenge(header) == Some(Updated(map[], AuthFields(c, Response(h, CredentialDigest(c)).value)))
              && Param(ParseChallenge(header).value, "nonce") == Some(c.nonce)
  {
    hide FamilyOf, Response, SelectToken, IsSess, ParseChallenge, Updated, AuthFields, RenderAll, HeaderName;
    ResponseDefined(h, c);
    if FamilyOf(c.algorithm).Some? {
      var response := Response(h, CredentialDigest(c)).value;
      var fs := AuthFields(c, response);
      var value, name := "Digest " + RenderAll(fs), HeaderName(status);
      ResponseQuotable(h, CredentialDigest(c));
      AuthFieldsOk(c, response);
      HeaderNames(status);
      SixFields(c, response);
      ParseRendered(fs, name);
      AuthParams(c, response);
      SameResponse(h, c);
      var header := name + ": " + "Digest " + RenderAll(fs);
      assert header == (name + ": ") + value;
      assert header[|name + ": "|..] == value;
      var p := Updated(map[], fs);
      assert Complete(p) == Some(p);
    }
  }

  lemma SixFields(c: Credential, response: string)
    ensures AuthFields(c, response) != []
  {
  }

  // ---- The issued nonce -------------------------------------------------------------------------------

  predicate EndsWith(s: string, tail: string) {
    |tail| <= |s| && s[|s| - |tail|..] == tail
  }

  const NONCE_START := "nonce=\""

  /** Four pieces one after the other. */
  lemma AtChain(s: string, a: string, b: string, c: string, d: string, tail: string)
    requires s == a + (b + (c + (d + tail)))
    ensures At(s, 0, a) && At(s, |a|, b) && At(s, |a| + |b|, c) && At(s, |a| + |b| + |c|, d)
  {
    assert s[0..|s|] == s;
    AtSplit(s, 0, a, b + (c + (d + tail)));
    AtSplit(s, |a|, b, c + (d + tail));
    AtSplit(s, |a| + |b|, c, d + tail);
    AtSplit(s, |a| + |b| + |c|, d, tail);
  }

  lemma RenderTwo(f: Field, g: Field, more: seq<Field>)
    requires more != []
    ensures RenderAll([f, g] + more) == Render(f) + ", " + (Render(g) + ", " + RenderAll(more))
  {
    hide Render;
    var fs := [f, g] + more;
    assert fs[1..] == [g] + more && ([g] + more)[1..] == more;
  }

  lemma RegroupChallenge(digest: string, open: string, realm: string, quote: string, sep: string, nonceKey: string, nonce: string, more: string)
    ensures digest + ((open + realm + quote) + sep + ((nonceKey + nonce + quote) + sep + more)) ==
            ((digest + open) + realm + quote) + (sep + (nonceKey + ((nonce + quote) + (sep + more))))
  {
  }

  lemma ChallengeText(realm: string, nonce: string) returns (tail: string)
    ensures ChallengeValue(realm, nonce) ==
            ("Digest realm=\"" + realm + "\"") + (", " + (NONCE_START + ((nonce + "\"") + tail)))
  {
    hide Render, RenderAll;
    var f, g, more := Quoted("realm", realm), Quoted("nonce", nonce), [Bare("algorithm", "MD5"), Quoted("qop", "auth")];
    assert ChallengeFields(realm, nonce) == [f, g] + more;
    RenderTwo(f, g, more);
    QuotedText("realm", realm);
    QuotedText("nonce", nonce);
    var open, nonceKey := "realm" + "=\"", "nonce" + "=\"";
    assert "Digest " + open == "Digest realm=\"" && nonceKey == NONCE_START;
    RegroupChallenge("Digest ", open, realm, "\"", ", ", nonceKey, nonce, RenderAll(more));
    tail := ", " + RenderAll(more);
  }

  lemma QuotedText(key: string, value: string)
    ensures Render(Quoted(key, value)) == (key + "=\"") + value + "\""
  {
  }

  /** Up to its nonce field, a challenge reads `Digest realm="R", `. */
  lemma ChallengeShape(realm: string, nonce: string)
    ensures var s := ChallengeValue(realm, nonce);
            && At(s, 0, "Digest realm=\"" + realm + "\"")
            && At(s, 15 + |realm|, ", ")
            && At(s, 17 + |realm|, NONCE_START)
            && At(s, 24 + |realm|, nonce + "\"")
  {
    hide At, ChallengeValue;
    var tail := ChallengeText(realm, nonce);
    AtChain(ChallengeValue(realm, nonce), "Digest realm=\"" + realm + "\"", ", ", NONCE_START, nonce + "\"", tail);
  }

  /** The only quotes before the nonce value are the two around the realm and the one that opens it. */
  lemma ChallengeQuotes(realm: string, nonce: string)
    requires '"' !in realm
    ensures var s := ChallengeValue(realm, nonce);
            && |s| >= 24 + |realm|
            && s[13] == '"' && s[14 + |realm|] == '"' && s[23 + |realm|] == '"'
            && s[14..14 + |realm|] == realm && s[7] == 'r'
            && forall i :: 0 <= i < 23 + |realm| && s[i] == '"' ==> i == 13 || i == 14 + |realm|
  {
    hide ChallengeValue;
    var s := ChallengeValue(realm, nonce);
    ChallengeShape(realm, nonce);
    var head, close := "Digest realm=\"", "\"";
    assert head + realm + close == head + (realm + close);
    AtSplit(s, 0, head, realm + close);
    AtSplit(s, 14, realm, close);
    AtIndex(s, 14 + |realm|, close, 0);
    forall i | 0 <= i < 23 + |realm|
      ensures s[i] == '"' ==> i == 13 || i == 14 + |realm|
      ensures i == 7 ==> s[i] == 'r'
      ensures i == 13 ==> s[i] == '"'
    {
      if i < 14 {
        AtIndex(s, 0, head, i);
      } else if i < 14 + |realm| {
        AtIndex(s, 14, realm, i - 14);
        assert realm[i - 14] in realm;
      } else if 15 + |realm| <= i < 17 + |realm| {
        AtIndex(s, 15 + |realm|, ", ", i - 15 - |realm|);
      } else if 17 + |realm| <= i {
        AtIndex(s, 17 + |realm|, NONCE_START, i - 17 - |realm|);
      }
    }
    AtIndex(s, 17 + |realm|, NONCE_START, 6);
  }

  /** The name and equals sign of a nonce field have no quote. */
  lemma NoEarlierQuote(s: string, p: nat)
    requires p + 7 <= |s| && s[p..p + 7] == NONCE_START
    ensures forall i :: p <= i < p + 6 ==> s[i] != '"'
  {
    forall i | p <= i < p + 6
      ensures s[i] != '"'
    {
      assert s[i] == s[p..p + 7][i - p] == NONCE_START[i - p];
    }
  }

  /** A `nonce="` before the real one can only be the end of the realm and its closing quote. */
  lemma EarlyNonce(realm: string, nonce: string, p: nat)
    requires '"' !in realm && p < 17 + |realm|
    ensures var s := ChallengeValue(realm, nonce);
            (p + 7 <= |s| && s[p..p + 7] == NONCE_START) <==> p == 8 + |realm| && EndsWith(realm, "nonce=")
  {
    hide ChallengeValue;
    var s := ChallengeValue(realm, nonce);
    ChallengeQuotes(realm, nonce);
    var word := "nonce=";
    assert p + 7 <= |s|;
    if s[p..p + 7] == NONCE_START {
      assert s[p + 6] == s[p..p + 7][6] == '"';
      assert s[p] == s[p..p + 7][0] == 'n';
      assert p == 8 + |realm|;
      NoEarlierQuote(s, p);
      assert |realm| >= 6;
      assert realm[|realm| - 6..] == s[p..p + 6] == s[p..p + 7][..6] == NONCE_START[..6] == word;
    }
    if p == 8 + |realm| && EndsWith(realm, word) {
      assert realm[|realm| - 6..] == s[p..p + 6];
      assert s[p..p + 7] == s[p..p + 6] + [s[p + 6]];
      assert word + "\"" == NONCE_START;
    }
  }

  lemma {:induction false} SkipNoNonce(s: string, p: nat, q: nat)
    requires p <= q <= |s| && forall i :: p <= i < q ==> NonceAt(s, i) == None
    ensures SearchNonce(s, p) == SearchNonce(s, q)
    decreases q - p
  {
    if p < q {
      SkipNoNonce(s, p + 1, q);
    }
  }

  /**
   The nonce remembered for a challenge is the one in it, unless the realm ends with `nonce=`: then
   it is the text between the realm's closing quote and the quote that opens the nonce.
   */
  lemma IssuedNonceExactly(realm: string, nonce: string)
    requires Quotable(realm) && Quotable(nonce) && ',' !in nonce
    ensures IssuedNonce(ChallengeValue(realm, nonce)) == nonce <==> !EndsWith(realm, "nonce=")
    ensures EndsWith(realm, "nonce=") ==> IssuedNonce(ChallengeValue(realm, nonce)) == ", nonce="
  {
    hide ChallengeValue, Quotable, At;
    var s, n := ChallengeValue(realm, nonce), |realm|;
    assert '"' !in realm && '"' !in nonce && nonce != "" by { QuotableParts(realm); QuotableParts(nonce); }
    ChallengeShape(realm, nonce);
    ChallengeQuotes(realm, nonce);
    forall i | 0 <= i < 17 + n && !(i == 8 + n && EndsWith(realm, "nonce="))
      ensures NonceAt(s, i) == None
    {
      EarlyNonce(realm, nonce, i);
    }
    if EndsWith(realm, "nonce=") {
      EarlyNonce(realm, nonce, 8 + n);
      BetweenQuotes(realm, nonce);
      SkipNoNonce(s, 0, 8 + n);
      assert ", nonce="[0] == ',';
    } else {
      RealNonce(s, 17 + n, nonce);
      SkipNoNonce(s, 0, 17 + n);
    }
  }

  lemma QuotableParts(v: string)
    requires Quotable(v)
    ensures v != "" && '"' !in v
  {
  }

  lemma RealNonce(s: string, p: nat, nonce: string)
    requires At(s, p, NONCE_START) && At(s, p + 7, nonce + "\"") && nonce != "" && '"' !in nonce
    ensures NonceAt(s, p) == Some(nonce) && p < |s|
  {
    FirstQuote(s, p + 7, nonce);
  }

  lemma BetweenQuotes(realm: string, nonce: string)
    requires '"' !in realm && EndsWith(realm, "nonce=")
    ensures NonceAt(ChallengeValue(realm, nonce), 8 + |realm|) == Some(", nonce=")
  {
    hide ChallengeValue;
    var s, n := ChallengeValue(realm, nonce), |realm|;
    ChallengeShape(realm, nonce);
    ChallengeQuotes(realm, nonce);
    EarlyNonce(realm, nonce, 8 + n);
    assert IndexFrom(s, '"', 15 + n) == 23 + n;
    assert s[15 + n..23 + n] == s[15 + n..17 + n] + s[17 + n..24 + n][..6];
    assert NONCE_START[..6] == "nonce=" && ", " + "nonce=" == ", nonce=";
  }
}
