/**
 Digest authentication (sip_bridge/sip_auth.py; section 3.2.2 of RFC 2617 and RFC 7616).
 The hash functions are a parameter. Text is ASCII.
 */
module SipAuth {
  import opened Options
  import opened SipText

  datatype Family = Md5 | Sha256
  type Hash = (Family, string) -> string
  type Params = map<string, string>

  // ---- parse_challenge ----------------------------------------------------------------------------

  /** `\w` on ASCII */
  predicate IsWord(c: char) {
    'a' <= c <= 'z' || 'A' <= c <= 'Z' || '0' <= c <= '9' || c == '_'
  }

  function WordEnd(s: string, i: nat): (r: nat)
    requires i <= |s|
    ensures i <= r <= |s|
    ensures forall j :: i <= j < r ==> IsWord(s[j])
    ensures r < |s| ==> !IsWord(s[r])
    decreases |s| - i
  {
    if i < |s| && IsWord(s[i]) then WordEnd(s, i + 1) else i
  }

  /** The end of `[^,\s]*` */
  function BareEnd(s: string, i: nat): (r: nat)
    requires i <= |s|
    ensures i <= r <= |s|
    ensures forall j :: i <= j < r ==> s[j] != ',' && !IsSpace(s[j])
    ensures r < |s| ==> s[r] == ',' || IsSpace(s[r])
    decreases |s| - i
  {
    if i < |s| && s[i] != ',' && !IsSpace(s[i]) then BareEnd(s, i + 1) else i
  }

  /** A value, and where its match ends. */
  datatype Value = Value(text: string, end: nat)

  /** `"([^"]+)"` at `q` */
  function QuotedAt(s: string, q: nat): (v: Option<Value>)
    requires q <= |s|
    ensures v.Some? ==> q < v.value.end <= |s|
  {
    if q == |s| || s[q] != '"' then None
    else
      var close := IndexFrom(s, '"', q + 1);
      if q + 1 < close < |s| then Some(Value(s[q + 1..close], close + 1)) else None
  }

  /** `([^,\s]+)` at `q` */
  function BareAt(s: string, q: nat): (v: Option<Value>)
    requires q <= |s|
    ensures v.Some? ==> q < v.value.end <= |s|
  {
    var end := BareEnd(s, q);
    if q < end then Some(Value(s[q..end], end)) else None
  }

  /** The alternation: a quoted value if there is one, else a bare one. */
  function ValueAt(s: string, q: nat): (v: Option<Value>)
    requires q <= |s|
    ensures v.Some? ==> q < v.value.end <= |s|
  {
    if QuotedAt(s, q).Some? then QuotedAt(s, q) else BareAt(s, q)
  }

  datatype Match = Match(key: string, value: string, end: nat)

  /** `(\w+)=(?:"([^"]+)"|([^,\s]+))` anchored at `p` */
  function MatchAt(s: string, p: nat): (m: Option<Match>)
    requires p <= |s|
    ensures m.Some? ==> p < m.value.end <= |s|
  {
    var q := WordEnd(s, p);
    if q == p || q == |s| || s[q] != '=' then None
    else match ValueAt(s, q + 1)
      case None => None
      case Some(v) => Some(Match(s[p..q], v.text, v.end))
  }

  /** The leftmost match from `p` on. */
  function FindMatch(s: string, p: nat): (m: Option<Match>)
    requires p <= |s|
    ensures m.Some? ==> p < m.value.end <= |s|
    decreases |s| - p
  {
    if p == |s| then None
    else if MatchAt(s, p).Some? then MatchAt(s, p)
    else FindMatch(s, p + 1)
  }

  function Scan(s: string, p: nat, params: Params): Params
    requires p <= |s|
    decreases |s| - p
  {
    match FindMatch(s, p)
    case None => params
    case Some(m) => Scan(s, m.end, params[Lower(m.key) := m.value])
  }

  predicate IsNameChar(c: char) {
    IsWord(c) || c == '-'
  }

  function NameEnd(s: string, i: nat): (r: nat)
    requires i <= |s|
    ensures i <= r <= |s|
    decreases |s| - i
  {
    if i < |s| && IsNameChar(s[i]) then NameEnd(s, i + 1) else i
  }

  /** The value without a leading `[\w-]+\s*:\s*`. */
  function DropHeaderName(s: string): string {
    var n := NameEnd(s, 0);
    var c := StartFrom(s, n);
    if n > 0 && c < |s| && s[c] == ':' then s[StartFrom(s, c + 1)..] else s
  }

  /** Realm and nonce are required; the algorithm defaults to MD5. None stands for AuthParseError. */
  function Complete(params: Params): Option<Params> {
    if "realm" !in params || "nonce" !in params then None
    else Some(if "algorithm" in params then params else params["algorithm" := "MD5"])
  }

  function ParseChallenge(header: string): Option<Params> {
    var value := DropHeaderName(Strip(header));
    if |value| < 6 || Lower(value[..6]) != "digest" then None
    else Complete(Scan(Strip(value[6..]), 0, map[]))
  }

  method ParseChallengeLoop(header: string) returns (r: Option<Params>)
    ensures r == ParseChallenge(header)
  {
    var value := DropHeaderName(Strip(header));
    if |value| < 6 || Lower(value[..6]) != "digest" {
      return None;
    }
    value := Strip(value[6..]);
    var params: Params := map[];
    var m := FindMatch(value, 0);
    while m.Some?
      invariant m.Some? ==> m.value.end <= |value|
      invariant Scan(value, 0, map[]) == match m
                case None => params
                case Some(found) => Scan(value, found.end, params[Lower(found.key) := found.value])
      decreases if m.Some? then |value| + 1 - m.value.end else 0
    {
      params := params[Lower(m.value.key) := m.value.value];
      m := FindMatch(value, m.value.end);
    }
    if "realm" !in params || "nonce" !in params {
      return None;
    }
    if "algorithm" !in params {
      params := params["algorithm" := "MD5"];
    }
    return Some(params);
  }

  // ---- Digests --------------------------------------------------------------------------------------

  function FamilyOf(algorithm: string): Option<Family> {
    var a := Upper(algorithm);
    if a == "MD5" || a == "MD5-SESS" then Some(Md5)
    else if a == "SHA-256" || a == "SHA-256-SESS" then Some(Sha256)
    else None
  }

  predicate IsSess(algorithm: string) {
    |algorithm| >= 5 && Upper(algorithm)[|algorithm| - 5..] == "-SESS"
  }

  /** `s.split(",")` with every part stripped */
  function Tokens(s: string): (ts: seq<string>)
    ensures ts != []
    decreases |s|
  {
    var i := IndexOf(s, ',');
    if i == |s| then [Strip(s)] else [Strip(s[..i])] + Tokens(s[i + 1..])
  }

  function SelectToken(qop: string): string {
    var ts := Tokens(qop);
    if "auth" in ts then "auth" else if "auth-int" in ts then "auth-int" else ts[0]
  }

  function SelectQop(qop: Option<string>): Option<string> {
    match qop
    case None => None
    case Some(q) => Some(SelectToken(q))
  }

  /** The inputs of a digest; `nc` and `cnonce` may be missing. */
  datatype Digest = Digest(
    username: string, realm: string, password: string, nonce: string, sipMethod: string, uri: string,
    algorithm: string, qop: Option<string>, nc: Option<string>, cnonce: Option<string>)

  /** None stands for ValueError: an unknown algorithm, or nc and cnonce missing where needed. */
  function Response(h: Hash, d: Digest): Option<string> {
    match FamilyOf(d.algorithm)
    case None => None
    case Some(f) =>
      var selected := SelectQop(d.qop);
      var counted := d.nc.Some? && d.cnonce.Some?;
      var protects := selected == Some("auth") || selected == Some("auth-int");
      if (IsSess(d.algorithm) || protects) && !counted then None
      else
        var user := h(f, d.username + ":" + d.realm + ":" + d.password);
        var ha1 := if IsSess(d.algorithm) then h(f, user + ":" + d.nonce + ":" + d.cnonce.value) else user;
        var ha2 := h(f, d.sipMethod + ":" + d.uri);
        if protects then
          Some(h(f, ha1 + ":" + d.nonce + ":" + d.nc.value + ":" + d.cnonce.value + ":" + selected.value + ":" + ha2))
        else Some(h(f, ha1 + ":" + d.nonce + ":" + ha2))
  }

  function Param(p: Params, key: string): Option<string> {
    if key in p then Some(p[key]) else None
  }

  function ParamOr(p: Params, key: string, default: string): string {
    if key in p then p[key] else default
  }

  function VerifyDigest(h: Hash, authValue: string, username: string, password: string, sipMethod: string): bool {
    match ParseChallenge(authValue)
    case None => false
    case Some(p) =>
      var expected := Response(h, Digest(username, ParamOr(p, "realm", ""), password, ParamOr(p, "nonce", ""),
                                         sipMethod, ParamOr(p, "uri", ""), ParamOr(p, "algorithm", "MD5"),
                                         SelectQop(Param(p, "qop")), Param(p, "nc"), Param(p, "cnonce")));
      Param(p, "username") == Some(username) && expected.Some? && Param(p, "response") == expected
  }

  // ---- Building headers -----------------------------------------------------------------------------

  datatype Field = Quoted(key: string, value: string) | Bare(key: string, value: string)

  function Render(f: Field): string {
    match f
    case Quoted(key, value) => key + "=\"" + value + "\""
    case Bare(key, value) => key + "=" + value
  }

  /** `", ".join(parts)` */
  function RenderAll(fs: seq<Field>): string {
    if fs == [] then "" else if |fs| == 1 then Render(fs[0]) else Render(fs[0]) + ", " + RenderAll(fs[1..])
  }

  const NC := "00000001"

  /** A credential to send: what `build_auth_header` is called with, and the cnonce it draws. */
  datatype Credential = Credential(
    username: string, realm: string, password: string, nonce: string, sipMethod: string, uri: string,
    algorithm: string, qop: Option<string>, opaqueData: Option<string>, cnonce: string)

  /** A selected qop that is not the empty string. */
  predicate HasQop(c: Credential) {
    SelectQop(c.qop).Some? && SelectQop(c.qop).value != ""
  }

  function CredentialDigest(c: Credential): Digest {
    var counted := HasQop(c) || IsSess(c.algorithm);
    Digest(c.username, c.realm, c.password, c.nonce, c.sipMethod, c.uri, c.algorithm, SelectQop(c.qop),
           if counted then Some(NC) else None, if counted then Some(c.cnonce) else None)
  }

  function AuthFields(c: Credential, response: string): seq<Field> {
    [Quoted("username", c.username), Quoted("realm", c.realm), Quoted("nonce", c.nonce), Quoted("uri", c.uri),
     Quoted("response", response), Bare("algorithm", c.algorithm)]
    + (if HasQop(c) then [Bare("qop", SelectQop(c.qop).value), Bare("nc", NC), Quoted("cnonce", c.cnonce)] else [])
    + (if c.opaqueData.Some? && c.opaqueData.value != "" then [Quoted("opaque", c.opaqueData.value)] else [])
  }

  function HeaderName(status: int): string {
    if status == 407 then "Proxy-Authorization" else "Authorization"
  }

  /** None stands for the ValueError of the digest. */
  function BuildAuthHeader(h: Hash, status: int, c: Credential): Option<string> {
    match Response(h, CredentialDigest(c))
    case None => None
    case Some(response) => Some(HeaderName(status) + ": " + "Digest " + RenderAll(AuthFields(c, response)))
  }

  function ChallengeFields(realm: string, nonce: string): seq<Field> {
    [Quoted("realm", realm), Quoted("nonce", nonce), Bare("algorithm", "MD5"), Quoted("qop", "auth")]
  }

  /** The challenge of a 407 response, with the nonce it draws; the header value alone. */
  function ChallengeValue(realm: string, nonce: string): string {
    "Digest " + RenderAll(ChallengeFields(realm, nonce))
  }

  // ---- The nonce the server remembers (sip_bridge/wa_main.py) ---------------------------------------

  /** `nonce="([^"]+)"` at `p` */
  function NonceAt(s: string, p: nat): Option<string> {
    if p + 7 > |s| || s[p..p + 7] != "nonce=\"" then None
    else
      var close := IndexFrom(s, '"', p + 7);
      if p + 7 < close < |s| then Some(s[p + 7..close]) else None
  }

  function SearchNonce(s: string, p: nat): Option<string>
    requires p <= |s|
    decreases |s| - p
  {
    if p == |s| then None else if NonceAt(s, p).Some? then NonceAt(s, p) else SearchNonce(s, p + 1)
  }

  /** The nonce found in a challenge, or the empty string. */
  function IssuedNonce(challenge: string): string {
    match SearchNonce(challenge, 0)
    case None => ""
    case Some(n) => n
  }
}
