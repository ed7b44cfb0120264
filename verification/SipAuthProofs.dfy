/** Headers that are built parse back, and the right credentials verify. */
module SipAuthProofs {
  import opened Options
  import opened SipText
  import opened SipAuth

  // ---- One field ----------------------------------------------------------------------------------

  predicate IsKey(k: string) {
    k != "" && Lower(k) == k && forall i :: 0 <= i < |k| ==> IsWord(k[i])
  }

  /** A value that survives between quotes. */
  predicate Quotable(v: string) {
    v != "" && '"' !in v
  }

  /** A value that survives without quotes. */
  predicate Token(v: string) {
    v != "" && v[0] != '"' && forall i :: 0 <= i < |v| ==> v[i] != ',' && !IsSpace(v[i])
  }

  predicate FieldOk(f: Field) {
    IsKey(f.key) && if f.Quoted? then Quotable(f.value) else Token(f.value)
  }

  /** `part` stands in `s` at `p`. */
  predicate At(s: string, p: nat, part: string) {
    p + |part| <= |s| && s[p..p + |part|] == part
  }

  lemma AtSplit(s: string, p: nat, a: string, b: string)
    requires At(s, p, a + b)
    ensures At(s, p, a) && At(s, p + |a|, b)
  {
    assert s[p..p + |a|] == (a + b)[..|a|];
    assert s[p + |a|..p + |a| + |b|] == (a + b)[|a|..];
  }

  lemma AtIndex(s: string, p: nat, part: string, i: nat)
    requires At(s, p, part) && i < |part|
    ensures s[p + i] == part[i]
  {
    assert s[p..p + |part|][i] == s[p + i];
  }

  lemma KeyEnds(s: string, p: nat, key: string)
    requires IsKey(key) && At(s, p, key + "=")
    ensures WordEnd(s, p) == p + |key| && s[p + |key|] == '=' && s[p..p + |key|] == key
  {
    AtSplit(s, p, key, "=");
    AtIndex(s, p + |key|, "=", 0);
    forall i | p <= i < p + |key|
      ensures IsWord(s[i])
    {
      AtIndex(s, p, key, i - p);
    }
  }

  lemma FirstQuote(s: string, from: nat, value: string)
    requires At(s, from, value + "\"") && '"' !in value
    ensures IndexFrom(s, '"', from) == from + |value| < |s|
    ensures s[from..from + |value|] == value
  {
    AtSplit(s, from, value, "\"");
    AtIndex(s, from + |value|, "\"", 0);
    forall i | from <= i < from + |value|
      ensures s[i] != '"'
    {
      AtIndex(s, from, value, i - from);
      assert value[i - from] in value;
    }
  }

  lemma QuotedValue(s: string, q: nat, value: string)
    requires Quotable(value) && At(s, q, "\"" + (value + "\""))
    ensures ValueAt(s, q) == Some(Value(value, q + |value| + 2))
  {
    hide At, IndexFrom, BareAt;
    AtSplit(s, q, "\"", value + "\"");
    AtIndex(s, q, "\"", 0);
    FirstQuote(s, q + 1, value);
  }

  lemma BareValue(s: string, q: nat, value: string)
    requires Token(value) && At(s, q, value)
    requires q + |value| == |s| || s[q + |value|] == ','
    ensures ValueAt(s, q) == Some(Value(value, q + |value|))
  {
    AtIndex(s, q, value, 0);
    forall i | q <= i < q + |value|
      ensures s[i] != ',' && !IsSpace(s[i])
    {
      AtIndex(s, q, value, i - q);
    }
    assert BareEnd(s, q) == q + |value|;
  }

  /** A key and what follows its equals sign. */
  lemma KeyMatches(s: string, p: nat, key: string, rest: string, v: Value)
    requires IsKey(key) && At(s, p, (key + "=") + rest)
    requires ValueAt(s, p + |key| + 1) == Some(v)
    ensures MatchAt(s, p) == Some(Match(key, v.text, v.end))
  {
    hide ValueAt, WordEnd, At;
    AtSplit(s, p, key + "=", rest);
    KeyEnds(s, p, key);
  }

  lemma FieldMatchesAt(s: string, p: nat, f: Field)
    requires FieldOk(f) && At(s, p, Render(f))
    requires p + |Render(f)| == |s| || s[p + |Render(f)|] == ','
    ensures MatchAt(s, p) == Some(Match(f.key, f.value, p + |Render(f)|))
  {
    hide At, MatchAt, ValueAt, IsKey, Quotable, Token;
    var q := p + |f.key| + 1;
    var rest := if f.Quoted? then "\"" + (f.value + "\"") else f.value;
    assert Render(f) == (f.key + "=") + rest;
    AtSplit(s, p, f.key + "=", rest);
    if f.Quoted? {
      QuotedValue(s, q, f.value);
    } else {
      BareValue(s, q, f.value);
    }
    KeyMatches(s, p, f.key, rest, ValueAt(s, q).value);
  }

  /** A match that begins with the opening quote is not the value. */
  lemma BareIsNotValue(s: string, q: nat, value: string)
    requires q + |value| + 2 == |s| && s[q] == '"' && s[|s| - 1] == '"' && s[q + 1..q + 1 + |value|] == value
    requires value != "" && value[0] == '"'
    ensures BareEnd(s, q) > q && s[q..BareEnd(s, q)] != value
  {
    var e := BareEnd(s, q);
    if s[q..e] == value {
      assert e == q + |value|;
      forall j | q <= j < q + |value|
        ensures s[j] == s[j + 1]
      {
        assert s[q..e][j - q] == value[j - q] == s[q + 1..q + 1 + |value|][j - q];
      }
      AllQuotes(s, q, |value|);
      assert false;
    }
  }

  lemma {:induction false} AllQuotes(s: string, q: nat, n: nat)
    requires q + n < |s| && s[q] == '"' && forall j :: q <= j < q + n ==> s[j] == s[j + 1]
    ensures s[q + n] == '"'
  {
    if n > 0 {
      AllQuotes(s, q, n - 1);
    }
  }

  lemma EmptyQuotes(s: string, q: nat)
    requires q + 2 == |s| && s[q] == '"' && s[q + 1] == '"'
    ensures BareEnd(s, q) == |s|
  {
  }

  /** Between quotes, a value comes back exactly when it is not empty and has no quote. */
  lemma QuotedExactly(value: string)
    ensures var v := ValueAt("\"" + value + "\"", 0);
            (v.Some? && v.value.text == value) <==> Quotable(value)
  {
    hide BareEnd;
    var s := "\"" + value + "\"";
    assert s == "\"" + (value + "\"") && s[0..|s|] == s;
    assert s[1..1 + |value|] == value;
    if Quotable(value) {
      QuotedValue(s, 0, value);
    } else if value == "" {
      EmptyQuotes(s, 0);
    } else {
      var i :| 0 <= i < |value| && value[i] == '"';
      assert s[1 + i] == value[i];
      var close := IndexFrom(s, '"', 1);
      if close == 1 {
        assert value[0] == s[1];
        BareIsNotValue(s, 0, value);
      } else {
        assert |s[1..close]| < |value|;
      }
    }
  }

  // ---- All fields ---------------------------------------------------------------------------------

  predicate AllOk(fs: seq<Field>) {
    forall i :: 0 <= i < |fs| ==> FieldOk(fs[i])
  }

  function Updated(params: Params, fs: seq<Field>): Params
    decreases |fs|
  {
    if fs == [] then params else Updated(params[fs[0].key := fs[0].value], fs[1..])
  }

  lemma FieldMatches(s: string, p: nat, f: Field)
    requires FieldOk(f) && At(s, p, Render(f))
    requires p + |Render(f)| == |s| || s[p + |Render(f)|] == ','
    ensures FindMatch(s, p) == Some(Match(f.key, f.value, p + |Render(f)|))
  {
    hide MatchAt, FieldOk;
    FieldMatchesAt(s, p, f);
    FieldNotEmpty(f);
  }

  lemma FieldNotEmpty(f: Field)
    requires FieldOk(f)
    ensures Render(f) != ""
  {
  }

  lemma SkipSeparator(s: string, p: nat)
    requires At(s, p, ", ")
    ensures FindMatch(s, p) == FindMatch(s, p + 2)
  {
    AtIndex(s, p, ", ", 0);
    AtIndex(s, p, ", ", 1);
    assert MatchAt(s, p) == None && MatchAt(s, p + 1) == None;
    assert FindMatch(s, p) == FindMatch(s, p + 1);
  }

  lemma ScanSkips(s: string, p: nat, params: Params)
    requires At(s, p, ", ")
    ensures Scan(s, p, params) == Scan(s, p + 2, params)
  {
    SkipSeparator(s, p);
  }

  /** Scanning a rendered field list collects exactly its keys and values. */
  lemma {:induction false} ScanRendered(s: string, p: nat, fs: seq<Field>, params: Params)
    requires AllOk(fs) && At(s, p, RenderAll(fs)) && p + |RenderAll(fs)| == |s|
    ensures Scan(s, p, params) == Updated(params, fs)
    decreases |fs|
  {
    hide FindMatch, FieldOk, Render;
    if fs == [] {
      EndOfScan(s);
    } else {
      var f, more := fs[0], fs[1..];
      var after := params[f.key := f.value];
      FieldKey(f);
      if more == [] {
        FieldMatches(s, p, f);
        EndOfScan(s);
        assert Scan(s, p, params) == Scan(s, |s|, after);
        assert Scan(s, |s|, after) == after;
        assert Updated(after, more) == after;
      } else {
        var sep := ", ";
        assert RenderAll(fs) == Render(f) + (sep + RenderAll(more));
        AtSplit(s, p, Render(f), sep + RenderAll(more));
        AtSplit(s, p + |Render(f)|, sep, RenderAll(more));
        AtIndex(s, p + |Render(f)|, sep, 0);
        FieldMatches(s, p, f);
        ScanSkips(s, p + |Render(f)|, after);
        ScanRendered(s, p + |Render(f)| + 2, more, after);
      }
    }
  }

  lemma EndOfScan(s: string)
    ensures FindMatch(s, |s|) == None
  {
  }

  lemma FieldKey(f: Field)
    requires FieldOk(f)
    ensures Lower(f.key) == f.key
  {
  }

  // ---- Whole headers ------------------------------------------------------------------------------

  lemma RenderEnds(f: Field)
    requires FieldOk(f)
    ensures var r := Render(f); r != "" && IsWord(r[0]) && !IsSpace(r[|r| - 1])
  {
    var r := Render(f);
    assert r[0] == f.key[0];
    if f.Bare? {
      assert r[|r| - 1] == f.value[|f.value| - 1];
    }
  }

  lemma {:induction false} RenderAllEnds(fs: seq<Field>)
    requires AllOk(fs) && fs != []
    ensures var r := RenderAll(fs); r != "" && IsWord(r[0]) && !IsSpace(r[|r| - 1])
  {
    hide FieldOk, Render;
    RenderEnds(fs[0]);
    if |fs| > 1 {
      RenderAllEnds(fs[1..]);
      var more, r := RenderAll(fs[1..]), RenderAll(fs);
      assert r[0] == Render(fs[0])[0] && r[|r| - 1] == more[|more| - 1];
    }
  }

  lemma DigestPrefix(r: string)
    requires r != "" && IsWord(r[0]) && !IsSpace(r[|r| - 1])
    ensures var s := "Digest " + r;
            && Trimmed(s) && DropHeaderName(s) == s
            && Lower(s[..6]) == "digest" && Strip(s[6..]) == r
  {
    var s := "Digest " + r;
    assert s[|s| - 1] == r[|r| - 1] && s[7] == r[0];
    assert s[..6] == "Digest" && s[6..] == " " + r;
    StripSpaceBefore(r);
    NameStops(s);
    assert StartFrom(s, 6) == StartFrom(s, 7) == 7;
  }

  lemma NameStops(s: string)
    requires |s| >= 7 && s[..6] == "Digest" && s[6] == ' '
    ensures NameEnd(s, 0) == 6
  {
    assert forall i :: 0 <= i < 6 ==> s[i] == s[..6][i];
    NameEndAt(s, 0, 6);
  }

  lemma {:induction false} NameEndAt(s: string, i: nat, n: nat)
    requires i <= n < |s| && !IsNameChar(s[n]) && forall j :: i <= j < n ==> IsNameChar(s[j])
    ensures NameEnd(s, i) == n
    decreases n - i
  {
    if i < n {
      NameEndAt(s, i + 1, n);
    }
  }

  lemma HeaderNameDropped(name: string, value: string)
    requires name != "" && forall i :: 0 <= i < |name| ==> IsNameChar(name[i])
    requires value != "" && !IsSpace(value[0]) && !IsSpace(value[|value| - 1])
    ensures var s := name + ": " + value; Trimmed(s) && DropHeaderName(s) == value
  {
    var s, n := name + ": " + value, |name|;
    assert s[n] == ':' && s[n + 1] == ' ' && s[n + 2] == value[0] && s[|s| - 1] == value[|value| - 1];
    assert forall j :: 0 <= j < n ==> s[j] == name[j];
    NameEndAt(s, 0, n);
    assert StartFrom(s, n) == n;
    assert StartFrom(s, n + 1) == StartFrom(s, n + 2) == n + 2;
    assert s[n + 2..] == value;
  }

  /** A rendered header parses to its fields, with or without the header's name in front. */
  lemma ParseRendered(fs: seq<Field>, name: string)
    requires AllOk(fs) && fs != []
    requires name != "" && forall i :: 0 <= i < |name| ==> IsNameChar(name[i])
    ensures ParseChallenge("Digest " + RenderAll(fs)) == Complete(Updated(map[], fs))
    ensures ParseChallenge(name + ": " + ("Digest " + RenderAll(fs))) == Complete(Updated(map[], fs))
  {
    hide DropHeaderName, Strip, RenderAll, AllOk, Complete, Scan;
    var r, value := RenderAll(fs), "Digest " + RenderAll(fs);
    RenderAllEnds(fs);
    DigestPrefix(r);
    assert value[0] == 'D' && value[|value| - 1] == r[|r| - 1];
    HeaderNameDropped(name, value);
    StripTrims(value);
    StripTrims(name + ": " + value);
    assert At(r, 0, r) by { assert r[0..|r|] == r; }
    ScanRendered(r, 0, fs, map[]);
  }

  // ---- Looking up parameters ------------------------------------------------------------------------

  predicate DistinctKeys(fs: seq<Field>) {
    forall i, j :: 0 <= i < j < |fs| ==> fs[i].key != fs[j].key
  }

  predicate HasKey(fs: seq<Field>, key: string) {
    exists i :: 0 <= i < |fs| && fs[i].key == key
  }

  lemma {:induction false} UpdatedOther(params: Params, fs: seq<Field>, key: string)
    requires !HasKey(fs, key)
    ensures Param(Updated(params, fs), key) == Param(params, key)
    decreases |fs|
  {
    if fs != [] {
      assert forall i :: 0 <= i < |fs[1..]| ==> fs[1..][i] == fs[i + 1];
      UpdatedOther(params[fs[0].key := fs[0].value], fs[1..], key);
    }
  }

  lemma {:induction false} UpdatedAt(params: Params, fs: seq<Field>, i: nat)
    requires i < |fs| && DistinctKeys(fs)
    ensures Param(Updated(params, fs), fs[i].key) == Some(fs[i].value)
    decreases |fs|
  {
    var more := fs[1..];
    assert forall j :: 0 <= j < |more| ==> more[j] == fs[j + 1];
    if i == 0 {
      UpdatedOther(params[fs[0].key := fs[0].value], more, fs[0].key);
    } else {
      UpdatedAt(params[fs[0].key := fs[0].value], more, i - 1);
    }
  }
}
