/** What the text operations mean, on the characters alone. */
module SipTextFacts {
  import opened Options
  import opened SipText

  predicate AllSpace(s: string) {
    forall i :: 0 <= i < |s| ==> IsSpace(s[i])
  }

  /** ASCII white space: tab to carriage return, the four separators, and the blank. */
  lemma SpacesExactly(c: char)
    ensures IsSpace(c) <==>
            c in "\t\n\r " || c == 11 as char || c == 12 as char
            || c == 28 as char || c == 29 as char || c == 30 as char || c == 31 as char
  {
  }

  lemma {:induction false} StartAfter(s: string, i: nat, n: nat)
    requires i <= n <= |s| && (forall j :: i <= j < n ==> IsSpace(s[j])) && (n < |s| ==> !IsSpace(s[n]))
    ensures StartFrom(s, i) == n
    decreases n - i
  {
    if i < n {
      StartAfter(s, i + 1, n);
    }
  }

  lemma {:induction false} EndBefore(s: string, low: nat, i: nat, n: nat)
    requires low <= n <= i <= |s| && (forall j :: n <= j < i ==> IsSpace(s[j])) && (low < n ==> !IsSpace(s[n - 1]))
    ensures EndFrom(s, low, i) == n
    decreases i
  {
    if n < i {
      EndBefore(s, low, i - 1, n);
    }
  }

  /** Stripping takes off all the white space around a text, and nothing else. */
  lemma StripPadded(a: string, t: string, b: string)
    requires AllSpace(a) && AllSpace(b) && Trimmed(t)
    ensures Strip(a + t + b) == t
  {
    var s := a + t + b;
    if t == "" {
      assert forall j :: 0 <= j < |s| ==> s[j] == if j < |a| then a[j] else b[j - |a|];
      StartAfter(s, 0, |s|);
    } else {
      assert s[|a|] == t[0] && s[|a| + |t| - 1] == t[|t| - 1];
      assert forall j :: 0 <= j < |a| ==> s[j] == a[j];
      assert forall j :: |a| + |t| <= j < |s| ==> s[j] == b[j - |a| - |t|];
      StartAfter(s, 0, |a|);
      EndBefore(s, |a|, |s|, |a| + |t|);
    }
  }

  lemma {:induction false} EolBefore(s: string, i: nat, n: nat)
    requires n <= i <= |s| && (forall j :: n <= j < i ==> IsEol(s[j])) && (n > 0 ==> !IsEol(s[n - 1]))
    ensures EolStart(s, i) == n
    decreases i
  {
    if n < i {
      EolBefore(s, i - 1, n);
    }
  }

  /** A line loses every carriage return and line feed at its end, and nothing else. */
  lemma StripEolExactly(line: string, eol: string)
    requires line != "" ==> line[|line| - 1] != '\r' && line[|line| - 1] != '\n'
    requires forall i :: 0 <= i < |eol| ==> eol[i] == '\r' || eol[i] == '\n'
    ensures StripEol(line + eol) == line
  {
    var s := line + eol;
    assert forall j :: |line| <= j < |s| ==> s[j] == eol[j - |line|];
    EolBefore(s, |s|, |line|);
  }

  /** Letters differ from their other case by 32; no other character has one. */
  lemma CasesExactly(c: char)
    ensures LowerChar(c) == (if 65 <= c as int <= 90 then (c as int + 32) as char else c)
    ensures UpperChar(c) == (if 97 <= c as int <= 122 then (c as int - 32) as char else c)
  {
  }

  // ---- Integers ---------------------------------------------------------------------------------------

  /** A digit, or an underscore after something else than an underscore. */
  predicate InGroup(s: string, i: nat)
    requires i < |s|
  {
    ('0' <= s[i] <= '9') || (s[i] == '_' && i > 0 && s[i - 1] != '_')
  }

  /** Digits, with single underscores between them. */
  predicate Grouped(s: string) {
    s != "" && s[|s| - 1] != '_' && forall i :: 0 <= i < |s| ==> InGroup(s, i)
  }

  /** The number that the digits of a text spell, whatever stands between them. */
  function Spelled(s: string): nat {
    if s == "" then 0
    else
      var front, c := s[..|s| - 1], s[|s| - 1];
      if '0' <= c <= '9' then 10 * Spelled(front) + (c as int - 48) else Spelled(front)
  }

  lemma {:induction false} DigitsExactly(s: string)
    ensures DigitsValue(s) == if Grouped(s) then Some(Spelled(s)) else None
    decreases |s|
  {
    var n := |s|;
    if s == "" {
    } else if !IsDigit(s[n - 1]) {
      assert Grouped(s) ==> InGroup(s, n - 1);
    } else if n == 1 {
      assert InGroup(s, 0);
      assert s[..0] == "";
    } else {
      var k := if s[n - 2] == '_' then n - 2 else n - 1;
      var front := s[..k];
      DigitsExactly(front);
      GroupedFront(s, k);
      if k == n - 2 {
        assert s[..n - 1][..n - 2] == front;
        assert Spelled(s[..n - 1]) == Spelled(front);
      }
      assert Spelled(s) == 10 * Spelled(front) + (s[n - 1] as int - 48);
    }
  }

  lemma GroupedFront(s: string, k: nat)
    requires |s| > 1 && IsDigit(s[|s| - 1]) && k == if s[|s| - 2] == '_' then |s| - 2 else |s| - 1
    ensures Grouped(s) <==> Grouped(s[..k])
  {
    var f := s[..k];
    assert forall i :: 0 <= i < k ==> (InGroup(f, i) <==> InGroup(s, i));
    if Grouped(s) && k == |s| - 2 {
      assert InGroup(s, k);
      assert f[k - 1] == s[k - 1];
    }
    if Grouped(f) {
      forall i | 0 <= i < |s|
        ensures InGroup(s, i)
      {
        if i < k {
          assert InGroup(f, i);
        } else if i == |s| - 2 {
          assert f[k - 1] == s[k - 1];
        }
      }
    }
  }

  /**
   `int` of any text: white space around it, a sign, and at most 4300 digits with single underscores
   between them; everything else is refused.
   */
  lemma ParseIntExactly(a: string, sign: string, digits: string, b: string)
    requires AllSpace(a) && AllSpace(b) && sign in ["", "+", "-"]
    requires Trimmed(sign + digits) && (sign == "" && digits != "" ==> digits[0] != '+' && digits[0] != '-')
    ensures var v: int := Spelled(digits);
            ParseInt(a + (sign + digits) + b) ==
            if !Grouped(digits) || DigitCount(digits) > 4300 then None
            else Some(if sign == "-" then 0 - v else v)
  {
    hide Strip, DigitsValue, DigitCount, Spelled, Grouped, AllSpace, Trimmed;
    StripPadded(a, sign + digits, b);
    DigitsExactly(digits);
    SignedParts(sign, digits);
  }

  lemma SignedParts(sign: string, digits: string)
    requires sign in ["", "+", "-"]
    ensures sign == "" ==> sign + digits == digits
    ensures sign != "" ==> sign + digits != "" && (sign + digits)[0] == sign[0] && (sign + digits)[1..] == digits
  {
  }

  lemma {:induction false} DigitCountAll(s: string)
    requires forall i :: 0 <= i < |s| ==> '0' <= s[i] <= '9'
    ensures DigitCount(s) == |s|
  {
    if s != "" {
      DigitCountAll(s[1..]);
    }
  }
}
