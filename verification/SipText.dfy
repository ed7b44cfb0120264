/** The ASCII text operations the SIP modules use. */
module SipText {
  import opened Options

  predicate IsSpace(c: char) {
    9 <= c as int <= 13 || 28 <= c as int <= 32
  }

  function LowerChar(c: char): char {
    if 'A' <= c <= 'Z' then (c as int + 32) as char else c
  }

  function UpperChar(c: char): char {
    if 'a' <= c <= 'z' then (c as int - 32) as char else c
  }

  function Lower(s: string): (r: string)
    ensures |r| == |s|
  {
    seq(|s|, i requires 0 <= i < |s| => LowerChar(s[i]))
  }

  function Upper(s: string): (r: string)
    ensures |r| == |s|
  {
    seq(|s|, i requires 0 <= i < |s| => UpperChar(s[i]))
  }

  /** Where the text starts, from position `i` on. */
  function StartFrom(s: string, i: nat): (r: nat)
    requires i <= |s|
    ensures i <= r <= |s|
    ensures r < |s| ==> !IsSpace(s[r])
    decreases |s| - i
  {
    if i < |s| && IsSpace(s[i]) then StartFrom(s, i + 1) else i
  }

  /** Where the text ends, not before `low` and not after `i`. */
  function EndFrom(s: string, low: nat, i: nat): (r: nat)
    requires low <= i <= |s|
    ensures low <= r <= i
    ensures low < r ==> !IsSpace(s[r - 1])
    decreases i
  {
    if low < i && IsSpace(s[i - 1]) then EndFrom(s, low, i - 1) else i
  }

  function Strip(s: string): string {
    var low := StartFrom(s, 0);
    s[low..EndFrom(s, low, |s|)]
  }

  /** Nothing to strip at either end. */
  predicate Trimmed(s: string) {
    s != "" ==> !IsSpace(s[0]) && !IsSpace(s[|s| - 1])
  }

  lemma StripTrims(s: string)
    ensures Trimmed(Strip(s))
    ensures Trimmed(s) ==> Strip(s) == s
    ensures forall c :: c in Strip(s) ==> c in s
  {
    hide StartFrom, EndFrom;
    var low := StartFrom(s, 0);
    var high := EndFrom(s, low, |s|);
    var t := Strip(s);
    if low < high {
      assert t[0] == s[low] && t[high - low - 1] == s[high - 1];
    }
    if Trimmed(s) {
      TrimmedEnds(s);
    }
    forall c | c in t
      ensures c in s
    {
      var i :| 0 <= i < |t| && t[i] == c;
      assert s[low + i] == c;
    }
  }

  lemma TrimmedEnds(s: string)
    requires Trimmed(s)
    ensures StartFrom(s, 0) == 0 && EndFrom(s, 0, |s|) == |s|
  {
  }

  lemma StripSpaceBefore(v: string)
    requires Trimmed(v)
    ensures Strip(" " + v) == v
  {
    var s := " " + v;
    assert StartFrom(s, 0) == StartFrom(s, 1);
    if v == "" {
      assert StartFrom(s, 1) == 1;
    } else {
      assert s[1] == v[0] && s[|v|] == v[|v| - 1];
    }
  }

  /** `sep.join(parts)` */
  function Join(parts: seq<string>, sep: string): string
    requires parts != []
  {
    if |parts| == 1 then parts[0] else parts[0] + sep + Join(parts[1..], sep)
  }

  lemma {:induction false} JoinSnoc(parts: seq<string>, last: string, sep: string)
    requires parts != []
    ensures Join(parts + [last], sep) == Join(parts, sep) + sep + last
    decreases |parts|
  {
    var all := parts + [last];
    if |parts| == 1 {
      assert all[1..] == [last];
    } else {
      JoinSnoc(parts[1..], last, sep);
      assert all[1..] == parts[1..] + [last];
    }
  }

  predicate IsEol(c: char) {
    c == '\r' || c == '\n'
  }

  function EolStart(s: string, i: nat): (r: nat)
    requires i <= |s|
    ensures r <= i
    ensures r > 0 ==> !IsEol(s[r - 1])
    decreases i
  {
    if i > 0 && IsEol(s[i - 1]) then EolStart(s, i - 1) else i
  }

  /** `rstrip("\r\n")` */
  function StripEol(s: string): string {
    s[..EolStart(s, |s|)]
  }

  lemma StripEolOfLine(s: string)
    requires s != "" ==> !IsEol(s[|s| - 1])
    ensures StripEol(s + "\r\n") == s
  {
    var t, n := s + "\r\n", |s|;
    assert t[n + 1] == '\n' && t[n] == '\r' && (n > 0 ==> t[n - 1] == s[n - 1]);
    assert EolStart(t, n + 2) == EolStart(t, n + 1) == EolStart(t, n) == n;
  }

  function IndexFrom(s: string, c: char, i: nat): (r: nat)
    requires i <= |s|
    ensures i <= r <= |s|
    ensures r < |s| ==> s[r] == c
    ensures forall j :: i <= j < r ==> s[j] != c
    decreases |s| - i
  {
    if i < |s| && s[i] != c then IndexFrom(s, c, i + 1) else i
  }

  /** The first occurrence of a character, or the length. */
  function IndexOf(s: string, c: char): nat {
    IndexFrom(s, c, 0)
  }

  lemma IndexOfAt(s: string, c: char, i: nat)
    requires i < |s| && s[i] == c && forall j :: 0 <= j < i ==> s[j] != c
    ensures IndexOf(s, c) == i
  {
  }

  // ---- Decimal numbers ------------------------------------------------------------------------

  predicate IsDigit(c: char) {
    '0' <= c <= '9'
  }

  /** `str(n)` */
  function Decimal(n: nat): (s: string)
    ensures s != "" && forall c :: c in s ==> IsDigit(c)
  {
    var d := ('0' as int + n % 10) as char;
    if n < 10 then [d] else Decimal(n / 10) + [d]
  }

  /** Digits, with single underscores between them. */
  function DigitsValue(s: string): Option<nat> {
    if s == "" || !IsDigit(s[|s| - 1]) then None
    else
      var d := s[|s| - 1] as int - '0' as int;
      if |s| == 1 then Some(d)
      else
        var front := if s[|s| - 2] == '_' then s[..|s| - 2] else s[..|s| - 1];
        match DigitsValue(front)
        case None => None
        case Some(v) => Some(10 * v + d)
  }

  function DigitCount(s: string): nat {
    if s == "" then 0 else DigitCount(s[1..]) + if IsDigit(s[0]) then 1 else 0
  }

  const MAX_STR_DIGITS := 4300

  /** `int(s)`, None standing for its ValueError. */
  function ParseInt(s: string): Option<int> {
    var t := Strip(s);
    var signed := t != "" && (t[0] == '+' || t[0] == '-');
    var digits := if signed then t[1..] else t;
    if DigitCount(digits) > MAX_STR_DIGITS then None
    else match DigitsValue(digits)
      case None => None
      case Some(v) => Some(if signed && t[0] == '-' then 0 - v else v)
  }

  lemma {:induction false} DecimalValue(n: nat)
    ensures DigitsValue(Decimal(n)) == Some(n)
  {
    if n >= 10 {
      DecimalValue(n / 10);
      var s := Decimal(n);
      assert s[..|s| - 1] == Decimal(n / 10);
      assert s[|s| - 2] in Decimal(n / 10);
    }
  }

  lemma {:induction false} DigitCountBound(s: string)
    ensures DigitCount(s) <= |s|
  {
    if s != "" {
      DigitCountBound(s[1..]);
    }
  }

  function Pow10(k: nat): nat {
    if k == 0 then 1 else 10 * Pow10(k - 1)
  }

  lemma {:induction false} DecimalLength(n: nat, k: nat)
    requires k >= 1 && n < Pow10(k)
    ensures |Decimal(n)| <= k
  {
    if n >= 10 {
      assert k >= 2 by { assert Pow10(1) == 10; }
      assert n / 10 < Pow10(k - 1);
      DecimalLength(n / 10, k - 1);
    }
  }

  lemma DecimalShort(n: nat)
    requires n <= 65536
    ensures |Decimal(n)| <= 5
  {
    assert Pow10(2) == 100 && Pow10(3) == 1000 && Pow10(4) == 10000 && Pow10(5) == 100000;
    DecimalLength(n, 5);
  }

  lemma DecimalTrimmed(s: string)
    requires s != "" && forall c :: c in s ==> IsDigit(c)
    ensures Trimmed(s) && '\n' !in s && Strip(s) == s
  {
    assert s[0] in s && s[|s| - 1] in s;
    StripTrims(s);
  }

  lemma ParseUnsigned(s: string, v: nat)
    requires s != "" && Strip(s) == s && s[0] != '+' && s[0] != '-'
    requires DigitsValue(s) == Some(v) && DigitCount(s) <= MAX_STR_DIGITS
    ensures ParseInt(s) == Some(v)
  {
  }

  /** A printed number is read back, or refused for its length alone. */
  lemma DecimalParses(n: nat)
    ensures ParseInt(Decimal(n)) == if DigitCount(Decimal(n)) > MAX_STR_DIGITS then None else Some(n)
  {
    var s := Decimal(n);
    DecimalTrimmed(s);
    assert IsDigit(s[0]);
    DecimalValue(n);
    if DigitCount(s) <= MAX_STR_DIGITS {
      ParseUnsigned(s, n);
    }
  }

  lemma DecimalRoundTrip(n: nat)
    requires n <= 65536
    ensures ParseInt(Decimal(n)) == Some(n)
  {
    DecimalShort(n);
    DigitCountBound(Decimal(n));
    DecimalParses(n);
  }
}
