/** What the reader answers on any stream of lines, not only on what the writer prints. */
module SipReading {
  import opened Options
  import opened Dicts
  import opened SipText
  import opened SipTextFacts
  import opened SipSpec
  import opened SipRoundTrip

  // ---- Lines --------------------------------------------------------------------------------------------

  /** A line as it comes from the stream: up to and with its line feed, within the reader's limit. */
  predicate RawLine(raw: string) {
    0 < |raw| <= 65537 && raw[|raw| - 1] == '\n' && forall i :: 0 <= i < |raw| - 1 ==> raw[i] != '\n'
  }

  predicate HeaderLines(raws: seq<string>) {
    forall i :: 0 <= i < |raws| ==> RawLine(raws[i]) && StripEol(raws[i]) != ""
  }

  predicate Blank(raw: string) {
    RawLine(raw) && StripEol(raw) == ""
  }

  function Text(raws: seq<string>): string {
    if raws == [] then "" else raws[0] + Text(raws[1..])
  }

  lemma ReadRaw(raw: string, rest: string)
    requires RawLine(raw)
    ensures ReadLine(raw + rest) == Line(raw, rest)
  {
    var s, n := raw + rest, |raw| - 1;
    assert s[n] == '\n' && forall i :: 0 <= i < n ==> s[i] == raw[i];
    IndexOfAt(s, '\n', n);
    assert s[..n + 1] == raw && s[n + 1..] == rest;
  }

  /** What is left of the stream without a line feed is a last line, unless it is beyond the reader's limit. */
  lemma ReadLast(s: string)
    requires forall i :: 0 <= i < |s| ==> s[i] != '\n'
    ensures ReadLine(s) == if s == "" then Eof else if |s| > 65536 then TooLong else Line(s, "")
  {
  }

  /** The name before the first colon, normalized, and the value after it, stripped. */
  lemma HeaderExactly(name: string, value: string)
    requires ':' !in name
    ensures HeaderOf(name + ":" + value) == Some(Entry(NormalizeName(name), Strip(value)))
  {
    var s := name + ":" + value;
    assert forall j :: 0 <= j < |name| ==> s[j] == name[j];
    IndexOfAt(s, ':', |name|);
    assert s[..|name|] == name && s[|name| + 1..] == value;
  }

  lemma NoHeader(line: string)
    ensures HeaderOf(line).None? <==> ':' !in line
  {
    var i := IndexOf(line, ':');
    if i < |line| {
      assert line[i] in line;
    }
  }

  /** The entries of lines that all have a colon. */
  function Entries(raws: seq<string>): Headers {
    if raws == [] then []
    else
      var h := HeaderOf(StripEol(raws[0]));
      (if h.Some? then [h.value] else []) + Entries(raws[1..])
  }

  predicate AllHeaders(raws: seq<string>) {
    forall i :: 0 <= i < |raws| ==> ':' in StripEol(raws[i])
  }

  lemma StepRaw(raw: string, rest: string, count: nat, size: nat)
    requires RawLine(raw) && StripEol(raw) != ""
    ensures StepHeaders(raw + rest, count, size) ==
            if ':' in StripEol(raw) && count < 100 && size + |raw| <= 65536
            then Next(HeaderOf(StripEol(raw)).value, size + |raw|, rest)
            else Stop(HeadersFault)
  {
    hide ReadLine, HeaderOf, StripEol;
    ReadRaw(raw, rest);
    NoHeader(StripEol(raw));
  }

  lemma StepBlank(raw: string, rest: string, count: nat, size: nat)
    requires Blank(raw)
    ensures StepHeaders(raw + rest, count, size) ==
            Stop(if size + |raw| <= 65536 then HeaderBlock([], size + |raw|, rest) else HeadersFault)
  {
    hide ReadLine, StripEol;
    ReadRaw(raw, rest);
  }

  lemma FirstRaw(raws: seq<string>, rest: string)
    requires raws != []
    ensures Text(raws) + rest == raws[0] + (Text(raws[1..]) + rest)
    ensures |Text(raws)| == |raws[0]| + |Text(raws[1..])|
  {
  }

  /**
   Any header block: read to its blank line, unless a line has no colon, there are more than 100
   headers, or more than 65536 bytes; those fault.
   */
  lemma {:induction false} BlockExactly(raws: seq<string>, blank: string, rest: string, count: nat, size: nat)
    requires HeaderLines(raws) && Blank(blank) && count <= 100
    ensures var total := size + |Text(raws)| + |blank|;
            ReadHeaders(Text(raws) + (blank + rest), count, size) ==
            if AllHeaders(raws) && count + |raws| <= 100 && total <= 65536
            then HeaderBlock(Entries(raws), total, rest) else HeadersFault
    decreases |raws|
  {
    hide StepHeaders, StripEol, HeaderOf, RawLine;
    if raws == [] {
      assert Text(raws) + (blank + rest) == blank + rest;
      StepBlank(blank, rest, count, size);
    } else {
      var raw, more := raws[0], raws[1..];
      FirstRaw(raws, blank + rest);
      StepRaw(raw, Text(more) + (blank + rest), count, size);
      if ':' in StripEol(raw) && count < 100 && size + |raw| <= 65536 {
        BlockExactly(more, blank, rest, count + 1, size + |raw|);
        assert AllHeaders(raws) <==> AllHeaders(more);
        NoHeader(StripEol(raw));
      }
    }
  }

  /** A stream that ends before the blank line closes the connection, unless a line faults first. */
  lemma {:induction false} EndExactly(raws: seq<string>, count: nat, size: nat)
    requires HeaderLines(raws) && count <= 100
    ensures ReadHeaders(Text(raws), count, size) ==
            if AllHeaders(raws) && count + |raws| <= 100 && (raws == [] || size + |Text(raws)| <= 65536)
            then HeadersClosed else HeadersFault
    decreases |raws|
  {
    hide StepHeaders, StripEol, HeaderOf, RawLine;
    if raws == [] {
      assert StepHeaders("", count, size) == Stop(HeadersClosed) by { StepAtEnd(count, size); }
    } else {
      var raw, more := raws[0], raws[1..];
      StepRaw(raw, Text(more), count, size);
      if ':' in StripEol(raw) && count < 100 && size + |raw| <= 65536 {
        EndExactly(more, count + 1, size + |raw|);
        assert AllHeaders(raws) <==> AllHeaders(more);
      }
    }
  }

  lemma StepAtEnd(count: nat, size: nat)
    ensures StepHeaders("", count, size) == Stop(HeadersClosed)
  {
  }

  // ---- The dictionary -----------------------------------------------------------------------------------

  /** The value on the last line of a name. */
  function LastValue(hs: Headers, k: string): Option<string> {
    if hs == [] then None
    else
      var h := hs[|hs| - 1];
      if h.key == k then Some(h.value) else LastValue(hs[..|hs| - 1], k)
  }

  /** The names in the order of their first lines. */
  function Names(hs: Headers): seq<string> {
    if hs == [] then []
    else
      var front, k := Names(hs[..|hs| - 1]), hs[|hs| - 1].key;
      if k in front then front else front + [k]
  }

  function Keys(d: Headers): seq<string> {
    seq(|d|, i requires 0 <= i < |d| => d[i].key)
  }

  /** The dictionary has every name once, at its first place, with its last value. */
  lemma {:induction false} DictExactly(hs: Headers, k: string)
    ensures Get(DictOf(hs), k) == LastValue(hs, k)
    ensures Keys(DictOf(hs)) == Names(hs)
  {
    if hs != [] {
      var front, h := hs[..|hs| - 1], hs[|hs| - 1];
      DictExactly(front, k);
      GetPut(DictOf(front), h.key, h.value, k);
      PutKeys(DictOf(front), h.key, h.value);
      KeyIn(DictOf(front), h.key);
    }
  }

  lemma KeyIn(d: Headers, k: string)
    ensures k in Keys(d) <==> Has(d, k)
  {
    if Has(d, k) {
      var i :| 0 <= i < |d| && d[i].key == k;
      assert Keys(d)[i] == k;
    }
  }

  lemma PutKeys(d: Headers, k: string, v: string)
    ensures Keys(Put(d, k, v)) == if Has(d, k) then Keys(d) else Keys(d) + [k]
  {
  }

  /** The headers with their names normalized. */
  function Renamed(hs: Headers): Headers {
    seq(|hs|, i requires 0 <= i < |hs| => Entry(NormalizeName(hs[i].key), hs[i].value))
  }

  lemma {:induction false} NormalizeIsDict(hs: Headers)
    ensures NormalizeHeaders(hs) == DictOf(Renamed(hs))
  {
    hide NormalizeName;
    if hs != [] {
      NormalizeIsDict(hs[..|hs| - 1]);
      assert Renamed(hs)[..|hs| - 1] == Renamed(hs[..|hs| - 1]);
    }
  }

  /** What is written for a name: its last value under any spelling, and the body's length as Content-Length. */
  lemma WrittenExactly(m: SipMessage, k: string)
    ensures var hs, len := Normalize(m).headers, "content-length";
            && Get(hs, k) == (if k == len then Some(Decimal(|m.body|)) else LastValue(Renamed(m.headers), k))
            && Keys(hs) == (var names := Names(Renamed(m.headers)); if len in names then names else names + [len])
  {
    hide NormalizeName, Decimal;
    var hs, name, v := NormalizeHeaders(m.headers), "content-length", Decimal(|m.body|);
    NormalizeIsDict(m.headers);
    DictExactly(Renamed(m.headers), k);
    GetPut(hs, name, v, k);
    PutKeys(hs, name, v);
    KeyIn(hs, name);
  }

  // ---- Whole messages -------------------------------------------------------------------------------------

  /**
   The answer to any first line, header lines, blank line and what follows, however its lines end: a
   fault for a line without a colon, too many headers or bytes, or a Content-Length that is no number,
   negative or too long; the end of the connection when the body is cut short; else the message, whose
   body the last Content-Length decides and is empty without one.
   */
  lemma ParseExactly(first: string, raws: seq<string>, blank: string, tail: string)
    requires RawLine(first) && StripEol(first) != "" && HeaderLines(raws) && Blank(blank)
    ensures var hs, size := Entries(raws), |first| + |Text(raws)| + |blank|;
            Parse(first + (Text(raws) + (blank + tail))) ==
            if !AllHeaders(raws) || |raws| > 100 || size > 65536 then Fault
            else match LastValue(hs, "content-length")
              case None => Message(SipMessage(StripEol(first), DictOf(hs), ""), tail)
              case Some(v) =>
                match ParseInt(v)
                case None => Fault
                case Some(n) =>
                  if n < 0 || size + n > 65536 then Fault
                  else if |tail| < n then Closed
                  else Message(SipMessage(StripEol(first), DictOf(hs), tail[..n]), tail[n..])
  {
    hide ReadHeaders, ReadLine, StripEol, HeaderOf, ParseInt, DictOf, RawLine, Text;
    var name := "content-length";
    ReadRaw(first, Text(raws) + (blank + tail));
    BlockExactly(raws, blank, tail, 0, |first|);
    DictExactly(Entries(raws), name);
    assert tail[..0] == "" && tail[0..] == tail;
  }

  /** A stream that ends among the headers, or has nothing but an empty line, is closed without a message. */
  lemma EndsEarly(first: string, raws: seq<string>)
    requires RawLine(first) && HeaderLines(raws)
    ensures Parse("") == Closed
    ensures StripEol(first) == "" ==> Parse(first + Text(raws)) == Closed
    ensures StripEol(first) != "" ==>
              Parse(first + Text(raws)) ==
              if AllHeaders(raws) && |raws| <= 100 && (raws == [] || |first| + |Text(raws)| <= 65536) then Closed else Fault
  {
    hide ReadHeaders, StripEol, HeaderOf, RawLine, Text;
    ReadRaw(first, Text(raws));
    EndExactly(raws, 0, |first|);
  }

  /** The printed header lines of any stored headers, names repeated or not, are lines of this kind. */
  lemma {:induction false} WireLines(hs: Headers) returns (raws: seq<string>)
    requires AllStored(hs) && forall i :: 0 <= i < |hs| ==> |WireHeader(hs[i])| < 65536
    ensures HeaderLines(raws) && AllHeaders(raws) && |raws| == |hs|
    ensures Text(raws) == WireHeaders(hs) && Entries(raws) == hs
  {
    hide StripEol, HeaderOf, WireHeader, Stored, RawLine;
    if hs == [] {
      raws := [];
    } else {
      var h := hs[0];
      var more := WireLines(hs[1..]);
      var raw := WireHeader(h) + "\r\n";
      HeaderOfWire(h);
      WireLineRaw(WireHeader(h));
      NoHeader(WireHeader(h));
      raws := [raw] + more;
      assert raws[1..] == more;
      assert hs == [h] + hs[1..];
    }
  }

  lemma WireLineRaw(w: string)
    requires '\n' !in w && |w| < 65536
    ensures RawLine(w + "\r\n")
  {
    var raw := w + "\r\n";
    assert forall i :: 0 <= i < |w| ==> raw[i] == w[i];
  }

  // ---- Conversations --------------------------------------------------------------------------------------

  /** After any messages, what the parser cannot read ends the conversation: with a fault, or quietly. */
  lemma {:induction false} StopsExactly(ms: seq<SipMessage>, more: string)
    requires forall i :: 0 <= i < |ms| ==> WellFormed(ms[i]) && Fits(ms[i])
    requires !Parse(more).Message?
    ensures ParseAll(SerializeAll(ms) + more) == Conversation(NormalizeAll(ms), Parse(more).Fault?)
    decreases |ms|
  {
    hide Parse, WellFormed, Fits, Normalize, Serialize;
    if ms == [] {
      assert "" + more == more;
    } else {
      var rest := SerializeAll(ms[1..]) + more;
      assert SerializeAll(ms) + more == Serialize(ms[0]) + rest;
      ParseSerialize(ms[0], rest);
      ParseAllFirst(Serialize(ms[0]) + rest, Normalize(ms[0]), rest);
      StopsExactly(ms[1..], more);
    }
  }

  // ---- Names and the printed form -------------------------------------------------------------------------

  lemma LowerPadded(a: string, name: string, b: string)
    requires AllSpace(a) && AllSpace(b)
    ensures Lower(a + name + b) == a + Lower(name) + b
  {
    var s, r := a + name + b, a + Lower(name) + b;
    forall i | 0 <= i < |s|
      ensures LowerChar(s[i]) == r[i]
    {
      if i < |a| {
        assert IsSpace(a[i]);
      } else if i >= |a| + |name| {
        assert IsSpace(b[i - |a| - |name|]);
      }
    }
  }

  /** A name with white space around it becomes its lower-case form; the compact forms are one letter in any case. */
  lemma NamesExactly(a: string, name: string, b: string)
    requires AllSpace(a) && AllSpace(b) && Trimmed(name)
    ensures var long := map['i' := "call-id", 'f' := "from", 't' := "to", 'v' := "via", 'm' := "contact",
                            'l' := "content-length", 'c' := "content-type", 'e' := "content-encoding",
                            'k' := "supported", 's' := "subject"];
            var lower := Lower(name);
            NormalizeName(a + name + b) == if |name| == 1 && lower[0] in long then long[lower[0]] else lower
  {
    hide Strip;
    LowerPadded(a, name, b);
    LowerTrimmed(name);
    StripPadded(a, Lower(name), b);
    if |name| == 1 {
      assert Lower(name) == [Lower(name)[0]];
    }
  }

  lemma LowerTrimmed(name: string)
    requires Trimmed(name)
    ensures Trimmed(Lower(name))
  {
  }

  /** The parts of a name between hyphens start with a capital and go on in lower case. */
  lemma TitleExactly(name: string, i: nat)
    requires i < |name|
    ensures Title(name)[i] == if i == 0 || name[i - 1] == '-' then UpperChar(name[i]) else LowerChar(name[i])
  {
  }

  lemma ExampleName(name: string)
    requires name == "call-id"
    ensures Title(name) == "Call-Id"
  {
    assert Title(name)[0] == 'C' && Title(name)[1] == 'a' && Title(name)[2] == 'l' && Title(name)[3] == 'l';
    assert Title(name)[4] == '-' && Title(name)[5] == 'I' && Title(name)[6] == 'd';
  }

  lemma LengthName(name: string)
    requires name == "content-length"
    ensures Title(name) == "Content-Length"
  {
    var t := Title(name);
    assert t[0] == 'C' && t[1] == 'o' && t[2] == 'n' && t[3] == 't' && t[4] == 'e' && t[5] == 'n' && t[6] == 't';
    assert t[7] == '-' && t[8] == 'L' && t[9] == 'e' && t[10] == 'n' && t[11] == 'g' && t[12] == 't' && t[13] == 'h';
  }

  /** A message on the wire, with its compact name written out and its Content-Length added. */
  lemma WireExample(firstLine: string, value: string, body: string)
    requires |body| == 2
    ensures Serialize(SipMessage(firstLine, [Entry("i", value)], body)) ==
            firstLine + "\r\n" + ("Call-Id: " + value + "\r\n" + ("Content-Length: 2" + "\r\n")) + "\r\n" + body
  {
    var i, id, len := "i", "call-id", "content-length";
    var hs, m := [Entry(i, value)], SipMessage(firstLine, [Entry(i, value)], body);
    assert NormalizeName(i) == id by { NamesExactly("", i, ""); assert "" + i + "" == i; }
    assert hs[..0] == [];
    assert NormalizeHeaders(hs) == [Entry(id, value)] by { hide NormalizeName; }
    assert Decimal(|body|) == "2";
    var n := [Entry(id, value), Entry(len, "2")];
    assert Normalize(m).headers == n by { hide NormalizeName, NormalizeHeaders, Decimal; }
    ExampleName(id);
    LengthName(len);
    hide Title, NormalizeName, NormalizeHeaders, Normalize, Decimal;
    assert n[1..] == [Entry(len, "2")] && n[1..][1..] == [];
    assert WireHeaders(n[1..]) == "Content-Length" + ": " + "2" + "\r\n" + "";
    assert "Content-Length" + ": " + "2" == "Content-Length: 2" && "Call-Id" + ": " == "Call-Id: ";
    assert WireHeaders(n) == "Call-Id" + ": " + value + "\r\n" + WireHeaders(n[1..]);
  }
}
