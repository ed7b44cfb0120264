/** Serializing and parsing SIP messages undo each other, over pipelined streams. */
module SipRoundTrip {
  import opened Options
  import opened Dicts
  import opened SipText
  import opened SipSpec

  // ---- Names ----------------------------------------------------------------------------------

  /** A lower-case word, as all the long names in the table are. */
  predicate Plain(s: string) {
    |s| >= 2 && forall c :: c in s ==> 'a' <= c <= 'z' || c == '-'
  }

  lemma LongForms(c: char)
    ensures LongForm(c) == [c] || Plain(LongForm(c))
  {
  }

  lemma LowerFixed(s: string)
    requires forall c :: c in s ==> LowerChar(c) == c
    ensures Lower(s) == s
  {
    assert forall i :: 0 <= i < |s| ==> s[i] in s;
  }

  lemma PlainFixed(s: string)
    requires Plain(s)
    ensures NormalizeName(s) == s && ':' !in s && '\n' !in s
  {
    LowerFixed(s);
    assert s[0] in s && s[|s| - 1] in s;
    StripTrims(s);
  }

  /** The name before the compact form is looked up: lower case and trimmed. */
  lemma FoldedName(name: string)
    ensures var t := Strip(Lower(name));
            && Lower(t) == t && Strip(t) == t
            && forall c :: c in t && (c == ':' || c == '\n') ==> c in name
  {
    var l := Lower(name);
    var t := Strip(l);
    StripTrims(l);
    StripTrims(t);
    forall c | c in t
      ensures LowerChar(c) == c && ((c == ':' || c == '\n') ==> c in name)
    {
      var i :| 0 <= i < |l| && l[i] == c;
      assert name[i] in name;
    }
    LowerFixed(t);
  }

  /** A normalized name is fixed, and has no colon or line feed that the name did not have. */
  lemma NormalizeNameFixed(name: string)
    ensures var n := NormalizeName(name);
            && NormalizeName(n) == n
            && (':' !in name ==> ':' !in n) && ('\n' !in name ==> '\n' !in n)
  {
    var t := Strip(Lower(name));
    FoldedName(name);
    if Expand(t) != t {
      LongForms(t[0]);
      PlainFixed(Expand(t));
    }
  }

  lemma TitleLower(name: string)
    ensures Lower(Title(name)) == Lower(name)
    ensures ':' !in name ==> ':' !in Title(name)
    ensures '\n' !in name ==> '\n' !in Title(name)
  {
  }

  lemma TitleNormalizes(name: string)
    ensures NormalizeName(Title(name)) == NormalizeName(name)
  {
    TitleLower(name);
  }

  // ---- One header -----------------------------------------------------------------------------

  /** A header as the parser stores it. */
  predicate Stored(h: Entry<string, string>) {
    && NormalizeName(h.key) == h.key && ':' !in h.key && '\n' !in h.key
    && Trimmed(h.value) && '\n' !in h.value
  }

  lemma ColonOfWire(title: string, value: string)
    requires ':' !in title
    ensures var w := title + ": " + value;
            IndexOf(w, ':') == |title| && w[..|title|] == title && w[|title| + 1..] == " " + value
  {
    var w := title + ": " + value;
    assert forall j :: 0 <= j < |title| ==> w[j] == title[j];
    IndexOfAt(w, ':', |title|);
  }

  lemma EndOfWire(title: string, value: string)
    requires '\n' !in title && '\n' !in value && Trimmed(value)
    ensures var w := title + ": " + value;
            w != "" && '\n' !in w && StripEol(w + "\r\n") == w
  {
    var w := title + ": " + value;
    if value != "" {
      assert w[|w| - 1] == value[|value| - 1];
    } else {
      assert w[|w| - 1] == ' ';
    }
    StripEolOfLine(w);
  }

  lemma HeaderOfWire(h: Entry<string, string>)
    requires Stored(h)
    ensures HeaderOf(WireHeader(h)) == Some(h)
    ensures var w := WireHeader(h); w != "" && '\n' !in w && StripEol(w + "\r\n") == w
  {
    TitleLower(h.key);
    TitleNormalizes(h.key);
    ColonOfWire(Title(h.key), h.value);
    StripSpaceBefore(h.value);
    EndOfWire(Title(h.key), h.value);
  }

  lemma ReadTerminated(line: string, rest: string)
    requires '\n' !in line && |line| < READ_LIMIT
    ensures ReadLine(line + "\r\n" + rest) == Line(line + "\r\n", rest)
  {
    var s := line + "\r\n" + rest;
    assert s[|line| + 1] == '\n';
    assert forall j :: 0 <= j < |line| ==> s[j] == line[j];
    IndexOfAt(s, '\n', |line| + 1);
    assert s[..|line| + 2] == line + "\r\n" && s[|line| + 2..] == rest;
  }

  // ---- The header block -----------------------------------------------------------------------

  predicate AllStored(hs: Headers) {
    forall i :: 0 <= i < |hs| ==> Stored(hs[i])
  }

  lemma StepWire(h: Entry<string, string>, rest: string, count: nat, size: nat)
    requires Stored(h) && count < MAX_HEADER_COUNT
    requires size + |WireHeader(h)| + 2 <= MAX_MESSAGE_SIZE
    ensures StepHeaders(WireHeader(h) + "\r\n" + rest, count, size) == Next(h, size + |WireHeader(h)| + 2, rest)
  {
    hide HeaderOf, WireHeader, StripEol, ReadLine;
    HeaderOfWire(h);
    ReadTerminated(WireHeader(h), rest);
  }

  /** What `readline` sees first: one header line and the rest of the block. */
  lemma WireFirst(h: Entry<string, string>, more: Headers, tail: string)
    ensures WireHeaders([h] + more) + "\r\n" + tail == WireHeader(h) + "\r\n" + (WireHeaders(more) + "\r\n" + tail)
    ensures |WireHeaders([h] + more)| == |WireHeader(h)| + 2 + |WireHeaders(more)|
  {
    var hs := [h] + more;
    assert hs[1..] == more;
    assert WireHeaders(hs) == WireHeader(h) + "\r\n" + WireHeaders(more);
  }

  lemma BlankLine(tail: string, count: nat, size: nat)
    requires size + 2 <= MAX_MESSAGE_SIZE
    ensures StepHeaders("\r\n" + tail, count, size) == Stop(HeaderBlock([], size + 2, tail))
  {
    ReadTerminated("", tail);
    StripEolOfLine("");
    assert "" + "\r\n" == "\r\n";
  }

  lemma ReadNext(s: string, count: nat, size: nat, h: Entry<string, string>, total: nat, rest: string)
    requires StepHeaders(s, count, size) == Next(h, total, rest)
    ensures ReadHeaders(s, count, size) == AfterLine(h, ReadHeaders(rest, count + 1, total))
  {
    hide StepHeaders;
  }

  lemma ReadStop(s: string, count: nat, size: nat, block: HeaderBlock)
    requires StepHeaders(s, count, size) == Stop(block)
    ensures ReadHeaders(s, count, size) == block
  {
    hide StepHeaders;
  }

  lemma {:induction false} ReadWireHeaders(hs: Headers, tail: string, count: nat, size: nat)
    requires AllStored(hs) && count + |hs| <= MAX_HEADER_COUNT
    requires size + |WireHeaders(hs)| + 2 <= MAX_MESSAGE_SIZE
    ensures ReadHeaders(WireHeaders(hs) + "\r\n" + tail, count, size) ==
            HeaderBlock(hs, size + |WireHeaders(hs)| + 2, tail)
    decreases |hs|
  {
    hide StepHeaders, ReadHeaders, WireHeader, Stored;
    if hs == [] {
      assert "" + "\r\n" + tail == "\r\n" + tail;
      BlankLine(tail, count, size);
      ReadStop("\r\n" + tail, count, size, HeaderBlock([], size + 2, tail));
    } else {
      var h, more := hs[0], hs[1..];
      var rest, total := WireHeaders(more) + "\r\n" + tail, size + |WireHeader(h)| + 2;
      assert hs == [h] + more;
      WireFirst(h, more, tail);
      StepWire(h, rest, count, size);
      ReadNext(WireHeader(h) + "\r\n" + rest, count, size, h, total, rest);
      ReadWireHeaders(more, tail, count + 1, total);
    }
  }

  lemma ReadEndless(line: string, rest: string)
    requires '\n' !in line && |line| >= READ_LIMIT
    ensures ReadLine(line + "\r\n" + rest) == TooLong
  {
    var s := line + "\r\n" + rest;
    assert s[|line| + 1] == '\n';
    assert forall j :: 0 <= j < |line| ==> s[j] == line[j];
    IndexOfAt(s, '\n', |line| + 1);
  }

  lemma StepOverLimit(h: Entry<string, string>, rest: string, count: nat, size: nat)
    requires Stored(h)
    requires count >= MAX_HEADER_COUNT || size + |WireHeader(h)| + 2 > MAX_MESSAGE_SIZE
    ensures StepHeaders(WireHeader(h) + "\r\n" + rest, count, size) == Stop(HeadersFault)
  {
    hide HeaderOf, WireHeader, StripEol, ReadLine;
    HeaderOfWire(h);
    if |WireHeader(h)| < READ_LIMIT {
      ReadTerminated(WireHeader(h), rest);
    } else {
      ReadEndless(WireHeader(h), rest);
    }
  }

  lemma BlankOverLimit(tail: string, count: nat, size: nat)
    requires size + 2 > MAX_MESSAGE_SIZE
    ensures StepHeaders("\r\n" + tail, count, size) == Stop(HeadersFault)
  {
    ReadTerminated("", tail);
    assert "" + "\r\n" == "\r\n";
  }

  /** A header block beyond a limit is a fault, wherever in it the limit is crossed. */
  lemma {:induction false} OverLimitHeaders(hs: Headers, tail: string, count: nat, size: nat)
    requires AllStored(hs) && count <= MAX_HEADER_COUNT
    requires count + |hs| > MAX_HEADER_COUNT || size + |WireHeaders(hs)| + 2 > MAX_MESSAGE_SIZE
    ensures ReadHeaders(WireHeaders(hs) + "\r\n" + tail, count, size) == HeadersFault
    decreases |hs|
  {
    hide StepHeaders, ReadHeaders, WireHeader, Stored;
    if hs == [] {
      assert "" + "\r\n" + tail == "\r\n" + tail;
      BlankOverLimit(tail, count, size);
      ReadStop("\r\n" + tail, count, size, HeadersFault);
    } else {
      var h, more := hs[0], hs[1..];
      var rest, total := WireHeaders(more) + "\r\n" + tail, size + |WireHeader(h)| + 2;
      assert hs == [h] + more;
      WireFirst(h, more, tail);
      if count >= MAX_HEADER_COUNT || total > MAX_MESSAGE_SIZE {
        StepOverLimit(h, rest, count, size);
        ReadStop(WireHeader(h) + "\r\n" + rest, count, size, HeadersFault);
      } else {
        StepWire(h, rest, count, size);
        ReadNext(WireHeader(h) + "\r\n" + rest, count, size, h, total, rest);
        OverLimitHeaders(more, tail, count + 1, total);
      }
    }
  }

  /** Header lines with different names are their own dictionary. */
  lemma {:induction false} DictOfUnique(hs: Headers)
    requires Unique(hs)
    ensures DictOf(hs) == hs
  {
    if hs != [] {
      var front, h := hs[..|hs| - 1], hs[|hs| - 1];
      DictOfUnique(front);
      assert Find(front, h.key) == |front|;
      assert front + [h] == hs;
    }
  }

  // ---- Whole messages -------------------------------------------------------------------------

  predicate WellFormed(m: SipMessage) {
    && m.firstLine != "" && '\n' !in m.firstLine && m.firstLine[|m.firstLine| - 1] != '\r'
    && forall i :: 0 <= i < |m.headers| ==>
         && ':' !in m.headers[i].key && '\n' !in m.headers[i].key
         && Trimmed(m.headers[i].value) && '\n' !in m.headers[i].value
  }

  predicate Fits(m: SipMessage) {
    |Normalize(m).headers| <= MAX_HEADER_COUNT && |Serialize(m)| <= MAX_MESSAGE_SIZE
  }

  lemma PutStored(hs: Headers, h: Entry<string, string>)
    requires AllStored(hs) && Unique(hs) && Stored(h)
    ensures AllStored(Put(hs, h.key, h.value)) && Unique(Put(hs, h.key, h.value))
  {
    UniqueKept(hs, h.key, h.value);
  }

  lemma {:induction false} NormalizedStored(hs: Headers)
    requires forall i :: 0 <= i < |hs| ==> 
               ':' !in hs[i].key && '\n' !in hs[i].key && Trimmed(hs[i].value) && '\n' !in hs[i].value
    ensures AllStored(NormalizeHeaders(hs)) && Unique(NormalizeHeaders(hs))
  {
    if hs != [] {
      var h := hs[|hs| - 1];
      NormalizedStored(hs[..|hs| - 1]);
      NormalizeNameFixed(h.key);
      PutStored(NormalizeHeaders(hs[..|hs| - 1]), Entry(NormalizeName(h.key), h.value));
    }
  }

  lemma LengthHeaderStored(name: string, n: nat)
    requires name == "content-length"
    ensures Stored(Entry(name, Decimal(n)))
  {
    DecimalTrimmed(Decimal(n));
    PlainLengthName(name);
    PlainFixed(name);
  }

  lemma PlainLengthName(name: string)
    requires name == "content-length"
    ensures Plain(name)
  {
  }

  lemma NormalizedHeaders(m: SipMessage)
    requires WellFormed(m)
    ensures var hs := Normalize(m).headers;
            AllStored(hs) && Unique(hs) && Get(hs, "content-length") == Some(Decimal(|m.body|))
  {
    var hs, name, v := NormalizeHeaders(m.headers), "content-length", Decimal(|m.body|);
    NormalizedStored(m.headers);
    LengthHeaderStored(name, |m.body|);
    PutStored(hs, Entry(name, v));
    GetPut(hs, name, v, name);
  }

  lemma ReadHead(firstLine: string, hs: Headers, tail: string)
    requires firstLine != "" && '\n' !in firstLine && firstLine[|firstLine| - 1] != '\r'
    requires AllStored(hs) && |hs| <= MAX_HEADER_COUNT
    requires |firstLine| + 2 + |WireHeaders(hs)| + 2 <= MAX_MESSAGE_SIZE
    ensures var block := WireHeaders(hs) + "\r\n" + tail;
            && ReadLine(firstLine + "\r\n" + block) == Line(firstLine + "\r\n", block)
            && StripEol(firstLine + "\r\n") == firstLine
            && ReadHeaders(block, 0, |firstLine| + 2) ==
               HeaderBlock(hs, |firstLine| + 2 + |WireHeaders(hs)| + 2, tail)
  {
    hide ReadHeaders, ReadLine, StripEol, AllStored, WireHeaders;
    ReadTerminated(firstLine, WireHeaders(hs) + "\r\n" + tail);
    StripEolOfLine(firstLine);
    ReadWireHeaders(hs, tail, 0, |firstLine| + 2);
  }

  lemma ReadSizedBody(firstLine: string, hs: Headers, size: nat, body: string, rest: string)
    requires Get(hs, "content-length") == Some(Decimal(|body|)) && size + |body| <= MAX_MESSAGE_SIZE
    ensures ReadBody(firstLine, hs, size, body + rest) == Message(SipMessage(firstLine, hs, body), rest)
  {
    DecimalRoundTrip(|body|);
    var tail := body + rest;
    assert tail[..|body|] == body && tail[|body|..] == rest;
  }

  lemma RegroupMessage(first: string, headers: string, body: string, rest: string)
    ensures first + "\r\n" + headers + "\r\n" + body + rest == first + "\r\n" + (headers + "\r\n" + (body + rest))
  {
  }

  lemma ParseSteps(s: string, raw: string, block: string, hs: Headers, size: nat, tail: string)
    requires ReadLine(s) == Line(raw, block) && StripEol(raw) != ""
    requires ReadHeaders(block, 0, |raw|) == HeaderBlock(hs, size, tail) && Unique(hs)
    ensures Parse(s) == ReadBody(StripEol(raw), hs, size, tail)
  {
    DictOfUnique(hs);
  }

  lemma ParseWire(first: string, hs: Headers, body: string, rest: string)
    requires first != "" && '\n' !in first && first[|first| - 1] != '\r'
    requires AllStored(hs) && Unique(hs) && |hs| <= MAX_HEADER_COUNT
    requires Get(hs, "content-length") == Some(Decimal(|body|))
    requires |first| + 2 + |WireHeaders(hs)| + 2 + |body| <= MAX_MESSAGE_SIZE
    ensures Parse(first + "\r\n" + WireHeaders(hs) + "\r\n" + body + rest) ==
            Message(SipMessage(first, hs, body), rest)
  {
    hide ReadHeaders, ReadLine, StripEol, Parse, ReadBody;
    var headers, tail := WireHeaders(hs), body + rest;
    var block, size := headers + "\r\n" + tail, |first| + 2 + |headers| + 2;
    RegroupMessage(first, headers, body, rest);
    ReadHead(first, hs, tail);
    ParseSteps(first + "\r\n" + block, first + "\r\n", block, hs, size, tail);
    ReadSizedBody(first, hs, size, body, rest);
  }

  /** What is written is read back as the normalized message, and nothing after it is touched. */
  lemma ParseSerialize(m: SipMessage, rest: string)
    requires WellFormed(m) && Fits(m)
    ensures Parse(Serialize(m) + rest) == Message(Normalize(m), rest)
  {
    NormalizedHeaders(m);
    ParseWire(m.firstLine, Normalize(m).headers, m.body, rest);
  }

  lemma BodyOverLimit(firstLine: string, hs: Headers, size: nat, n: nat, s: string)
    requires Get(hs, "content-length") == Some(Decimal(n)) && size + n > MAX_MESSAGE_SIZE
    ensures ReadBody(firstLine, hs, size, s) == Fault
  {
    hide Decimal, ParseInt, DigitCount;
    DecimalParses(n);
  }

  lemma FaultyHead(s: string, raw: string, block: string)
    requires ReadLine(s) == Line(raw, block) && StripEol(raw) != ""
    requires ReadHeaders(block, 0, |raw|) == HeadersFault
    ensures Parse(s) == Fault
  {
  }

  lemma EndlessHead(s: string)
    requires ReadLine(s) == TooLong
    ensures Parse(s) == Fault
  {
  }

  lemma OverLimitWire(first: string, hs: Headers, body: string, rest: string)
    requires first != "" && '\n' !in first && first[|first| - 1] != '\r'
    requires AllStored(hs) && Unique(hs)
    requires Get(hs, "content-length") == Some(Decimal(|body|))
    requires |hs| > MAX_HEADER_COUNT || |first| + 2 + |WireHeaders(hs)| + 2 + |body| > MAX_MESSAGE_SIZE
    ensures Parse(first + "\r\n" + WireHeaders(hs) + "\r\n" + body + rest) == Fault
  {
    hide ReadHeaders, ReadLine, StripEol, Parse, ReadBody, AllStored, WireHeaders;
    var headers, tail := WireHeaders(hs), body + rest;
    var block, size := headers + "\r\n" + tail, |first| + 2 + |headers| + 2;
    var s := first + "\r\n" + block;
    RegroupMessage(first, headers, body, rest);
    if |first| >= READ_LIMIT {
      ReadEndless(first, block);
      EndlessHead(s);
    } else if |hs| > MAX_HEADER_COUNT || size > MAX_MESSAGE_SIZE {
      ReadTerminated(first, block);
      StripEolOfLine(first);
      OverLimitHeaders(hs, tail, 0, |first| + 2);
      FaultyHead(s, first + "\r\n", block);
    } else {
      ReadHead(first, hs, tail);
      ParseSteps(s, first + "\r\n", block, hs, size, tail);
      BodyOverLimit(first, hs, size, |body|, tail);
    }
  }

  function NormalizeAll(ms: seq<SipMessage>): seq<SipMessage> {
    if ms == [] then [] else [Normalize(ms[0])] + NormalizeAll(ms[1..])
  }

  lemma ParseAllFirst(s: string, m: SipMessage, rest: string)
    requires Parse(s) == Message(m, rest)
    ensures ParseAll(s) == ParseAll(rest).(messages := [m] + ParseAll(rest).messages)
  {
  }

  /** Any list of messages sent back to back is read as exactly those messages, normalized. */
  lemma {:induction false} PipelinedRoundTrip(ms: seq<SipMessage>)
    requires forall i :: 0 <= i < |ms| ==> WellFormed(ms[i]) && Fits(ms[i])
    ensures ParseAll(SerializeAll(ms)) == Conversation(NormalizeAll(ms), false)
  {
    if ms != [] {
      var more := SerializeAll(ms[1..]);
      ParseSerialize(ms[0], more);
      ParseAllFirst(Serialize(ms[0]) + more, Normalize(ms[0]), more);
      PipelinedRoundTrip(ms[1..]);
    }
  }

  // ---- What the parser yields can always be written back ------------------------------------------

  lemma LineHasNoFeed(s: string)
    ensures var l := ReadLine(s);
            l.Line? ==> '\n' !in StripEol(l.raw) && (StripEol(l.raw) != "" ==> StripEol(l.raw)[|StripEol(l.raw)| - 1] != '\r')
  {
    var l := ReadLine(s);
    if l.Line? {
      var n := EolStart(l.raw, |l.raw|);
      assert forall j :: 0 <= j < n ==> l.raw[j] == s[j];
    }
  }

  lemma HeaderOfStored(line: string)
    requires '\n' !in line
    ensures HeaderOf(line).Some? ==> Stored(HeaderOf(line).value)
  {
    hide NormalizeName, Strip;
    var colon := IndexOf(line, ':');
    if colon < |line| {
      NormalizeNameFixed(line[..colon]);
      StripTrims(line[colon + 1..]);
    }
  }

  lemma StepStored(s: string, count: nat, size: nat)
    ensures var r := StepHeaders(s, count, size);
            && (r.Next? ==> Stored(r.line))
            && (r.Stop? && r.block.HeaderBlock? ==> r.block.lines == [])
  {
    hide HeaderOf, StripEol, ReadLine, Stored;
    var l := ReadLine(s);
    if l.Line? {
      LineHasNoFeed(s);
      HeaderOfStored(StripEol(l.raw));
    }
  }

  lemma {:induction false} LinesStored(s: string, count: nat, size: nat)
    ensures var b := ReadHeaders(s, count, size); b.HeaderBlock? ==> AllStored(b.lines)
    decreases |s|
  {
    hide StepHeaders, Stored;
    StepStored(s, count, size);
    var step := StepHeaders(s, count, size);
    if step.Next? {
      LinesStored(step.rest, count + 1, step.size);
    }
  }

  lemma {:induction false} DictOfStored(lines: Headers)
    requires AllStored(lines)
    ensures AllStored(DictOf(lines)) && Unique(DictOf(lines))
  {
    hide Stored;
    if lines != [] {
      DictOfStored(lines[..|lines| - 1]);
      PutStored(DictOf(lines[..|lines| - 1]), lines[|lines| - 1]);
    }
  }

  /** Every message the parser yields is well formed, with normalized and distinct header names. */
  lemma ParsedWellFormed(s: string)
    requires Parse(s).Message?
    ensures var m := Parse(s).msg;
            WellFormed(m) && AllStored(m.headers) && Unique(m.headers)
  {
    hide ReadHeaders, ReadLine, StripEol, NormalizeName;
    var l := ReadLine(s);
    LineHasNoFeed(s);
    LinesStored(l.rest, 0, |l.raw|);
    var b := ReadHeaders(l.rest, 0, |l.raw|);
    DictOfStored(b.lines);
    assert Parse(s).msg.headers == DictOf(b.lines);
  }

  lemma {:induction false} NormalizedNames(hs: Headers)
    ensures var r := NormalizeHeaders(hs);
            Unique(r) && forall i :: 0 <= i < |r| ==> NormalizeName(r[i].key) == r[i].key
  {
    hide NormalizeName;
    if hs != [] {
      var h := hs[|hs| - 1];
      NormalizedNames(hs[..|hs| - 1]);
      NormalizeNameFixed(h.key);
      UniqueKept(NormalizeHeaders(hs[..|hs| - 1]), NormalizeName(h.key), h.value);
    }
  }

  lemma NormalizedMessage(m: SipMessage)
    ensures var hs := Normalize(m).headers;
            && Unique(hs) && Get(hs, "content-length") == Some(Decimal(|m.body|))
            && forall i :: 0 <= i < |hs| ==> NormalizeName(hs[i].key) == hs[i].key
  {
    hide NormalizeName, Decimal;
    var hs, name, v := NormalizeHeaders(m.headers), "content-length", Decimal(|m.body|);
    NormalizedNames(m.headers);
    UniqueKept(hs, name, v);
    GetPut(hs, name, v, name);
    PlainLengthName(name);
    PlainFixed(name);
  }

  /**
   For every message whatsoever: it is read back, and what follows is left alone, exactly when its
   normalized form is well formed and within the limits. Beyond a limit the reader raises.
   */
  lemma RoundTripExactly(m: SipMessage, rest: string)
    ensures Parse(Serialize(m) + rest) == Message(Normalize(m), rest) <==> WellFormed(Normalize(m)) && Fits(m)
    ensures WellFormed(Normalize(m)) && !Fits(m) ==> Parse(Serialize(m) + rest) == Fault
  {
    hide Parse, NormalizeName, Decimal, NormalizeHeaders, WireHeaders;
    if WellFormed(Normalize(m)) {
      NormalizedMessage(m);
      if Fits(m) {
        ParseWire(m.firstLine, Normalize(m).headers, m.body, rest);
      } else {
        OverLimitWire(m.firstLine, Normalize(m).headers, m.body, rest);
      }
    }
    if Parse(Serialize(m) + rest) == Message(Normalize(m), rest) {
      ParsedWellFormed(Serialize(m) + rest);
    }
  }

  lemma {:induction false} NormalizeStored(hs: Headers)
    requires AllStored(hs) && Unique(hs)
    ensures NormalizeHeaders(hs) == hs
  {
    hide NormalizeName;
    if hs != [] {
      var front, h := hs[..|hs| - 1], hs[|hs| - 1];
      NormalizeStored(front);
      assert Find(front, h.key) == |front|;
      assert front + [h] == hs;
    }
  }

  /** A message that was parsed is written and read again with only its Content-Length set. */
  lemma ParsedAgain(s: string, rest: string)
    requires Parse(s).Message? && Fits(Parse(s).msg)
    ensures var m := Parse(s).msg;
            Parse(Serialize(m) + rest) ==
            Message(m.(headers := Put(m.headers, "content-length", Decimal(|m.body|))), rest)
  {
    hide Parse, NormalizeName, Decimal;
    ParsedWellFormed(s);
    NormalizeStored(Parse(s).msg.headers);
    ParseSerialize(Parse(s).msg, rest);
  }
}
