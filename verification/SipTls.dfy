/** The reading and writing loops of sip_bridge/sip_tls.py against the functions of SipSpec. */
module SipTls {
  import opened Options
  import opened Dicts
  import opened SipText
  import opened SipSpec

  /** What a connection still delivers. */
  class StreamReader {
    var data: string

    constructor (s: string)
      ensures data == s
    {
      data := s;
    }

    method Readline() returns (line: Line)
      modifies this
      ensures line == ReadLine(old(data))
      ensures line.Line? ==> data == line.rest
    {
      line := ReadLine(data);
      if line.Line? {
        data := line.rest;
      }
    }

    /** `readexactly`; None stands for IncompleteReadError. */
    method ReadExactly(n: nat) returns (r: Option<string>)
      modifies this
      ensures |old(data)| < n ==> r == None
      ensures |old(data)| >= n ==> r == Some(old(data)[..n]) && data == old(data)[n..]
    {
      if |data| < n {
        r := None;
      } else {
        r := Some(data[..n]);
        data := data[n..];
      }
    }
  }

  method ParseMessage(reader: StreamReader) returns (r: Parsed)
    modifies reader
    ensures r == Parse(old(reader.data))
    ensures r.Message? ==> reader.data == r.rest
  {
    hide ReadLine, StripEol, ReadHeaders, DictOf, ContentLength;
    var first := reader.Readline();
    if !first.Line? {
      return if first.TooLong? then Fault else Closed;
    }
    var firstLine := StripEol(first.raw);
    if firstLine == "" {
      return Closed;
    }
    var block, headers := ReadHeaderLines(reader, |first.raw|);
    match block {
      case HeadersClosed => return Closed;
      case HeadersFault => return Fault;
      case HeaderBlock(_, total, _) =>
        var length := ContentLength(headers);
        if length.None? || length.value < 0 || total + length.value > MAX_MESSAGE_SIZE {
          return Fault;
        }
        var body := "";
        if length.value > 0 {
          var raw := reader.ReadExactly(length.value);
          if raw.None? {
            return Closed;
          }
          body := raw.value;
        }
        return Message(SipMessage(firstLine, headers, body), reader.data);
    }
  }

  /** The header loop of `parse_message`: fills the dictionary line by line. */
  method ReadHeaderLines(reader: StreamReader, size: nat) returns (r: HeaderBlock, headers: Headers)
    modifies reader
    ensures r == ReadHeaders(old(reader.data), 0, size)
    ensures r.HeaderBlock? ==> reader.data == r.rest && headers == DictOf(r.lines)
  {
    hide StepHeaders;
    headers := [];
    var lines: Headers := [];
    var count: nat, total: nat := 0, size;
    while true
      invariant headers == DictOf(lines)
      invariant AfterLines(lines, ReadHeaders(reader.data, count, total)) == ReadHeaders(old(reader.data), 0, size)
      decreases |reader.data|
    {
      var step := ReadHeaderLine(reader, count, total);
      if step.Stop? {
        assert lines + [] == lines;
        return AfterLines(lines, step.block), headers;
      }
      AfterLinesNext(lines, step.line, ReadHeaders(step.rest, count + 1, step.size));
      headers := Put(headers, step.line.key, step.line.value);
      assert (lines + [step.line])[..|lines|] == lines;
      lines, total := lines + [step.line], step.size;
      count := count + 1;
    }
  }

  function AfterLines(lines: Headers, b: HeaderBlock): HeaderBlock {
    if b.HeaderBlock? then b.(lines := lines + b.lines) else b
  }

  lemma AfterLinesNext(lines: Headers, h: Entry<string, string>, b: HeaderBlock)
    ensures AfterLines(lines, AfterLine(h, b)) == AfterLines(lines + [h], b)
  {
    if b.HeaderBlock? {
      assert lines + ([h] + b.lines) == (lines + [h]) + b.lines;
    }
  }

  method ReadHeaderLine(reader: StreamReader, count: nat, size: nat) returns (r: HeaderStep)
    modifies reader
    ensures r == StepHeaders(old(reader.data), count, size)
    ensures r.Next? ==> reader.data == r.rest
    ensures r.Stop? && r.block.HeaderBlock? ==> reader.data == r.block.rest && r.block.lines == []
  {
    var read := reader.Readline();
    if !read.Line? {
      return Stop(if read.TooLong? then HeadersFault else HeadersClosed);
    }
    var total := size + |read.raw|;
    if total > MAX_MESSAGE_SIZE {
      return Stop(HeadersFault);
    }
    var line := StripEol(read.raw);
    if line == "" {
      return Stop(HeaderBlock([], total, reader.data));
    }
    var header := HeaderOf(line);
    if header.None? || count + 1 > MAX_HEADER_COUNT {
      return Stop(HeadersFault);
    }
    return Next(header.value, total, reader.data);
  }

  method SerializeMessage(msg: SipMessage) returns (wire: string)
    ensures wire == Serialize(msg)
  {
    var headers := NormalizedHeaders(msg);
    var lines := [msg.firstLine];
    for i := 0 to |headers|
      invariant lines == HeadLines(msg.firstLine, headers[..i])
    {
      lines := lines + [WireHeader(headers[i])];
      assert headers[..i + 1][..i] == headers[..i];
    }
    assert headers[..|headers|] == headers;
    JoinHead(msg.firstLine, headers);
    wire := Join(lines, "\r\n") + "\r\n\r\n" + msg.body;
    EndOfHead(Join(lines, "\r\n"), msg.body);
  }

  lemma EndOfHead(head: string, body: string)
    ensures head + "\r\n\r\n" + body == (head + "\r\n") + "\r\n" + body
  {
    assert "\r\n\r\n" == "\r\n" + "\r\n";
    assert head + "\r\n\r\n" == (head + "\r\n") + "\r\n";
  }

  /** The dict comprehension of `serialize_message`, and the length it sets. */
  method NormalizedHeaders(msg: SipMessage) returns (headers: Headers)
    ensures headers == Normalize(msg).headers
  {
    headers := [];
    for i := 0 to |msg.headers|
      invariant headers == NormalizeHeaders(msg.headers[..i])
    {
      headers := Put(headers, NormalizeName(msg.headers[i].key), msg.headers[i].value);
      assert msg.headers[..i + 1][..i] == msg.headers[..i];
    }
    assert msg.headers[..|msg.headers|] == msg.headers;
    headers := Put(headers, "content-length", Decimal(|msg.body|));
  }

  /** The first line and the header lines, in order. */
  function HeadLines(firstLine: string, hs: Headers): (lines: seq<string>)
    ensures lines != []
  {
    if hs == [] then [firstLine] else HeadLines(firstLine, hs[..|hs| - 1]) + [WireHeader(hs[|hs| - 1])]
  }

  lemma {:induction false} WireHeadersAppend(hs: Headers, h: Entry<string, string>)
    ensures WireHeaders(hs + [h]) == WireHeaders(hs) + WireHeader(h) + "\r\n"
  {
    hide WireHeader;
    var all := hs + [h];
    if hs == [] {
      assert all[1..] == [];
      assert WireHeaders(all) == WireHeader(h) + "\r\n" + "";
    } else {
      var more := hs[1..];
      WireHeadersAppend(more, h);
      assert all[1..] == more + [h];
      assert WireHeaders(all) == WireHeader(hs[0]) + "\r\n" + WireHeaders(more + [h]);
      assert WireHeaders(hs) == WireHeader(hs[0]) + "\r\n" + WireHeaders(more);
    }
  }

  /** Joined lines are terminated lines without the last line end. */
  lemma {:induction false} JoinHead(firstLine: string, hs: Headers)
    ensures Join(HeadLines(firstLine, hs), "\r\n") + "\r\n" == firstLine + "\r\n" + WireHeaders(hs)
  {
    if hs == [] {
      assert firstLine + "\r\n" + "" == firstLine + "\r\n";
    } else {
      hide Join, WireHeaders, WireHeader;
      var front, h := hs[..|hs| - 1], hs[|hs| - 1];
      JoinHead(firstLine, front);
      WireHeadersAppend(front, h);
      assert hs == front + [h];
      var joined, line, eol := Join(HeadLines(firstLine, front), "\r\n"), WireHeader(h), "\r\n";
      JoinSnoc(HeadLines(firstLine, front), line, eol);
      assert joined + eol + line + eol == firstLine + eol + WireHeaders(front) + line + eol;
      assert firstLine + eol + (WireHeaders(front) + line + eol) == firstLine + eol + WireHeaders(front) + line + eol;
    }
  }

  /** `handle_sip_connection`: messages are dispatched until the parser stops. */
  method HandleConnection(reader: StreamReader) returns (c: Conversation)
    modifies reader
    ensures c == ParseAll(old(reader.data))
  {
    var messages := [];
    while true
      invariant Prepend(messages, ParseAll(reader.data)) == ParseAll(old(reader.data))
      decreases |reader.data|
    {
      var r := ParseMessage(reader);
      match r {
        case Closed =>
          assert messages + [] == messages;
          return Conversation(messages, false);
        case Fault =>
          assert messages + [] == messages;
          return Conversation(messages, true);
        case Message(msg, rest) =>
          PrependOne(messages, msg, ParseAll(rest));
          messages := messages + [msg];
      }
    }
  }

  function Prepend(messages: seq<SipMessage>, c: Conversation): Conversation {
    c.(messages := messages + c.messages)
  }

  lemma PrependOne(messages: seq<SipMessage>, msg: SipMessage, c: Conversation)
    ensures Prepend(messages, Prepend([msg], c)) == Prepend(messages + [msg], c)
  {
    assert messages + ([msg] + c.messages) == (messages + [msg]) + c.messages;
  }
}
