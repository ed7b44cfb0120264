/**
 SIP messages on a byte stream (sip_bridge/sip_tls.py): header names per section 7.3.1 of RFC 3261,
 Content-Length framing per section 18.3. Text is ASCII, one character a byte.
 */
module SipSpec {
  import opened Options
  import opened Dicts
  import opened SipText

  const MAX_MESSAGE_SIZE := 65536
  const MAX_HEADER_COUNT := 100
  const READ_LIMIT := 65536  // of asyncio's StreamReader

  /** The long form of a one-letter name, or the letter itself. */
  function LongForm(c: char): string {
    match c
    case 'i' => "call-id"
    case 'f' => "from"
    case 't' => "to"
    case 'v' => "via"
    case 'm' => "contact"
    case 'l' => "content-length"
    case 'c' => "content-type"
    case 'e' => "content-encoding"
    case 'k' => "supported"
    case 's' => "subject"
    case _ => [c]
  }

  /** `_COMPACT_FORMS.get(name, name)`: every compact form is a single letter. */
  function Expand(name: string): string {
    if |name| == 1 then LongForm(name[0]) else name
  }

  function NormalizeName(name: string): string {
    Expand(Strip(Lower(name)))
  }

  type Headers = Dict<string, string>
  datatype SipMessage = SipMessage(firstLine: string, headers: Headers, body: string)

  // ---- Reading --------------------------------------------------------------------------------

  datatype Line = Eof | TooLong | Line(raw: string, rest: string)

  /** `readline` on everything the peer still sends before it closes. */
  function ReadLine(s: string): (line: Line)
    ensures line.Line? ==> |line.raw| + |line.rest| == |s| && |line.rest| < |s|
  {
    var i := IndexOf(s, '\n');
    if s == "" then Eof
    else if i > READ_LIMIT then TooLong
    else if i < |s| then Line(s[..i + 1], s[i + 1..])
    else Line(s, "")
  }

  /** A parse ends the connection quietly, raises, or yields a message and what follows it. */
  datatype Parsed = Closed | Fault | Message(msg: SipMessage, rest: string)

  /** "Name: value", or None without a colon. */
  function HeaderOf(line: string): Option<Entry<string, string>> {
    var colon := IndexOf(line, ':');
    if colon == |line| then None
    else Some(Entry(NormalizeName(line[..colon]), Strip(line[colon + 1..])))
  }

  /** The header lines in the order they came, the bytes read so far, and what follows. */
  datatype HeaderBlock = HeadersClosed | HeadersFault | HeaderBlock(lines: Headers, size: nat, rest: string)
  datatype HeaderStep = Stop(block: HeaderBlock) | Next(line: Entry<string, string>, size: nat, rest: string)

  /** One turn of the header loop, after `count` headers and `size` bytes. */
  function StepHeaders(s: string, count: nat, size: nat): (r: HeaderStep)
    ensures r.Next? ==> |r.rest| < |s|
    ensures r.Stop? && r.block.HeaderBlock? ==> |r.block.rest| <= |s|
  {
    match ReadLine(s)
    case Eof => Stop(HeadersClosed)
    case TooLong => Stop(HeadersFault)
    case Line(raw, rest) =>
      var total, line := size + |raw|, StripEol(raw);
      if total > MAX_MESSAGE_SIZE then Stop(HeadersFault)
      else if line == "" then Stop(HeaderBlock([], total, rest))
      else match HeaderOf(line)
        case None => Stop(HeadersFault)
        case Some(h) => if count + 1 > MAX_HEADER_COUNT then Stop(HeadersFault) else Next(h, total, rest)
  }

  function AfterLine(h: Entry<string, string>, b: HeaderBlock): HeaderBlock {
    if b.HeaderBlock? then b.(lines := [h] + b.lines) else b
  }

  function ReadHeaders(s: string, count: nat, size: nat): (b: HeaderBlock)
    ensures b.HeaderBlock? ==> |b.rest| <= |s|
    decreases |s|
  {
    match StepHeaders(s, count, size)
    case Stop(block) => block
    case Next(h, total, rest) => AfterLine(h, ReadHeaders(rest, count + 1, total))
  }

  /** The dictionary that header lines build: a repeated name keeps its place and takes the last value. */
  function DictOf(lines: Headers): Headers {
    if lines == [] then []
    else
      var h := lines[|lines| - 1];
      Put(DictOf(lines[..|lines| - 1]), h.key, h.value)
  }

  function ContentLength(headers: Headers): Option<int> {
    match Get(headers, "content-length")
    case None => Some(0)
    case Some(v) => ParseInt(v)
  }

  function ReadBody(firstLine: string, headers: Headers, size: nat, s: string): (p: Parsed)
    ensures p.Message? ==> |p.rest| <= |s|
  {
    match ContentLength(headers)
    case None => Fault
    case Some(n) =>
      if n < 0 then Fault
      else if size + n > MAX_MESSAGE_SIZE then Fault
      else if |s| < n then Closed
      else Message(SipMessage(firstLine, headers, s[..n]), s[n..])
  }

  function Parse(s: string): (p: Parsed)
    ensures p.Message? ==> |p.rest| < |s|
  {
    match ReadLine(s)
    case Eof => Closed
    case TooLong => Fault
    case Line(raw, rest) =>
      var firstLine := StripEol(raw);
      if firstLine == "" then Closed
      else match ReadHeaders(rest, 0, |raw|)
        case HeadersClosed => Closed
        case HeadersFault => Fault
        case HeaderBlock(lines, size, tail) => ReadBody(firstLine, DictOf(lines), size, tail)
  }

  /** The messages of one connection: parsed until the parser stops. */
  datatype Conversation = Conversation(messages: seq<SipMessage>, fault: bool)

  function ParseAll(s: string): Conversation
    decreases |s|
  {
    match Parse(s)
    case Closed => Conversation([], false)
    case Fault => Conversation([], true)
    case Message(msg, rest) =>
      var more := ParseAll(rest);
      more.(messages := [msg] + more.messages)
  }

  // ---- Writing --------------------------------------------------------------------------------

  /** `part.capitalize()` of every part between hyphens. */
  function Title(name: string): (r: string)
    ensures |r| == |name|
  {
    seq(|name|, i requires 0 <= i < |name| =>
      if i == 0 || name[i - 1] == '-' then UpperChar(name[i]) else LowerChar(name[i]))
  }

  /** The dict comprehension: later spellings of a name overwrite earlier ones in place. */
  function NormalizeHeaders(hs: Headers): Headers {
    if hs == [] then []
    else
      var h := hs[|hs| - 1];
      Put(NormalizeHeaders(hs[..|hs| - 1]), NormalizeName(h.key), h.value)
  }

  /** The message a peer should read: names normalized, Content-Length that of the body. */
  function Normalize(m: SipMessage): SipMessage {
    m.(headers := Put(NormalizeHeaders(m.headers), "content-length", Decimal(|m.body|)))
  }

  function WireHeader(h: Entry<string, string>): string {
    Title(h.key) + ": " + h.value
  }

  function WireHeaders(hs: Headers): string {
    if hs == [] then "" else WireHeader(hs[0]) + "\r\n" + WireHeaders(hs[1..])
  }

  function Serialize(m: SipMessage): string {
    var n := Normalize(m);
    n.firstLine + "\r\n" + WireHeaders(n.headers) + "\r\n" + n.body
  }

  function SerializeAll(ms: seq<SipMessage>): string {
    if ms == [] then "" else Serialize(ms[0]) + SerializeAll(ms[1..])
  }
}
