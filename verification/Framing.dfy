/**
 Cutting the byte stream of the control connection into messages: headers up to the first blank line,
 then as many bytes as the Content-Length header says.
 */
module Framing {
  import opened Wrappers
  import opened Text
  import opened RtspMessages

  const BLANK := "\r\n\r\n"
  const CONTENT_LENGTH := "content-length:"

  /** The first header line that names a length decides, also when its value does not parse. */
  function ContentLength(lines: seq<string>): nat {
    if lines == [] then 0
    else if CONTENT_LENGTH <= Lower(lines[0]) then
      var parts := SplitOn(lines[0], ':');
      if |parts| > 1 then
        match ParseUnsigned(Trim(parts[1]), 10, MAX_U64)
        case Some(n) => n
        case None => 0
      else 0
    else ContentLength(lines[1..])
  }

  /** The end of the header part: behind the first blank line, or the end of the input without one. */
  function HeaderEnd(s: string): (end: nat)
    ensures end <= |s|
  {
    match Find(s, BLANK)
    case Some(i) => i + 4
    case None => |s|
  }

  /** The first message of an input and what remains behind it. */
  function Frame(s: string): Result<(string, string), RtspError> {
    if s == "" then Failure(ProtocolViolation)
    else
      var end := HeaderEnd(s) + ContentLength(Lines(s[..HeaderEnd(s)]));
      if |s| < end then Failure(Io) else Success((s[..end], s[end..]))
  }

  /**
   One end of a TCP connection: the bytes that will still arrive before the peer closes, and the bytes
   written so far. What arrives is arbitrary, so it may well depend on what is written.
   */
  class TcpStream {
    var pending: string
    var written: string

    constructor (pending: string)
      ensures this.pending == pending && written == ""
    {
      this.pending, written := pending, "";
    }

    /** One byte, or None when the peer has closed. */
    method ReadByte() returns (byte: Option<char>)
      modifies this`pending
      ensures old(pending) == "" ==> byte == None && pending == ""
      ensures old(pending) != "" ==> byte == Some(old(pending)[0]) && pending == old(pending)[1..]
    {
      if pending == "" {
        return None;
      }
      byte := Some(pending[0]);
      pending := pending[1..];
    }

    /** Exactly `n` bytes, or an error at the end of the input. */
    method ReadExact(n: nat) returns (body: Option<string>)
      modifies this`pending
      ensures n <= |old(pending)| ==> body == Some(old(pending)[..n]) && pending == old(pending)[n..]
      ensures |old(pending)| < n ==> body == None && pending == ""
    {
      if |pending| < n {
        pending := "";
        return None;
      }
      body := Some(pending[..n]);
      pending := pending[n..];
    }

    method Write(text: string)
      modifies this`written
      ensures written == old(written) + text
    {
      written := written + text;
    }
  }

  /** No blank line ends within the first `k` bytes. */
  ghost predicate NoBlank(input: string, k: nat) {
    forall j: nat :: j + 4 <= k ==> !At(input, BLANK, j)
  }

  lemma OneMoreByte(input: string, header: string, rest: string)
    requires input == header + rest && header != "" && NoBlank(input, |header| - 1)
    ensures |header| >= 4 && header[|header| - 4..] == BLANK ==> HeaderEnd(input) == |header|
    ensures !(|header| >= 4 && header[|header| - 4..] == BLANK) ==> NoBlank(input, |header|)
  {
    hide FindFrom;
    if |header| >= 4 {
      assert input[|header| - 4..|header|] == header[|header| - 4..];
      if header[|header| - 4..] == BLANK {
        FindIs(input, BLANK, |header| - 4);
      }
    }
  }

  lemma EndOfInput(input: string)
    requires NoBlank(input, |input|)
    ensures HeaderEnd(input) == |input|
  {
    hide FindFrom;
    FindNone(input, BLANK);
  }

  /** Byte by byte up to a blank line or the end of the input. */
  method ReadHeader(stream: TcpStream) returns (header: string)
    modifies stream`pending
    ensures old(stream.pending) == header + stream.pending
    ensures |header| == HeaderEnd(old(stream.pending))
  {
    ghost var input := stream.pending;
    header := "";
    while true
      invariant input == header + stream.pending && NoBlank(input, |header|)
      decreases |stream.pending|
    {
      var byte := stream.ReadByte();
      if byte.None? {
        assert header == input;
        EndOfInput(input);
        return;
      }
      header := header + [byte.value];
      assert input == header + stream.pending;
      OneMoreByte(input, header, stream.pending);
      if |header| >= 4 && header[|header| - 4..] == BLANK {
        return;
      }
    }
  }

  method ReadMessage(stream: TcpStream) returns (r: Result<string, RtspError>)
    modifies stream`pending
    ensures match Frame(old(stream.pending))
            case Success((message, rest)) => r == Success(message) && stream.pending == rest
            case Failure(error) => r == Failure(error) && stream.pending == ""
  {
    hide HeaderEnd, ContentLength, Lines, Frame;
    ghost var input := stream.pending;
    var header := ReadHeader(stream);
    if header == "" {
      EmptyHeader(input);
      return Failure(ProtocolViolation);
    }
    var length := ContentLength(Lines(header));
    FrameIs(input, header, stream.pending, length);
    r := Success(header);
    if length > 0 {
      var body := stream.ReadExact(length);
      if body.None? {
        return Failure(Io);
      }
      r := Success(header + body.value);
    } else {
      assert header + stream.pending[..0] == header;
    }
  }

  lemma EmptyHeader(input: string)
    requires HeaderEnd(input) == 0
    ensures Frame(input) == Failure(ProtocolViolation) && input == ""
  {
  }

  lemma FrameIs(input: string, header: string, rest: string, length: nat)
    requires input == header + rest && header != "" && |header| == HeaderEnd(input) && length == ContentLength(Lines(header))
    ensures Frame(input) == if |rest| < length then Failure(Io) else Success((header + rest[..length], rest[length..]))
  {
    hide HeaderEnd, ContentLength, Lines;
    assert input[..|header|] == header;
    if length <= |rest| {
      assert input[..|header| + length] == header + rest[..length] && input[|header| + length..] == rest[length..];
    }
  }

  // ---------- Well-formed messages ----------

  /** Headers up to a blank line, and exactly the announced number of bytes behind it. */
  predicate WellFormed(m: string) {
    Find(m, BLANK).Some? && |m| == HeaderEnd(m) + ContentLength(Lines(m[..HeaderEnd(m)]))
  }

  function Concat(messages: seq<string>): string {
    if messages == [] then "" else messages[0] + Concat(messages[1..])
  }

  lemma HeaderEndStays(m: string, rest: string)
    requires Find(m, BLANK).Some?
    ensures HeaderEnd(m + rest) == HeaderEnd(m)
  {
    var i := Find(m, BLANK).value;
    forall j: nat | j < i ensures !At(m + rest, BLANK, j) {
      AtPrefix(m, rest, BLANK, j);
    }
    AtPrefix(m, rest, BLANK, i);
    FindIs(m + rest, BLANK, i);
  }

  /** Reading stops exactly behind a well-formed message and consumes nothing of what follows it. */
  lemma FrameStops(m: string, rest: string)
    requires WellFormed(m)
    ensures Frame(m + rest) == Success((m, rest))
  {
    HeaderEndStays(m, rest);
    var s := m + rest;
    assert s[..HeaderEnd(m)] == m[..HeaderEnd(m)];
    assert s[..|m|] == m && s[|m|..] == rest;
  }

  function Frames(s: string): Result<seq<string>, RtspError>
    decreases |s|
  {
    if s == "" then Success([])
    else
      match Frame(s)
      case Failure(error) => Failure(error)
      case Success((message, rest)) =>
        if |rest| >= |s| then Failure(Parse)
        else
          match Frames(rest)
          case Failure(error) => Failure(error)
          case Success(messages) => Success([message] + messages)
  }

  /** Every message that is read takes at least one byte, so reading makes progress. */
  lemma FrameProgress(s: string)
    requires Frame(s).Success?
    ensures |Frame(s).value.0| > 0 && Frame(s).value.0 + Frame(s).value.1 == s
  {
  }

  /** Main result: a concatenation of well-formed messages is cut into exactly those messages, in order. */
  lemma {:induction false} FramesOfConcat(messages: seq<string>)
    requires forall m :: m in messages ==> WellFormed(m)
    ensures Frames(Concat(messages)) == Success(messages)
  {
    if messages != [] {
      var m, rest := messages[0], Concat(messages[1..]);
      FrameStops(m, rest);
      FramesOfConcat(messages[1..]);
      assert messages == [m] + messages[1..];
    }
  }

  /** The cut is unique: two concatenations of well-formed messages are equal only message by message. */
  lemma UniqueFraming(a: seq<string>, b: seq<string>)
    requires forall m :: m in a ==> WellFormed(m)
    requires forall m :: m in b ==> WellFormed(m)
    requires Concat(a) == Concat(b)
    ensures a == b
  {
    FramesOfConcat(a);
    FramesOfConcat(b);
  }

  /** Repeated reading of a stream that starts with well-formed messages. */
  method ReadMessages(stream: TcpStream, ghost expected: seq<string>, ghost rest: string, n: nat)
      returns (messages: seq<string>)
    requires n == |expected| && (forall m :: m in expected ==> WellFormed(m))
    requires stream.pending == Concat(expected) + rest
    modifies stream`pending
    ensures messages == expected && stream.pending == rest
  {
    messages := [];
    for i := 0 to n
      invariant messages == expected[..i]
      invariant stream.pending == Concat(expected[i..]) + rest
    {
      ghost var left := expected[i..];
      assert left[0] == expected[i] && left[1..] == expected[i + 1..];
      assert stream.pending == expected[i] + (Concat(left[1..]) + rest);
      FrameStops(expected[i], Concat(left[1..]) + rest);
      var r := ReadMessage(stream);
      messages := messages + [r.value];
    }
    assert Concat(expected[n..]) + rest == rest;
  }

  // ---------- What we print is well-formed ----------

  /** Header lines: non-empty and without line feeds. */
  predicate HeaderLines(lines: seq<string>) {
    forall line :: line in lines ==> line != "" && '\n' !in line
  }

  /** A blank line of a text that starts with a non-empty line is not within that line. */
  lemma BlankBehindLine(line: string, t: string, i: nat)
    requires '\n' !in line && |t| >= 2 && !(t[0] == '\r' && t[1] == '\n')
    requires At(line + "\r\n" + t, BLANK, i)
    ensures |line| + 2 <= i
  {
    var s := line + "\r\n" + t;
    AtChars(s, BLANK, i, 1);
    AtChars(s, BLANK, i, 2);
    AtChars(s, BLANK, i, 3);
    AtChars(s, BLANK, i, 0);
    assert forall j :: 0 <= j < |line| ==> s[j] == line[j] && line[j] in line;
    assert s[|line|] == '\r' && s[|line| + 1] == '\n' && s[|line| + 2] == t[0] && s[|line| + 3] == t[1];
  }

  lemma FirstBlankOne(line: string, rest: string)
    requires '\n' !in line
    ensures Find(line + "\r\n" + ("\r\n" + rest), BLANK) == Some(|line|)
  {
    hide FindFrom;
    var s := line + "\r\n" + ("\r\n" + rest);
    assert s[|line|..|line| + 4] == BLANK;
    assert forall j :: 0 <= j < |line| ==> s[j] == line[j] && line[j] in line;
    assert s[|line|] == '\r';
    forall i: nat | i < |line| ensures !At(s, BLANK, i) {
      if At(s, BLANK, i) {
        AtChars(s, BLANK, i, 1);
        assert false;
      }
    }
    FindIs(s, BLANK, |line|);
  }

  lemma FirstBlankBehind(line: string, t: string, k: nat)
    requires '\n' !in line && |t| >= 2 && !(t[0] == '\r' && t[1] == '\n') && Find(t, BLANK) == Some(k)
    ensures Find(line + "\r\n" + t, BLANK) == Some(k + |line| + 2)
  {
    hide FindFrom;
    var s := line + "\r\n" + t;
    assert s == (line + "\r\n") + t;
    AtSuffix(line + "\r\n", t, BLANK, k + |line| + 2);
    forall i: nat | i < k + |line| + 2 ensures !At(s, BLANK, i) {
      if At(s, BLANK, i) {
        BlankBehindLine(line, t, i);
        AtSuffix(line + "\r\n", t, BLANK, i);
      }
    }
    FindIs(s, BLANK, k + |line| + 2);
  }

  lemma {:induction false} FirstBlank(lines: seq<string>, rest: string)
    requires lines != [] && HeaderLines(lines)
    ensures |CrLf(lines)| >= 2 && Find(CrLf(lines) + ("\r\n" + rest), BLANK) == Some(|CrLf(lines)| - 2)
  {
    var line := lines[0];
    assert line in lines && forall l :: l in lines[1..] ==> l in lines;
    hide FindFrom;
    if |lines| == 1 {
      assert CrLf(lines) == line + "\r\n" by {
        assert CrLf(lines[1..]) == "";
      }
      FirstBlankOne(line, rest);
    } else {
      var t := CrLf(lines[1..]) + ("\r\n" + rest);
      FirstBlank(lines[1..], rest);
      StartsNonBlank(lines[1..], "\r\n" + rest);
      FirstBlankBehind(line, t, |CrLf(lines[1..])| - 2);
      Associate(line + "\r\n", CrLf(lines[1..]), "\r\n" + rest);
    }
  }

  lemma Associate(a: string, b: string, c: string)
    ensures (a + b) + c == a + (b + c)
  {
  }

  lemma StartsNonBlank(lines: seq<string>, rest: string)
    requires lines != [] && HeaderLines(lines)
    ensures var t := CrLf(lines) + rest; |t| >= 2 && !(t[0] == '\r' && t[1] == '\n')
  {
    var line := lines[0];
    assert line in lines;
    assert CrLf(lines) + rest == line + ("\r\n" + (CrLf(lines[1..]) + rest));
  }

  /** A printed request is one message when its headers announce its body's length. */
  lemma RequestIsMessage(head: seq<string>, body: string)
    requires head != [] && HeaderLines(head) && ContentLength(head + [""]) == |body|
    ensures WellFormed(RequestText(head, body))
  {
    var text := RequestText(head, body);
    HeaderTail(head, body);
    FirstBlank(head, body);
    CrLfLines(head + [""], "");
    var end := |CrLf(head)| + 2;
    assert |text| == end + |body| && text[..end] == CrLf(head) + "\r\n";
    hide CrLf, FindFrom, Lines;
    assert HeaderEnd(text) == end;
    assert CrLf(head + [""]) + "" == CrLf(head + [""]) == text[..end];
    assert (head + [""]) + Lines("") == head + [""];
  }

  lemma HeaderTail(head: seq<string>, body: string)
    requires HeaderLines(head)
    ensures CrLf(head + [""]) == CrLf(head) + "\r\n" && RequestText(head, body) == CrLf(head) + ("\r\n" + body)
    ensures Lines("") == []
  {
    hide Join, IndexOf, RequestText;
    assert CrLf([""]) == "\r\n" by {
      assert [""][1..] == [];
    }
    assert Lines("") == [];
    hide Lines;
    RequestLines(head, body);
    CrLfAppend(head, [""]);
    Associate(CrLf(head), "\r\n", body);
  }

  lemma NotLength(line: string, k: nat)
    requires k < |CONTENT_LENGTH| && k < |line| && LowerChar(line[k]) != CONTENT_LENGTH[k]
    ensures !(CONTENT_LENGTH <= Lower(line))
  {
    assert Lower(line)[k] == LowerChar(line[k]);
  }

  lemma LengthLineParses(length: nat)
    requires length <= MAX_U64
    ensures ContentLength([LengthLine(length)] + [""]) == length
  {
    var digits := Digits(length, 10);
    var line := LengthLine(length);
    assert line == "Content-Length" + [':'] + (" " + digits);
    assert ':' !in "Content-Length" && ':' !in " " + digits;
    SplitOnCons("Content-Length", ':', " " + digits);
    assert SplitOn(" " + digits, ':') == [" " + digits];
    TrimLeadingSpace(digits);
    DigitsAreToken(length, 10, 0);
    TokenTrimmed(digits);
    ParsePrinted(length, 10, 0, MAX_U64);
    LengthLineStarts(digits);
    hide Lower, SplitOn, Trim, ParseUnsigned, Digits;
    assert ([line] + [""])[0] == line;
  }

  lemma LengthLineStarts(digits: string)
    ensures CONTENT_LENGTH <= Lower("Content-Length: " + digits)
  {
    LowerAppend("Content-Length:", " " + digits);
    assert "Content-Length: " + digits == "Content-Length:" + (" " + digits);
    assert Lower("Content-Length:") == CONTENT_LENGTH;
  }

  lemma SkipLine(line: string, rest: seq<string>)
    requires !(CONTENT_LENGTH <= Lower(line))
    ensures ContentLength([line] + rest) == ContentLength(rest)
  {
    assert ([line] + rest)[1..] == rest;
  }

  lemma AnnouncedLength(start: string, cseq: nat, session: Option<string>, length: nat)
    requires start != "" && LowerChar(start[0]) != 'c' && length <= MAX_U64
    ensures ContentLength([start] + ParameterHeaders(cseq, session, length) + [""]) == length
  {
    var last := [LengthLine(length)] + [""];
    var types := [CONTENT_TYPE] + last;
    var sessions := SessionLines(session) + types;
    NotLength(start, 0);
    NotLength(CSeqLine(cseq), 1);
    NotLength(CONTENT_TYPE, 8);
    LengthLineParses(length);
    SkipLine(CONTENT_TYPE, last);
    if session.Some? {
      NotLength("Session: " + session.value, 0);
      SkipLine("Session: " + session.value, types);
    } else {
      assert [] + types == types;
    }
    SkipLine(CSeqLine(cseq), sessions);
    SkipLine(start, [CSeqLine(cseq)] + sessions);
    assert [start] + ParameterHeaders(cseq, session, length) + [""] == [start] + ([CSeqLine(cseq)] + sessions);
  }

  /** A printed parameter request is exactly one message for the peer's reader, whatever follows it. */
  lemma ParameterRequestIsMessage(name: string, addr: string, cseq: nat, session: Option<string>, body: string)
    requires IsToken(name) && LowerChar(name[0]) != 'c' && IsAddress(addr) && IsSession(session) && |body| <= MAX_U64
    ensures WellFormed(RequestText(ParameterHead(name, addr, cseq, session, body), body))
  {
    var start := StartLine(name, ControlUri(addr));
    assert start != "" && start[0] == name[0];
    var head := ParameterHead(name, addr, cseq, session, body);
    ParameterHeadBreaks(name, addr, cseq, session, body);
    HeadNonEmpty(start, cseq, session, |body|);
    AnnouncedLength(start, cseq, session, |body|);
    hide *;
    RequestIsMessageFrom(start, ParameterHeaders(cseq, session, |body|), head, body);
  }

  lemma HeadNonEmpty(start: string, cseq: nat, session: Option<string>, length: nat)
    requires start != ""
    ensures forall line :: line in [start] + ParameterHeaders(cseq, session, length) ==> line != ""
  {
  }

  lemma RequestIsMessageFrom(start: string, headers: seq<string>, head: seq<string>, body: string)
    requires head == [start] + headers && NoBreaks(head) && (forall line :: line in head ==> line != "")
    requires ContentLength([start] + headers + [""]) == |body|
    ensures WellFormed(RequestText(head, body))
  {
    hide ContentLength, RequestText, WellFormed;
    RequestIsMessage(head, body);
  }

  /**
   Main result: what SET_PARAMETER writes arrives as one message, and that parses to the same map and CSeq exactly when
   the session identifier does not contain `wfd_`.
   */
  lemma SetParameterDelivered(addr: string, cseq: nat, session: Option<string>, params: map<string, string>,
                              pairs: seq<(string, string)>, rest: string)
    requires IsAddress(addr) && IsSession(session) && cseq <= MAX_U32
    requires Lists(pairs, params) && (forall p :: p in pairs ==> IsAssignment(p)) && |CrLf(BodyLines(pairs))| <= MAX_U64
    ensures var frame := Frame(SetParameterRequest(addr, cseq, session, pairs) + rest);
            && frame.Success? && frame.value.1 == rest
            && (ParseMessage(frame.value.0) == Success(SetParameter(cseq, params)) <==> !Mentions(session))
  {
    hide *;
    SetParameterIsMessage(addr, cseq, session, pairs);
    FrameStops(SetParameterRequest(addr, cseq, session, pairs), rest);
    SetParameterRoundTrip(addr, cseq, session, params, pairs);
  }

  lemma SetParameterName()
    ensures IsToken("SET_PARAMETER") && LowerChar("SET_PARAMETER"[0]) != 'c'
  {
  }

  lemma SetParameterIsMessage(addr: string, cseq: nat, session: Option<string>, pairs: seq<(string, string)>)
    requires IsAddress(addr) && IsSession(session) && cseq <= MAX_U32 && |CrLf(BodyLines(pairs))| <= MAX_U64
    ensures WellFormed(SetParameterRequest(addr, cseq, session, pairs))
  {
    SetParameterName();
    hide IsAddress, IsSession, IsToken, CrLf, BodyLines, WellFormed;
    ParameterRequestIsMessage("SET_PARAMETER", addr, cseq, session, CrLf(BodyLines(pairs)));
  }
}
