/**
 The RTSP requests of both ends of the control connection: the parser of peer requests and the
 printers of our own, and that they undo each other.
 */
module RtspMessages {
  import opened Wrappers
  import opened Text

  datatype RtspError =
    | Parse
    | InvalidParameter(name: string)
    | InvalidMethod(name: string)
    | ProtocolViolation
    | Io
    | Timeout
    | Panicked  // a slice out of range, which is a panic in the program

  datatype RtspMessage =
    | Options(cseq: nat)
    | GetParameter(cseq: nat, names: seq<string>)
    | SetParameter(cseq: nat, params: map<string, string>)
    | Setup(cseq: nat, session: Option<string>, transport: Option<string>)
    | Play(cseq: nat, session: Option<string>)
    | Teardown(cseq: nat, session: Option<string>)

  // ---------- Parsing ----------

  function FirstWithPrefix(lines: seq<string>, prefix: string): (r: Option<string>)
    ensures r.Some? ==> prefix <= r.value && r.value in lines
  {
    if lines == [] then None
    else if prefix <= lines[0] then Some(lines[0])
    else FirstWithPrefix(lines[1..], prefix)
  }

  /** The value of the first line that starts with the header name, in any letter case. */
  function ParseHeader(lines: seq<string>, header: string): Result<Option<string>, RtspError> {
    if lines == [] then Success(None)
    else if Lower(header) <= Lower(lines[0]) then
      if |lines[0]| < |header| + 1 then Failure(Panicked) else Success(Some(Trim(lines[0][|header| + 1..])))
    else ParseHeader(lines[1..], header)
  }

  /** The two sides of the first colon. */
  function SplitColon(line: string): (string, string)
    requires ':' in line
  {
    var i := IndexOf(line, ':');
    (line[..i], line[i + 1..])
  }

  const WFD := "wfd_"

  /** The parameter names a GET_PARAMETER request mentions, line by line, with or without a value. */
  function QueriedNames(lines: seq<string>): seq<string> {
    if lines == [] then []
    else
      var line, rest := lines[0], QueriedNames(lines[1..]);
      if !Contains(line, WFD) then rest
      else if ':' in line then [Trim(SplitColon(line).0)] + rest
      else [Trim(line)] + rest
  }

  /** The parameter assignments of a SET_PARAMETER request, in order. */
  function AssignedPairs(lines: seq<string>): seq<(string, string)> {
    if lines == [] then []
    else
      var line, rest := lines[0], AssignedPairs(lines[1..]);
      if Contains(line, WFD) && ':' in line
      then [(Trim(SplitColon(line).0), Trim(SplitColon(line).1))] + rest
      else rest
  }

  /** Inserting the pairs one after the other into a map. */
  function Collect(pairs: seq<(string, string)>): map<string, string> {
    if pairs == [] then map[]
    else var last := pairs[|pairs| - 1]; Collect(pairs[..|pairs| - 1])[last.0 := last.1]
  }

  function Dispatch(name: string, cseq: nat, lines: seq<string>): Result<RtspMessage, RtspError>
    requires lines != []
  {
    if name == "OPTIONS" then Success(Options(cseq))
    else if name == "GET_PARAMETER" then Success(GetParameter(cseq, QueriedNames(lines)))
    else if name == "SET_PARAMETER" then Success(SetParameter(cseq, Collect(AssignedPairs(lines[1..]))))
    else if name == "SETUP" then
      match (ParseHeader(lines, "Session"), ParseHeader(lines, "Transport"))
      case (Success(session), Success(transport)) => Success(Setup(cseq, session, transport))
      case _ => Failure(Panicked)
    else if name == "PLAY" then
      match ParseHeader(lines, "Session")
      case Success(session) => Success(Play(cseq, session))
      case Failure(error) => Failure(error)
    else if name == "TEARDOWN" then
      match ParseHeader(lines, "Session")
      case Success(session) => Success(Teardown(cseq, session))
      case Failure(error) => Failure(error)
    else Failure(InvalidMethod(name))
  }

  const CSEQ := "CSeq:"

  function ParseLines(lines: seq<string>): Result<RtspMessage, RtspError> {
    if lines == [] then Failure(Parse)
    else
      var parts := Words(lines[0]);
      if |parts| < 2 then Failure(Parse)
      else
        match FirstWithPrefix(lines, CSEQ)
        case None => Failure(Parse)
        case Some(line) =>
          match ParseUnsigned(Trim(line[5..]), 10, MAX_U32)
          case None => Failure(Parse)
          case Some(cseq) => Dispatch(parts[0], cseq, lines)
  }

  function ParseMessage(data: string): Result<RtspMessage, RtspError> {
    ParseLines(Lines(data))
  }

  // ---------- Messages that end the process ----------

  /** The first line that starts with this name, in any letter case, is the name alone. */
  predicate Bare(lines: seq<string>, name: string) {
    exists i: nat :: i < |lines| && Lower(lines[i]) == name && forall j: nat :: j < i ==> !(name <= Lower(lines[j]))
  }

  lemma {:induction false} BareHeader(lines: seq<string>, header: string)
    ensures ParseHeader(lines, header).Failure? <==> Bare(lines, Lower(header))
    ensures ParseHeader(lines, header).Failure? ==> ParseHeader(lines, header).error == Panicked
  {
    if lines != [] {
      var name, first, rest := Lower(header), Lower(lines[0]), lines[1..];
      BareHeader(rest, header);
      if name <= first {
        if |first| == |name| {
          assert first == name && lines[0] == lines[0];
          assert Bare(lines, name);
        } else {
          assert !Bare(lines, name) by {
            assert first != name;
          }
        }
      } else {
        BareLater(lines, name);
      }
    }
  }

  lemma BareLater(lines: seq<string>, name: string)
    requires lines != [] && !(name <= Lower(lines[0]))
    ensures Bare(lines, name) <==> Bare(lines[1..], name)
  {
    hide Lower;
    var rest := lines[1..];
    if Bare(lines, name) {
      var i: nat :| i < |lines| && Lower(lines[i]) == name && forall j: nat :: j < i ==> !(name <= Lower(lines[j]));
      assert i > 0;
      assert rest[i - 1] == lines[i];
      assert forall j: nat :: j < i - 1 ==> rest[j] == lines[j + 1];
    }
    if Bare(rest, name) {
      var i: nat :| i < |rest| && Lower(rest[i]) == name && forall j: nat :: j < i ==> !(name <= Lower(rest[j]));
      assert lines[i + 1] == rest[i];
      assert forall j: nat :: 0 < j < i + 1 ==> lines[j] == rest[j - 1];
    }
  }

  /** A request line of two words and a line with a readable number. */
  predicate Headed(lines: seq<string>) {
    && lines != [] && |Words(lines[0])| >= 2
    && FirstWithPrefix(lines, CSEQ).Some?
    && ParseUnsigned(Trim(FirstWithPrefix(lines, CSEQ).value[5..]), 10, MAX_U32).Some?
  }

  /**
   Main result: exactly these messages end the process that parses them, a SETUP, PLAY or TEARDOWN whose first session
   line is the bare name, and a SETUP whose first transport line is.
   */
  lemma PanicsExactly(data: string)
    ensures var lines := Lines(data);
            ParseMessage(data) == Failure(Panicked)
            <==> && Headed(lines)
                 && (|| (Words(lines[0])[0] in {"SETUP", "PLAY", "TEARDOWN"} && Bare(lines, "session"))
                     || (Words(lines[0])[0] == "SETUP" && Bare(lines, "transport")))
  {
    var lines := Lines(data);
    HeaderNames();
    hide Lines, Words, Trim, Bare, Lower, ParseUnsigned, FirstWithPrefix, QueriedNames, AssignedPairs, Collect;
    BareHeader(lines, "Session");
    BareHeader(lines, "Transport");
    if Headed(lines) {
      DispatchPanics(Words(lines[0])[0], ParseUnsigned(Trim(FirstWithPrefix(lines, CSEQ).value[5..]), 10, MAX_U32).value, lines);
    }
  }

  lemma HeaderNames()
    ensures Lower("Session") == "session" && Lower("Transport") == "transport"
  {
  }

  lemma DispatchPanics(name: string, cseq: nat, lines: seq<string>)
    requires lines != []
    requires ParseHeader(lines, "Session").Failure? ==> ParseHeader(lines, "Session").error == Panicked
    ensures Dispatch(name, cseq, lines) == Failure(Panicked)
       <==> || (name in {"SETUP", "PLAY", "TEARDOWN"} && ParseHeader(lines, "Session").Failure?)
            || (name == "SETUP" && ParseHeader(lines, "Transport").Failure?)
  {
    hide ParseHeader, QueriedNames, AssignedPairs, Collect;
    MethodNames();
  }

  lemma MethodNames()
    ensures "SETUP" !in {"OPTIONS", "GET_PARAMETER", "SET_PARAMETER"} && "PLAY" !in {"OPTIONS", "GET_PARAMETER", "SET_PARAMETER", "SETUP"}
    ensures "TEARDOWN" !in {"OPTIONS", "GET_PARAMETER", "SET_PARAMETER", "SETUP", "PLAY"}
  {
    assert "SETUP"[0] == 'S' && "SETUP"[3] == 'U' && "PLAY"[0] == 'P' && "TEARDOWN"[0] == 'T';
    assert "OPTIONS"[0] == 'O' && "GET_PARAMETER"[0] == 'G' && "SET_PARAMETER"[3] == '_';
  }

  // ---------- Printing ----------

  const CONTENT_TYPE := "Content-Type: text/parameters"

  function ControlUri(addr: string): string {
    "rtsp://" + addr + "/wfd1.0"
  }

  function StartLine(name: string, uri: string): string {
    name + " " + (uri + " RTSP/1.0")
  }

  function CSeqLine(cseq: nat): string {
    "CSeq: " + Digits(cseq, 10)
  }

  function SessionLines(session: Option<string>): seq<string> {
    match session
    case None => []
    case Some(id) => ["Session: " + id]
  }

  function LengthLine(length: nat): string {
    "Content-Length: " + Digits(length, 10)
  }

  /** Joining the header lines, an empty line and the body with CR LF. */
  function RequestText(head: seq<string>, body: string): string {
    Join(head + ["", body], "\r\n")
  }

  function BodyLine(pair: (string, string)): string {
    pair.0 + ": " + pair.1
  }

  function BodyLines(pairs: seq<(string, string)>): (lines: seq<string>)
    ensures |lines| == |pairs| && forall i :: 0 <= i < |pairs| ==> lines[i] == BodyLine(pairs[i])
  {
    seq(|pairs|, i requires 0 <= i < |pairs| => BodyLine(pairs[i]))
  }

  function OptionsHead(cseq: nat): seq<string> {
    [StartLine("OPTIONS", "*"), CSeqLine(cseq)] + ["Require: org.wfa.wfd1.0", "User-Agent: waycast/1.0"]
  }

  function ParameterHeaders(cseq: nat, session: Option<string>, length: nat): seq<string> {
    [CSeqLine(cseq)] + (SessionLines(session) + [CONTENT_TYPE, LengthLine(length)])
  }

  function ParameterHead(name: string, addr: string, cseq: nat, session: Option<string>, body: string): seq<string> {
    [StartLine(name, ControlUri(addr))] + ParameterHeaders(cseq, session, |body|)
  }

  function OptionsRequest(cseq: nat): string {
    RequestText(OptionsHead(cseq), "")
  }

  function GetParameterRequest(addr: string, cseq: nat, session: Option<string>, names: seq<string>): string {
    var body := CrLf(names);
    RequestText(ParameterHead("GET_PARAMETER", addr, cseq, session, body), body)
  }

  function SetParameterRequest(addr: string, cseq: nat, session: Option<string>, pairs: seq<(string, string)>): string {
    var body := CrLf(BodyLines(pairs));
    RequestText(ParameterHead("SET_PARAMETER", addr, cseq, session, body), body)
  }

  /** The 16-bit successor, as a build without overflow checks computes it. */
  function PortAbove(port: nat): nat {
    (port + 1) % 0x1_0000
  }

  function ClientPorts(rtpPort: nat): string {
    Digits(rtpPort, 10) + "-" + Digits(PortAbove(rtpPort), 10)
  }

  const CLIENT_PORT := "client_port="

  function SetupTransport(ports: string): string {
    Join(["RTP/AVP/UDP", "unicast", CLIENT_PORT + ports], ";")
  }

  function SetupRequest(addr: string, cseq: nat, session: Option<string>, rtpPort: nat): string {
    RequestText([StartLine("SETUP", ControlUri(addr) + "/streamid=0"), CSeqLine(cseq)] + SessionLines(session)
                + ["Transport: " + SetupTransport(ClientPorts(rtpPort))], "")
  }

  function PlayRequest(addr: string, cseq: nat, session: Option<string>): string {
    RequestText([StartLine("PLAY", ControlUri(addr) + "/stream"), CSeqLine(cseq)] + SessionLines(session)
                + ["Range: npt=0.000-"], "")
  }

  // ---------- Conditions on the addresses and names that are printed ----------

  /** An address as printed by the program: no white space and no underscore. */
  predicate IsAddress(addr: string) {
    '_' !in addr && forall c :: c in addr ==> !IsSpace(c)
  }

  /** A session identifier on one line, without white space at its edges. */
  predicate IsSession(session: Option<string>) {
    session.Some? ==> Trimmed(session.value) && '\n' !in session.value
  }

  /** The session identifier, which the peer chose, mentions what the parser takes for a parameter. */
  predicate Mentions(session: Option<string>) {
    session.Some? && Contains(session.value, WFD)
  }

  predicate IsName(name: string) {
    WFD <= name && ':' !in name && '\n' !in name && Trimmed(name)
  }

  predicate IsAssignment(pair: (string, string)) {
    IsName(pair.0) && '\n' !in pair.1 && Trimmed(pair.1)
  }

  // ---------- Lines of a request ----------

  /** The lines of a request text are its header lines, an empty line and the lines of its body. */
  lemma RequestLines(head: seq<string>, body: string)
    requires NoBreaks(head)
    ensures Lines(RequestText(head, body)) == head + [""] + Lines(body)
    ensures RequestText(head, body) == CrLf(head + [""]) + body
  {
    assert head + ["", body] == (head + [""]) + [body];
    JoinCrLf(head + [""], body);
    CrLfLines(head + [""], body);
  }

  lemma StartLineWords(name: string, uri: string)
    requires IsToken(name) && IsToken(uri)
    ensures Words(StartLine(name, uri)) == [name, uri, "RTSP/1.0"]
    ensures '\n' !in StartLine(name, uri) && StartLine(name, uri)[0] == name[0]
  {
    var last := "RTSP/1.0";
    assert StartLine(name, uri) == name + (" " + (uri + (" " + last))) && '\n' !in last;
    assert Words(last) == [last] by {
      WordsCons(last, "");
      assert last + "" == last;
    }
    ThreeWords(name, uri, last);
  }

  lemma ThreeWords(a: string, b: string, c: string)
    requires IsToken(a) && IsToken(b) && Words(c) == [c] && '\n' !in c
    ensures var line := a + (" " + (b + (" " + c)));
            Words(line) == [a, b, c] && '\n' !in line && line[0] == a[0]
  {
    hide Words;
    WordsSpaced(b, c);
    WordsSpaced(a, b + (" " + c));
    assert [a] + ([b] + [c]) == [a, b, c];
  }

  lemma WordsSpaced(word: string, rest: string)
    requires IsToken(word)
    ensures Words(word + (" " + rest)) == [word] + Words(rest)
  {
    WordsCons(word, " " + rest);
    assert (" " + rest)[1..] == rest;
  }

  lemma UriTokens(addr: string)
    requires IsAddress(addr)
    ensures IsToken(ControlUri(addr)) && '_' !in ControlUri(addr)
    ensures IsToken(ControlUri(addr) + "/streamid=0") && IsToken(ControlUri(addr) + "/stream")
  {
  }

  lemma ParseCSeq(cseq: nat)
    requires cseq <= MAX_U32
    ensures CSEQ <= CSeqLine(cseq) && ParseUnsigned(Trim(CSeqLine(cseq)[5..]), 10, MAX_U32) == Some(cseq)
  {
    var digits := Digits(cseq, 10);
    assert CSeqLine(cseq)[5..] == " " + digits;
    TrimLeadingSpace(digits);
    DigitsAreToken(cseq, 10, 0);
    TokenTrimmed(digits);
    ParsePrinted(cseq, 10, 0, MAX_U32);
  }

  /** Our requests start with a start line and a CSeq line, which decide the method and the number. */
  lemma ParseHead(name: string, uri: string, cseq: nat, lines: seq<string>)
    requires IsToken(name) && IsToken(uri) && cseq <= MAX_U32 && name[0] != 'C'
    requires |lines| >= 2 && lines[0] == StartLine(name, uri) && lines[1] == CSeqLine(cseq)
    ensures ParseLines(lines) == Dispatch(name, cseq, lines)
  {
    StartLineWords(name, uri);
    ParseCSeq(cseq);
    assert lines[0][0] == name[0];
    assert lines[1..][0] == CSeqLine(cseq);
    assert FirstWithPrefix(lines, CSEQ) == Some(CSeqLine(cseq));
  }

  /** A PLAY with a bare session line is such a message. */
  lemma BareSessionPanics(uri: string, cseq: nat)
    requires IsToken(uri) && cseq <= MAX_U32
    ensures ParseMessage(CrLf([StartLine("PLAY", uri), CSeqLine(cseq), "Session", ""])) == Failure(Panicked)
  {
    var lines := [StartLine("PLAY", uri), CSeqLine(cseq), "Session", ""];
    assert IsToken("PLAY") && "PLAY"[0] != 'C';
    PlayLines(uri, cseq);
    hide Lines, CrLf, NoBreaks;
    CrLfLines(lines, "");
    NoLines();
    assert CrLf(lines) + "" == CrLf(lines) && lines + [] == lines;
    hide StartLine, CSeqLine, IsToken, Lower;
    ParseHead("PLAY", uri, cseq, lines);
    BareHeader(lines, "Session");
    assert Lower(lines[2]) == "session";
    assert Bare(lines, "session");
    MethodNames();
  }

  lemma PlayLines(uri: string, cseq: nat)
    requires IsToken(uri)
    ensures NoBreaks([StartLine("PLAY", uri), CSeqLine(cseq), "Session", ""])
    ensures !("session" <= Lower(StartLine("PLAY", uri))) && !("session" <= Lower(CSeqLine(cseq)))
    ensures Lower("Session") == "session"
  {
    assert StartLine("PLAY", uri)[0] == 'P' && CSeqLine(cseq)[0] == 'C' && "session"[0] == 's';
    assert '\n' !in uri && '\n' !in "PLAY" && '\n' !in " RTSP/1.0" && '\n' !in "CSeq: " && '\n' !in "Session";
  }

  // ---------- SET_PARAMETER ----------

  /** A line without an underscore mentions no parameter. */
  lemma NoParameter(line: string)
    requires '_' !in line
    ensures !Contains(line, WFD)
  {
    if Contains(line, WFD) {
      AtChars(line, WFD, Find(line, WFD).value, 3);
      assert false;
    }
  }

  lemma {:induction false} AssignedAppend(a: seq<string>, b: seq<string>)
    ensures AssignedPairs(a + b) == AssignedPairs(a) + AssignedPairs(b)
  {
    if a == [] {
      assert a + b == b;
    } else {
      assert (a + b)[1..] == a[1..] + b;
      AssignedAppend(a[1..], b);
    }
  }

  lemma NothingAssigned(line: string)
    requires !Contains(line, WFD)
    ensures AssignedPairs([line]) == [] && QueriedNames([line]) == []
  {
    assert [line][1..] == [];
  }

  lemma NameMentioned(name: string, rest: string)
    requires WFD <= name
    ensures Contains(name + rest, WFD)
  {
    assert (name + rest)[0..4] == WFD;
    assert At(name + rest, WFD, 0);
  }

  lemma AssignedLine(pair: (string, string))
    requires IsAssignment(pair)
    ensures AssignedPairs([BodyLine(pair)]) == [pair]
  {
    var line := BodyLine(pair);
    assert line == pair.0 + [':'] + (" " + pair.1);
    NameMentioned(pair.0, [':'] + (" " + pair.1));
    assert line == pair.0 + ([':'] + (" " + pair.1));
    IndexOfIs(pair.0, ':', " " + pair.1);
    assert SplitColon(line) == (pair.0, " " + pair.1);
    TrimLeadingSpace(pair.1);
    TrimIdentity(pair.0);
    TrimIdentity(pair.1);
    assert [line][1..] == [];
  }

  lemma {:induction false} AssignedBody(pairs: seq<(string, string)>)
    requires forall p :: p in pairs ==> IsAssignment(p)
    ensures AssignedPairs(BodyLines(pairs)) == pairs
  {
    hide FindFrom;
    if pairs != [] {
      AssignedLine(pairs[0]);
      AssignedBody(pairs[1..]);
      assert BodyLines(pairs) == [BodyLine(pairs[0])] + BodyLines(pairs[1..]);
      AssignedAppend([BodyLine(pairs[0])], BodyLines(pairs[1..]));
    }
  }

  lemma SessionLineMentions(id: string)
    requires !Contains(id, WFD)
    ensures !Contains("Session: " + id, WFD)
  {
    assert "Session: " + id == "Session:" + [' '] + id;
    NoParameter("Session:");
    NoStraddle("Session:", ' ', id, WFD);
  }

  /** What the session line is read as. */
  function SessionPairs(session: Option<string>): seq<(string, string)> {
    if Mentions(session) then [("Session", session.value)] else []
  }

  function SessionNames(session: Option<string>): seq<string> {
    if Mentions(session) then ["Session"] else []
  }

  lemma SessionLineIs(id: string)
    ensures var line := "Session: " + id; ':' in line && SplitColon(line) == ("Session", " " + id)
  {
    var line := "Session: " + id;
    assert line == "Session" + [':'] + (" " + id);
    IndexOfIs("Session", ':', " " + id);
    assert line[..7] == "Session" && line[8..] == " " + id;
  }

  lemma SessionRead(session: Option<string>)
    requires IsSession(session)
    ensures AssignedPairs(SessionLines(session)) == SessionPairs(session) && QueriedNames(SessionLines(session)) == SessionNames(session)
  {
    if session.Some? {
      var id := session.value;
      var line := "Session: " + id;
      assert [line][1..] == [];
      if Contains(id, WFD) {
        AtSuffix("Session: ", id, WFD, 9 + Find(id, WFD).value);
        assert Contains(line, WFD);
        SessionLineIs(id);
        TrimLeadingSpace(id);
        TrimIdentity(id);
        TrimIdentity("Session");
      } else {
        SessionLineMentions(id);
        NothingAssigned(line);
      }
    }
  }

  /** Of the header lines after the start line only the session's can be taken for an assignment or a question. */
  lemma HeadersRead(cseq: nat, session: Option<string>, length: nat)
    requires IsSession(session)
    ensures var rest := ParameterHeaders(cseq, session, length) + [""];
            AssignedPairs(rest) == SessionPairs(session) && QueriedNames(rest) == SessionNames(session)
  {
    hide FindFrom;
    hide Digits;
    NoParameter(CSeqLine(cseq));
    NoParameter(LengthLine(length));
    NoParameter(CONTENT_TYPE);
    NoParameter("");
    SessionRead(session);
    var tail := [CONTENT_TYPE, LengthLine(length)] + [""];
    NothingMentioned([CSeqLine(cseq)]);
    NothingMentioned(tail);
    var sessions := SessionLines(session);
    assert ParameterHeaders(cseq, session, length) + [""] == [CSeqLine(cseq)] + (sessions + tail);
    hide *;
    AssignedAppend(sessions, tail);
    QueriedAppend(sessions, tail);
    AssignedAppend([CSeqLine(cseq)], sessions + tail);
    QueriedAppend([CSeqLine(cseq)], sessions + tail);
  }

  lemma {:induction false} NothingMentioned(lines: seq<string>)
    requires forall line :: line in lines ==> !Contains(line, WFD)
    ensures AssignedPairs(lines) == [] && QueriedNames(lines) == []
  {
    if lines != [] {
      NothingMentioned(lines[1..]);
    }
  }

  /** The lines of a parameter request. */
  lemma ParameterRequestLines(name: string, addr: string, cseq: nat, session: Option<string>, bodyLines: seq<string>)
    requires IsToken(name) && IsAddress(addr) && IsSession(session) && NoBreaks(bodyLines)
    ensures var body := CrLf(bodyLines);
            Lines(RequestText(ParameterHead(name, addr, cseq, session, body), body))
            == [StartLine(name, ControlUri(addr))] + ((ParameterHeaders(cseq, session, |body|) + [""]) + bodyLines)
  {
    var body := CrLf(bodyLines);
    var head := ParameterHead(name, addr, cseq, session, body);
    ParameterHeadBreaks(name, addr, cseq, session, body);
    RequestLines(head, body);
    CrLfLines(bodyLines, "");
    assert body + "" == body && bodyLines + Lines("") == bodyLines;
    Regroup(StartLine(name, ControlUri(addr)), ParameterHeaders(cseq, session, |body|), bodyLines);
  }

  lemma Regroup(first: string, headers: seq<string>, rest: seq<string>)
    ensures ([first] + headers) + [""] + rest == [first] + ((headers + [""]) + rest)
  {
  }

  lemma ParameterHeadBreaks(name: string, addr: string, cseq: nat, session: Option<string>, body: string)
    requires IsToken(name) && IsAddress(addr) && IsSession(session)
    ensures NoBreaks(ParameterHead(name, addr, cseq, session, body))
  {
    UriTokens(addr);
    StartLineWords(name, ControlUri(addr));
    HeadersBreaks(cseq, session, |body|);
  }

  lemma HeadersBreaks(cseq: nat, session: Option<string>, length: nat)
    requires IsSession(session)
    ensures NoBreaks(ParameterHeaders(cseq, session, length))
  {
  }

  lemma {:induction false} CollectKeys(pairs: seq<(string, string)>)
    ensures forall k :: k in Collect(pairs) <==> exists p :: p in pairs && p.0 == k
    ensures forall k :: k in Collect(pairs) ==> (k, Collect(pairs)[k]) in pairs
  {
    if pairs != [] {
      var init, last := pairs[..|pairs| - 1], pairs[|pairs| - 1];
      CollectKeys(init);
      assert pairs == init + [last];
      assert forall p :: p in pairs <==> p in init || p == last;
    }
  }

  /** `pairs` lists the entries of `params` in some order. */
  ghost predicate Lists(pairs: seq<(string, string)>, params: map<string, string>) {
    && (forall p :: p in pairs ==> p.0 in params && params[p.0] == p.1)
    && (forall k :: k in params ==> (k, params[k]) in pairs)
  }

  /** `pairs` lists the entries of `params` in some order, each once. */
  ghost predicate Permutes(pairs: seq<(string, string)>, params: map<string, string>) {
    Lists(pairs, params) && |pairs| == |params|
  }

  lemma CollectLists(pairs: seq<(string, string)>, params: map<string, string>)
    requires Lists(pairs, params)
    ensures Collect(pairs) == params
  {
    CollectKeys(pairs);
    forall k ensures k in Collect(pairs) <==> k in params {
      if k in params {
        assert (k, params[k]) in pairs && (k, params[k]).0 == k;
      }
    }
    assert Collect(pairs).Keys == params.Keys;
  }

  /**
   Main result: parsing a printed SET_PARAMETER returns the same map and CSeq, whatever the order of the map, exactly
   when the session identifier does not contain `wfd_`.
   */
  lemma SetParameterRoundTrip(addr: string, cseq: nat, session: Option<string>, params: map<string, string>,
                              pairs: seq<(string, string)>)
    requires IsAddress(addr) && IsSession(session) && cseq <= MAX_U32
    requires Lists(pairs, params) && forall p :: p in pairs ==> IsAssignment(p)
    ensures ParseMessage(SetParameterRequest(addr, cseq, session, pairs)) == Success(SetParameter(cseq, params)) <==> !Mentions(session)
  {
    var body := BodyLines(pairs);
    BodyBreaks(pairs);
    ParameterRequestLines("SET_PARAMETER", addr, cseq, session, body);
    AssignedBody(pairs);
    CollectLists(pairs, params);
    ParseSetLines(addr, cseq, session, |CrLf(body)|, body, pairs);
    if Mentions(session) {
      SessionIsNoParameter(session.value, pairs);
    } else {
      assert [] + pairs == pairs;
    }
  }

  /** A session line read as an assignment adds a key that no parameter has. */
  lemma SessionIsNoParameter(id: string, pairs: seq<(string, string)>)
    requires forall p :: p in pairs ==> IsAssignment(p)
    ensures Collect([("Session", id)] + pairs) != Collect(pairs)
  {
    var more := [("Session", id)] + pairs;
    CollectKeys(more);
    CollectKeys(pairs);
    assert more[0] in more;
    assert WFD[0] != "Session"[0];
    forall p | p in pairs ensures p.0 != "Session" {
      assert WFD <= p.0;
    }
    assert more[0].0 == "Session";
    assert "Session" in Collect(more) && "Session" !in Collect(pairs);
  }

  lemma ParseSetLines(addr: string, cseq: nat, session: Option<string>, length: nat, body: seq<string>, pairs: seq<(string, string)>)
    requires IsAddress(addr) && IsSession(session) && cseq <= MAX_U32 && AssignedPairs(body) == pairs
    ensures ParseLines([StartLine("SET_PARAMETER", ControlUri(addr))] + ((ParameterHeaders(cseq, session, length) + [""]) + body))
            == Success(SetParameter(cseq, Collect(SessionPairs(session) + pairs)))
  {
    var start, headers := StartLine("SET_PARAMETER", ControlUri(addr)), ParameterHeaders(cseq, session, length) + [""];
    assert IsToken("SET_PARAMETER") && headers != [] && headers[0] == CSeqLine(cseq);
    hide *;
    HeadersRead(cseq, session, length);
    UriTokens(addr);
    ThreeParts(start, CSeqLine(cseq), headers, body);
    ParseHead("SET_PARAMETER", ControlUri(addr), cseq, [start] + (headers + body));
    DispatchSet(start, headers, body, cseq);
  }

  lemma ThreeParts(start: string, second: string, headers: seq<string>, body: seq<string>)
    requires headers != [] && headers[0] == second
    ensures var lines := [start] + (headers + body);
            |lines| >= 2 && lines[0] == start && lines[1] == second && lines[1..] == headers + body
  {
  }

  lemma DispatchSet(start: string, headers: seq<string>, body: seq<string>, cseq: nat)
    ensures Dispatch("SET_PARAMETER", cseq, [start] + (headers + body))
            == Success(SetParameter(cseq, Collect(AssignedPairs(headers) + AssignedPairs(body))))
  {
    AssignedAppend(headers, body);
    assert ([start] + (headers + body))[1..] == headers + body;
  }

  lemma DispatchGet(start: string, headers: seq<string>, body: seq<string>, cseq: nat)
    requires QueriedNames([start]) == []
    ensures Dispatch("GET_PARAMETER", cseq, [start] + (headers + body))
            == Success(GetParameter(cseq, QueriedNames(headers) + QueriedNames(body)))
  {
    QueriedAppend(headers, body);
    QueriedAppend([start], headers + body);
    assert [] + (QueriedNames(headers) + QueriedNames(body)) == QueriedNames(headers) + QueriedNames(body);
  }

  lemma BodyBreaks(pairs: seq<(string, string)>)
    requires forall p :: p in pairs ==> IsAssignment(p)
    ensures NoBreaks(BodyLines(pairs))
  {
    forall line | line in BodyLines(pairs) ensures '\n' !in line {
      var i :| 0 <= i < |pairs| && line == BodyLine(pairs[i]);
      assert pairs[i] in pairs;
    }
  }

  // ---------- GET_PARAMETER ----------

  lemma {:induction false} QueriedAppend(a: seq<string>, b: seq<string>)
    ensures QueriedNames(a + b) == QueriedNames(a) + QueriedNames(b)
  {
    if a == [] {
      assert a + b == b;
    } else {
      assert (a + b)[1..] == a[1..] + b;
      QueriedAppend(a[1..], b);
    }
  }

  lemma {:induction false} QueriedBody(names: seq<string>)
    requires forall n :: n in names ==> IsName(n)
    ensures QueriedNames(names) == names
  {
    if names != [] {
      assert IsName(names[0]);
      assert names[0] + "" == names[0];
      NameMentioned(names[0], "");
      TrimIdentity(names[0]);
      QueriedBody(names[1..]);
    }
  }

  /** The start line of a GET_PARAMETER request names no parameter, although it has an underscore. */
  lemma GetStartLine(addr: string)
    requires IsAddress(addr)
    ensures !Contains(StartLine("GET_PARAMETER", ControlUri(addr)), WFD)
  {
    UriTokens(addr);
    var line := StartLine("GET_PARAMETER", ControlUri(addr));
    assert line == "GET_PARAMETER" + [' '] + (ControlUri(addr) + " RTSP/1.0");
    NoParameter(ControlUri(addr) + " RTSP/1.0");
    if Contains("GET_PARAMETER", WFD) {
      AtChars("GET_PARAMETER", WFD, Find("GET_PARAMETER", WFD).value, 0);
      assert false;
    }
    NoStraddle("GET_PARAMETER", ' ', ControlUri(addr) + " RTSP/1.0", WFD);
  }

  /**
   Main result: parsing a printed GET_PARAMETER returns the same names in the same order, exactly when the session
   identifier does not contain `wfd_`.
   */
  lemma GetParameterRoundTrip(addr: string, cseq: nat, session: Option<string>, names: seq<string>)
    requires IsAddress(addr) && IsSession(session) && cseq <= MAX_U32
    requires forall n :: n in names ==> IsName(n)
    ensures ParseMessage(GetParameterRequest(addr, cseq, session, names)) == Success(GetParameter(cseq, names)) <==> !Mentions(session)
  {
    ParameterRequestLines("GET_PARAMETER", addr, cseq, session, names);
    QueriedBody(names);
    ParseGetLines(addr, cseq, session, |CrLf(names)|, names, names);
    assert |SessionNames(session) + names| == |SessionNames(session)| + |names|;
    assert [] + names == names;
  }

  /** A session identifier that a sink may hand out and that breaks both. */
  lemma SessionThatMentions()
    ensures IsSession(Some("wfd_1")) && Mentions(Some("wfd_1")) && SessionPairs(Some("wfd_1")) == [("Session", "wfd_1")]
  {
    assert "wfd_1" == WFD + "1";
    NameMentioned(WFD, "1");
  }

  lemma ParseGetLines(addr: string, cseq: nat, session: Option<string>, length: nat, body: seq<string>, names: seq<string>)
    requires IsAddress(addr) && IsSession(session) && cseq <= MAX_U32 && QueriedNames(body) == names
    ensures ParseLines([StartLine("GET_PARAMETER", ControlUri(addr))] + ((ParameterHeaders(cseq, session, length) + [""]) + body))
            == Success(GetParameter(cseq, SessionNames(session) + names))
  {
    var start, headers := StartLine("GET_PARAMETER", ControlUri(addr)), ParameterHeaders(cseq, session, length) + [""];
    assert IsToken("GET_PARAMETER") && headers != [] && headers[0] == CSeqLine(cseq);
    hide *;
    HeadersRead(cseq, session, length);
    GetStartLine(addr);
    NothingAssigned(start);
    UriTokens(addr);
    ThreeParts(start, CSeqLine(cseq), headers, body);
    ParseHead("GET_PARAMETER", ControlUri(addr), cseq, [start] + (headers + body));
    DispatchGet(start, headers, body, cseq);
  }
}
