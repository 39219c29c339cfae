/**
 OPTIONS and PLAY as we print them, read by the other end; and what tells requests from responses.
 */
module OwnRequests {
  import opened Wrappers
  import opened Text
  import opened RtspMessages
  import opened RtspSessions
  import opened SetupAgreement
  import opened Framing
  import opened PeerDialogue

  lemma OptionsLines(cseq: nat)
    ensures Lines(OptionsRequest(cseq))
         == [StartLine("OPTIONS", "*"), CSeqLine(cseq)] + ["Require: org.wfa.wfd1.0", "User-Agent: waycast/1.0"] + [""] + []
  {
    HeadUnbroken(cseq);
    NoLines();
    hide Lines, StartLine, CSeqLine, NoBreaks;
    RequestLines(OptionsHead(cseq), "");
  }

  lemma HeadUnbroken(cseq: nat)
    ensures NoBreaks(OptionsHead(cseq))
  {
    assert '\n' !in "OPTIONS" && '\n' !in "*" && '\n' !in " RTSP/1.0" && '\n' !in "CSeq: ";
    assert '\n' !in "Require: org.wfa.wfd1.0" && '\n' !in "User-Agent: waycast/1.0";
  }

  /** The other end reads OPTIONS with our number. */
  lemma OptionsRoundTrip(cseq: nat)
    requires cseq <= MAX_U32
    ensures ParseMessage(OptionsRequest(cseq)) == Success(Options(cseq))
  {
    var lines := [StartLine("OPTIONS", "*"), CSeqLine(cseq)] + ["Require: org.wfa.wfd1.0", "User-Agent: waycast/1.0"] + [""] + [];
    assert lines[0] == StartLine("OPTIONS", "*") && lines[1] == CSeqLine(cseq) && |lines| >= 2;
    assert IsToken("OPTIONS") && IsToken("*") && "OPTIONS"[0] != 'C';
    hide *;
    OptionsLines(cseq);
    ParseHead("OPTIONS", "*", cseq, lines);
    DispatchOptions(cseq, lines);
    ParseText(OptionsRequest(cseq), lines);
  }

  lemma DispatchOptions(cseq: nat, lines: seq<string>)
    requires lines != []
    ensures Dispatch("OPTIONS", cseq, lines) == Success(Options(cseq))
  {
  }

  lemma PlayLines(addr: string, cseq: nat, session: Option<string>)
    requires IsAddress(addr) && (session.Some? ==> '\n' !in session.value)
    ensures Lines(PlayRequest(addr, cseq, session))
         == [StartLine("PLAY", ControlUri(addr) + "/stream"), CSeqLine(cseq)] + SessionLines(session) + ["Range: npt=0.000-"] + [""]
  {
    var head := [StartLine("PLAY", ControlUri(addr) + "/stream"), CSeqLine(cseq)] + SessionLines(session) + ["Range: npt=0.000-"];
    PlayUnbroken(addr, cseq, session);
    NoLines();
    hide Lines, StartLine, CSeqLine, NoBreaks, SessionLines, ControlUri;
    RequestLines(head, "");
    assert head + [""] + [] == head + [""];
  }

  lemma PlayUnbroken(addr: string, cseq: nat, session: Option<string>)
    requires IsAddress(addr) && (session.Some? ==> '\n' !in session.value)
    ensures NoBreaks([StartLine("PLAY", ControlUri(addr) + "/stream"), CSeqLine(cseq)] + SessionLines(session) + ["Range: npt=0.000-"])
    ensures IsToken(ControlUri(addr) + "/stream")
  {
    StreamUri(addr);
    var uri := ControlUri(addr) + "/stream";
    assert '\n' !in uri;
    hide ControlUri;
    assert '\n' !in "PLAY" && '\n' !in " RTSP/1.0" && '\n' !in "CSeq: " && '\n' !in "Session: " && '\n' !in "Range: npt=0.000-";
  }

  lemma StreamUri(addr: string)
    requires IsAddress(addr)
    ensures IsToken(ControlUri(addr) + "/stream")
  {
    assert IsToken("rtsp://") && IsToken("/wfd1.0") && IsToken("/stream");
  }

  /** The other end reads PLAY with our number and the session. */
  lemma PlayRoundTrip(addr: string, cseq: nat, session: Option<string>)
    requires IsAddress(addr) && cseq <= MAX_U32 && (session.Some? ==> Trimmed(session.value) && '\n' !in session.value)
    ensures ParseMessage(PlayRequest(addr, cseq, session)) == Success(Play(cseq, session))
  {
    var uri, range := ControlUri(addr) + "/stream", "Range: npt=0.000-";
    var start := StartLine("PLAY", uri);
    PlayLines(addr, cseq, session);
    PlayUnbroken(addr, cseq, session);
    PlayStart(uri);
    hide *;
    PlayNotSession(start, range);
    SessionHeader(start, cseq, session, range);
    var lines := [start, CSeqLine(cseq)] + SessionLines(session) + [range] + [""];
    FirstTwo(start, CSeqLine(cseq), SessionLines(session), range);
    DispatchPlay(cseq, lines);
    ParseHead("PLAY", uri, cseq, lines);
    ParseText(PlayRequest(addr, cseq, session), lines);
  }

  lemma PlayStart(uri: string)
    ensures IsToken("PLAY") && "PLAY"[0] != 'C' && StartLine("PLAY", uri)[0] == 'P' && "Range: npt=0.000-"[0] == 'R'
  {
  }

  lemma PlayNotSession(start: string, range: string)
    requires start != "" && start[0] == 'P' && range != "" && range[0] == 'R'
    ensures !(Lower("Session") <= Lower(start)) && !(Lower("Session") <= Lower(range))
  {
    NotHeader(start, "Session", 0);
    NotHeader(range, "Session", 0);
  }

  lemma DispatchPlay(cseq: nat, lines: seq<string>)
    requires lines != [] && ParseHeader(lines, "Session").Success?
    ensures Dispatch("PLAY", cseq, lines) == Success(Play(cseq, ParseHeader(lines, "Session").value))
  {
    hide ParseHeader;
    MethodNames();
  }

  /** Main result: every reply is told from requests by its first characters, and nothing that parses as a request has these. */
  lemma RepliesAreNoRequests(cseq: nat, text: string, message: string)
    ensures STATUS <= Reply(cseq, text)
    ensures ParseMessage(message).Success? ==> !(STATUS <= message)
  {
    ReplyStarts(cseq, text);
    if STATUS <= message {
      FirstLetter(message);
      hide Lines, Words, FirstWithPrefix, ParseUnsigned, Trim;
      var lines := Lines(message);
      if |Words(lines[0])| >= 2 && FirstWithPrefix(lines, CSEQ).Some? {
        NoMethod(Words(lines[0])[0], lines);
      }
    }
  }

  lemma ReplyStarts(cseq: nat, text: string)
    ensures STATUS <= Reply(cseq, text)
  {
    var lines := ["RTSP/1.0 200 OK", CSeqLine(cseq)];
    assert lines[1..] == [CSeqLine(cseq)];
    assert STATUS <= "RTSP/1.0 200 OK";
    hide CSeqLine;
    FrontStays("RTSP/1.0 200 OK", CrLf([CSeqLine(cseq)]), text);
  }

  lemma FrontStays(line: string, rest: string, text: string)
    requires STATUS <= line
    ensures STATUS <= (line + "\r\n" + rest) + (text + "\r\n")
  {
  }

  /** The first word of such a message starts with the same letter. */
  lemma FirstLetter(message: string)
    requires STATUS <= message
    ensures Lines(message) != [] && (Words(Lines(message)[0]) != [] ==> Words(Lines(message)[0])[0][0] == 'R')
  {
    assert message[0] == STATUS[0] && message[1] == STATUS[1];
    var line := if '\n' in message then message[..IndexOf(message, '\n')] else message;
    assert |line| >= 2 && line[0] == 'R' && line[1] == 'T';
    assert Lines(message)[0] == line || Lines(message)[0] == StripCR(line);
    WordStarts(Lines(message)[0]);
  }

  lemma WordStarts(s: string)
    requires s != "" && !IsSpace(s[0])
    ensures Words(s) != [] && Words(s)[0] != "" && Words(s)[0][0] == s[0]
  {
  }

  lemma NoMethod(name: string, lines: seq<string>)
    requires name != "" && name[0] == 'R' && lines != []
    ensures forall cseq: nat :: Dispatch(name, cseq, lines).Failure?
  {
    assert "OPTIONS"[0] == 'O' && "GET_PARAMETER"[0] == 'G' && "SET_PARAMETER"[0] == 'S' && "SETUP"[0] == 'S' && "PLAY"[0] == 'P'
        && "TEARDOWN"[0] == 'T';
    hide ParseHeader, QueriedNames, AssignedPairs, Collect;
  }

  // ---------- Announced lengths ----------

  predicate NamesLength(line: string) {
    "content-length:" <= Lower(line)
  }

  /** Without a header line that names a length there is no body. */
  lemma {:induction false} NoLengthNoBody(lines: seq<string>)
    requires forall line :: line in lines ==> !NamesLength(line)
    ensures ContentLength(lines) == 0
  {
    hide Lower;
    if lines != [] {
      assert lines[0] in lines && forall line :: line in lines[1..] ==> line in lines;
      NoLengthNoBody(lines[1..]);
    }
  }

  lemma {:induction false} FirstLength(before: seq<string>, line: string, after: seq<string>)
    requires (forall l :: l in before ==> !NamesLength(l)) && NamesLength(line)
    ensures ContentLength(before + ([line] + after)) == ContentLength([line])
  {
    hide Lower, SplitOn, Trim, ParseUnsigned;
    if before == [] {
      assert before + ([line] + after) == [line] + after && ([line] + after)[0] == line;
    } else {
      assert before[0] in before && forall l :: l in before[1..] ==> l in before;
      assert (before + ([line] + after))[0] == before[0] && (before + ([line] + after))[1..] == before[1..] + ([line] + after);
      FirstLength(before[1..], line, after);
    }
  }

  /** Main result: the first header line that names a length decides, in any letter case, when it is a 64-bit number. */
  lemma LengthRead(before: seq<string>, name: string, n: nat, after: seq<string>)
    requires (forall l :: l in before ==> !NamesLength(l)) && Lower(name) == "content-length"
    ensures ContentLength(before + ([name + ": " + Digits(n, 10)] + after)) == if n <= MAX_U64 then n else 0
  {
    var digits := Digits(n, 10);
    var line := name + ": " + digits;
    NoColon(name);
    NumberPlain(n);
    LengthNamed(name, digits);
    hide Lower, SplitOn, Trim, ParseUnsigned, Digits;
    FirstLength(before, line, after);
    LineParts(name, digits);
  }

  lemma NoColon(name: string)
    requires Lower(name) == "content-length"
    ensures ':' !in name
  {
    var lower := "content-length";
    assert ':' !in lower;
    forall i | 0 <= i < |name| ensures name[i] != ':' {
      assert Lower(name)[i] == LowerChar(name[i]) && lower[i] in lower;
    }
  }

  lemma NumberPlain(n: nat)
    ensures ':' !in Digits(n, 10) && Trim(" " + Digits(n, 10)) == Digits(n, 10)
    ensures ParseUnsigned(Digits(n, 10), 10, MAX_U64) == if n <= MAX_U64 then Some(n) else None
  {
    var digits := Digits(n, 10);
    DigitsAreToken(n, 10, 0);
    TokenTrimmed(digits);
    TrimLeadingSpace(digits);
    ValueOfDigits(n, 10);
    assert digits[0] in digits;
    hide Value, Trim;
  }

  lemma LengthNamed(name: string, digits: string)
    requires Lower(name) == "content-length"
    ensures NamesLength(name + ": " + digits)
  {
    LowerAppend(name, ": " + digits);
    LowerAppend(":", " " + digits);
    assert name + ": " + digits == name + (": " + digits) && ": " + digits == ":" + (" " + digits);
    assert Lower(":") == ":" && "content-length" + ":" == "content-length:";
    hide Lower;
    assert Lower(name + ": " + digits) == "content-length:" + Lower(" " + digits);
  }

  lemma LineParts(name: string, digits: string)
    requires ':' !in name && ':' !in digits
    ensures SplitOn(name + ": " + digits, ':') == [name, " " + digits]
  {
    assert name + ": " + digits == name + [':'] + (" " + digits);
    hide SplitOn;
    SplitTwo(name, ':', " " + digits);
  }

  /** A request of header lines alone is one message. */
  lemma HeadersAreMessage(head: seq<string>)
    requires head != [] && HeaderLines(head) && forall line :: line in head ==> !NamesLength(line)
    ensures WellFormed(RequestText(head, ""))
  {
    assert !NamesLength("");
    hide Lower, HeaderLines, WellFormed, NamesLength;
    NoLengthNoBody(head + [""]);
    RequestIsMessage(head, "");
  }

  /** Main result: OPTIONS, SETUP and PLAY are written as one message each. */
  lemma RequestsAreMessages(addr: string, cseq: nat, session: Option<string>, p: nat)
    requires IsAddress(addr) && (session.Some? ==> '\n' !in session.value)
    ensures WellFormed(OptionsRequest(cseq)) && WellFormed(PlayRequest(addr, cseq, session)) && WellFormed(SetupRequest(addr, cseq, session, p))
  {
    OptionsHeadGood(cseq);
    PlayHeadGood(addr, cseq, session);
    SetupHeadGood(addr, cseq, session, p);
    hide HeaderLines, WellFormed, NamesLength, StartLine, CSeqLine, SessionLines, ControlUri, SetupTransport, ClientPorts, RequestText;
    HeadersAreMessage(OptionsHead(cseq));
    HeadersAreMessage([StartLine("PLAY", ControlUri(addr) + "/stream"), CSeqLine(cseq)] + SessionLines(session) + ["Range: npt=0.000-"]);
    HeadersAreMessage([StartLine("SETUP", ControlUri(addr) + "/streamid=0"), CSeqLine(cseq)] + SessionLines(session)
                      + ["Transport: " + SetupTransport(ClientPorts(p))]);
  }

  /** A line that does not start like a length line. */
  lemma OtherLetter(line: string, k: nat)
    requires k < 15 && k < |line| && LowerChar(line[k]) != "content-length:"[k]
    ensures !NamesLength(line) && line != ""
  {
    assert Lower(line)[k] == LowerChar(line[k]);
  }

  lemma OptionsHeadGood(cseq: nat)
    ensures HeaderLines(OptionsHead(cseq)) && forall line :: line in OptionsHead(cseq) ==> !NamesLength(line)
  {
    HeadUnbroken(cseq);
    OtherLetter(StartLine("OPTIONS", "*"), 0);
    OtherLetter(CSeqLine(cseq), 1);
    OtherLetter("Require: org.wfa.wfd1.0", 0);
    OtherLetter("User-Agent: waycast/1.0", 0);
    hide NamesLength, StartLine, CSeqLine;
  }

  lemma SessionGood(session: Option<string>)
    ensures forall line :: line in SessionLines(session) ==> !NamesLength(line) && line != ""
  {
    if session.Some? {
      OtherLetter("Session: " + session.value, 0);
    }
    hide NamesLength;
  }

  lemma PlayHeadGood(addr: string, cseq: nat, session: Option<string>)
    requires IsAddress(addr) && (session.Some? ==> '\n' !in session.value)
    ensures var head := [StartLine("PLAY", ControlUri(addr) + "/stream"), CSeqLine(cseq)] + SessionLines(session) + ["Range: npt=0.000-"];
            HeaderLines(head) && forall line :: line in head ==> !NamesLength(line)
  {
    PlayUnbroken(addr, cseq, session);
    OtherLetter(StartLine("PLAY", ControlUri(addr) + "/stream"), 0);
    OtherLetter(CSeqLine(cseq), 1);
    OtherLetter("Range: npt=0.000-", 0);
    SessionGood(session);
    hide NamesLength, StartLine, CSeqLine, SessionLines, ControlUri;
  }

  lemma SetupHeadGood(addr: string, cseq: nat, session: Option<string>, p: nat)
    requires IsAddress(addr) && (session.Some? ==> '\n' !in session.value)
    ensures var head := [StartLine("SETUP", ControlUri(addr) + "/streamid=0"), CSeqLine(cseq)] + SessionLines(session)
                        + ["Transport: " + SetupTransport(ClientPorts(p))];
            HeaderLines(head) && forall line :: line in head ==> !NamesLength(line)
  {
    SetupHeadUnbroken(addr, cseq, session, p);
    OtherLetter(StartLine("SETUP", ControlUri(addr) + "/streamid=0"), 0);
    OtherLetter(CSeqLine(cseq), 1);
    OtherLetter("Transport: " + SetupTransport(ClientPorts(p)), 0);
    SessionGood(session);
    hide NamesLength, StartLine, CSeqLine, SessionLines, ControlUri, SetupTransport, ClientPorts;
  }

  lemma SetupHeadUnbroken(addr: string, cseq: nat, session: Option<string>, p: nat)
    requires IsAddress(addr) && (session.Some? ==> '\n' !in session.value)
    ensures NoBreaks([StartLine("SETUP", ControlUri(addr) + "/streamid=0"), CSeqLine(cseq)] + SessionLines(session)
                     + ["Transport: " + SetupTransport(ClientPorts(p))])
  {
    var uri := ControlUri(addr) + "/streamid=0";
    UriTokens(addr);
    assert '\n' !in uri;
    assert '\n' !in StartLine("SETUP", uri) by {
      assert '\n' !in "SETUP" && '\n' !in " RTSP/1.0";
    }
    TransportText(p);
    assert "Transport: " + SetupTransport(ClientPorts(p)) == TransportHeader(p);
    hide StartLine, ControlUri, SetupTransport, ClientPorts, TransportHeader;
    SetupBreaks(StartLine("SETUP", uri), cseq, session, TransportHeader(p));
  }
}
