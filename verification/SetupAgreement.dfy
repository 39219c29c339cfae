/**
 SETUP between the two ends: the client's request read by the responder, and the responder's reply read
 by the client, leave both with each other's port.
 */
module SetupAgreement {
  import opened Wrappers
  import opened Text
  import opened RtspMessages
  import opened RtspSessions
  import opened TransportPorts

  // ---------- The reply and its reader ----------

  /** A reply: the status line, the request's CSeq and the response text, ended by an empty line. */
  function Reply(cseq: nat, response: string): string {
    CrLf(["RTSP/1.0 200 OK", CSeqLine(cseq)]) + (response + "\r\n")
  }

  datatype SetupScan = SetupScan(sessionId: string, port: nat, timeout: nat)

  const SCAN_DEFAULTS := SetupScan("", 5004, 30)

  function TimeoutIn(components: seq<string>, timeout: nat): nat {
    if components == [] then timeout
    else
      var parts := SplitOn(components[0], '=');
      var text := Trim(if |parts| > 1 then parts[1] else "30");
      var parsed := ParseUnsigned(text, 10, MAX_U32);
      TimeoutIn(components[1..], if "timeout=" <= Trim(components[0]) && parsed.Some? then parsed.value else timeout)
  }

  const SERVER_PORT := "server_port="

  /** The part of the section before the first semicolon or comma. */
  function UpToSeparator(section: string): string {
    SplitOn(SplitOn(section, ';')[0], ',')[0]
  }

  function ScanSession(line: string, scan: SetupScan): SetupScan
    requires ':' in line
  {
    var components := SplitOn(Trim(SplitColon(line).1), ';');
    scan.(sessionId := Trim(components[0]), timeout := TimeoutIn(components[1..], scan.timeout))
  }

  function ScanTransport(lower: string, scan: SetupScan): SetupScan {
    match Find(lower, SERVER_PORT)
    case None => scan
    case Some(start) =>
      match ParseUnsigned(SplitOn(Trim(UpToSeparator(lower[start + 12..])), '-')[0], 10, MAX_U16)
      case None => scan
      case Some(port) => scan.(port := port)
  }

  function ScanLine(line: string, scan: SetupScan): SetupScan {
    var lower := Lower(line);
    if "session:" <= lower then
      assert LowerChar(line[7]) == ':' by {
        assert lower[7] == "session:"[7];
      }
      ScanSession(line, scan)
    else if "transport:" <= lower then ScanTransport(lower, scan)
    else scan
  }

  function ScanLines(lines: seq<string>, scan: SetupScan): SetupScan {
    if lines == [] then scan else ScanLines(lines[1..], ScanLine(lines[0], scan))
  }

  method ReadSetupResponse(response: string) returns (scan: SetupScan)
    ensures scan == ScanLines(Lines(response), SCAN_DEFAULTS)
  {
    var lines := Lines(response);
    scan := SCAN_DEFAULTS;
    assert lines[0..] == lines;
    for i := 0 to |lines|
      invariant ScanLines(lines[i..], scan) == ScanLines(lines, SCAN_DEFAULTS)
    {
      assert lines[i..][0] == lines[i] && lines[i..][1..] == lines[i + 1..];
      scan := ScanLine(lines[i], scan);
    }
  }

  // ---------- The request at the responder ----------

  /** A session identifier that survives both headers. */
  predicate IsPlainId(id: string) {
    id != "" && Trimmed(id) && '\n' !in id && ';' !in id
  }

  lemma HeaderAt(lines: seq<string>, header: string, k: nat)
    requires k < |lines| && Lower(header) <= Lower(lines[k]) && |header| < |lines[k]|
    requires forall i :: 0 <= i < k ==> !(Lower(header) <= Lower(lines[i]))
    ensures ParseHeader(lines, header) == Success(Some(Trim(lines[k][|header| + 1..])))
    decreases k
  {
    if k > 0 {
      assert lines[1..][k - 1] == lines[k];
      assert forall i :: 0 <= i < k - 1 ==> lines[1..][i] == lines[i + 1];
      HeaderAt(lines[1..], header, k - 1);
    }
  }

  lemma {:induction false} NoHeader(lines: seq<string>, header: string)
    requires forall line :: line in lines ==> !(Lower(header) <= Lower(line))
    ensures ParseHeader(lines, header) == Success(None)
  {
    if lines != [] {
      NoHeader(lines[1..], header);
    }
  }

  /** A line whose lower-case text differs from the header at some place is not that header's line. */
  lemma NotHeader(line: string, header: string, k: nat)
    requires k < |header| && k < |line| && LowerChar(line[k]) != LowerChar(header[k])
    ensures !(Lower(header) <= Lower(line))
  {
    assert Lower(line)[k] == LowerChar(line[k]) && Lower(header)[k] == LowerChar(header[k]);
  }

  lemma IsHeader(header: string, value: string)
    ensures Lower(header) <= Lower(header + ": " + value) && (header + ": " + value)[|header| + 1..] == " " + value
  {
    LowerAppend(header, ": " + value);
    assert header + ": " + value == header + (": " + value);
  }

  function TransportHeader(p: nat): string {
    "Transport" + ": " + SetupTransport(ClientPorts(p))
  }

  /** Text made of digits and dashes. */
  predicate IsPorts(s: string) {
    s != "" && forall c :: c in s ==> '0' <= c <= '9' || c == '-'
  }

  lemma PortsArePlain(s: string)
    requires IsPorts(s)
    ensures Lower(s) == s && Trimmed(s) && ';' !in s && ',' !in s && '\n' !in s && 's' !in s
  {
    assert s[0] in s && s[|s| - 1] in s;
    forall i | 0 <= i < |s| ensures LowerChar(s[i]) == s[i] {
      assert s[i] in s;
    }
  }

  lemma PortsText(p: nat, q: nat)
    ensures IsPorts(Digits(p, 10) + "-" + Digits(q, 10))
    ensures SplitOn(Digits(p, 10) + "-" + Digits(q, 10), '-') == [Digits(p, 10), Digits(q, 10)]
  {
    var a, b := Digits(p, 10), Digits(q, 10);
    hide Digits;
    SplitTwo(a, '-', b);
    assert a + "-" + b == a + ['-'] + b;
  }

  lemma SplitTwo(a: string, c: char, b: string)
    requires c !in a && c !in b
    ensures SplitOn(a + [c] + b, c) == [a, b]
  {
    SplitOnCons(a, c, b);
  }

  /** The responder finds exactly the offered range, its first port for RTP and its second one for RTCP. */
  lemma TransportFields(p: nat)
    ensures OfferedPorts(Some(SetupTransport(ClientPorts(p)))) == if p <= MAX_U16 then Some((ClientPorts(p), p)) else None
    ensures OfferedRtcp(Some(SetupTransport(ClientPorts(p)))) == if PortAbove(p) != 0 then Some(PortAbove(p)) else None
  {
    var before := ["RTP/AVP/UDP", "unicast"];
    OtherFields();
    assert before + [] == before;
    assert before + ([CLIENT_PORT + ClientPorts(p)] + []) == before + [CLIENT_PORT + ClientPorts(p)]
        == ["RTP/AVP/UDP", "unicast", CLIENT_PORT + ClientPorts(p)];
    assert "" + ((CLIENT_PORT + ClientPorts(p)) + "") == CLIENT_PORT + ClientPorts(p) && ClientPorts(p) + "" == ClientPorts(p);
    hide OfferedPorts, OfferedRtcp, Other, Digits, Join;
    RangeOffered(before, "", p, PortAbove(p), "", []);
  }

  lemma OtherFields()
    ensures Other("RTP/AVP/UDP") && Other("unicast")
  {
    TrimIdentity("RTP/AVP/UDP");
    TrimIdentity("unicast");
    assert CLIENT_PORT[0] == 'c';
  }

  /** The responder reads the request back: its CSeq, its session and the client's transport. */
  lemma SetupRequestParses(addr: string, cseq: nat, session: Option<string>, p: nat)
    requires IsAddress(addr) && cseq <= MAX_U32 && (session.Some? ==> Trimmed(session.value) && '\n' !in session.value)
    ensures ParseMessage(SetupRequest(addr, cseq, session, p))
            == Success(Setup(cseq, session, Some(SetupTransport(ClientPorts(p)))))
  {
    var uri := ControlUri(addr) + "/streamid=0";
    var start, transport := StartLine("SETUP", uri), TransportHeader(p);
    SetupLinesAre(addr, cseq, session, p);
    UriTokens(addr);
    assert IsToken("SETUP");
    hide *;
    SetupNotSession(start, transport);
    SessionHeader(start, cseq, session, transport);
    TransportFound(start, cseq, session, p);
    var lines := [start, CSeqLine(cseq)] + SessionLines(session) + [transport] + [""];
    FirstTwo(start, CSeqLine(cseq), SessionLines(session), transport);
    DispatchSetup(cseq, lines);
    ParseHead("SETUP", uri, cseq, lines);
    ParseText(SetupRequest(addr, cseq, session, p), lines);
  }

  lemma FirstTwo(a: string, b: string, middle: seq<string>, c: string)
    ensures var lines := [a, b] + middle + [c] + [""]; |lines| >= 2 && lines[0] == a && lines[1] == b
  {
  }

  lemma ParseText(text: string, lines: seq<string>)
    requires Lines(text) == lines
    ensures ParseMessage(text) == ParseLines(lines)
  {
  }

  lemma DispatchSetup(cseq: nat, lines: seq<string>)
    requires lines != [] && ParseHeader(lines, "Session").Success? && ParseHeader(lines, "Transport").Success?
    ensures Dispatch("SETUP", cseq, lines)
            == Success(Setup(cseq, ParseHeader(lines, "Session").value, ParseHeader(lines, "Transport").value))
  {
    hide ParseHeader;
  }

  lemma SetupLinesAre(addr: string, cseq: nat, session: Option<string>, p: nat)
    requires IsAddress(addr) && (session.Some? ==> '\n' !in session.value)
    ensures var start := StartLine("SETUP", ControlUri(addr) + "/streamid=0");
            && Lines(SetupRequest(addr, cseq, session, p))
               == [start, CSeqLine(cseq)] + SessionLines(session) + [TransportHeader(p)] + [""]
            && |start| >= 3 && start[0] == 'S' && start[2] == 'T' && TransportHeader(p)[0] == 'T'
  {
    var start := StartLine("SETUP", ControlUri(addr) + "/streamid=0");
    assert |start| >= 3 && start[0] == 'S' && start[2] == 'T';
    assert IsToken("SETUP");
    var header := "Transport: " + SetupTransport(ClientPorts(p));
    assert header == TransportHeader(p);
    var lines := [start, CSeqLine(cseq)] + SessionLines(session) + [header];
    assert SetupRequest(addr, cseq, session, p) == RequestText(lines, "");
    assert lines + [""] + Lines("") == lines + [""];
    hide *;
    UriTokens(addr);
    StartLineWords("SETUP", ControlUri(addr) + "/streamid=0");
    TransportText(p);
    SetupBreaks(start, cseq, session, header);
    RequestLines(lines, "");
  }

  lemma SetupBreaks(start: string, cseq: nat, session: Option<string>, transport: string)
    requires '\n' !in start && '\n' !in transport && (session.Some? ==> '\n' !in session.value)
    ensures NoBreaks([start, CSeqLine(cseq)] + SessionLines(session) + [transport])
  {
  }

  lemma TransportText(p: nat)
    ensures Trimmed(SetupTransport(ClientPorts(p))) && '\n' !in TransportHeader(p) && TransportHeader(p)[0] == 'T'
  {
    var range := ClientPorts(p);
    hide Join, SplitOn, Digits, Lower;
    PortsText(p, PortAbove(p));
    PortsArePlain(range);
    JoinedTransport("RTP/AVP/UDP", "unicast", CLIENT_PORT + range);
    assert '\n' !in "Transport" + ": ";
  }

  lemma JoinedTransport(a: string, b: string, c: string)
    requires a != "" && !IsSpace(a[0]) && c != "" && !IsSpace(c[|c| - 1]) && '\n' !in a && '\n' !in b && '\n' !in c
    ensures Trimmed(Join([a, b, c], ";")) && '\n' !in Join([a, b, c], ";")
  {
    assert [a, b, c][1..] == [b, c] && [b, c][1..] == [c];
    assert Join([b, c], ";") == b + ";" + c;
  }

  lemma SetupNotSession(start: string, transport: string)
    requires |start| >= 3 && start[2] == 'T' && transport != "" && transport[0] == 'T'
    ensures !(Lower("Session") <= Lower(start)) && !(Lower("Session") <= Lower(transport))
  {
    NotHeader(start, "Session", 2);
    NotHeader(transport, "Session", 0);
  }

  lemma SessionHeader(start: string, cseq: nat, session: Option<string>, transport: string)
    requires !(Lower("Session") <= Lower(start)) && !(Lower("Session") <= Lower(transport))
    requires session.Some? ==> Trimmed(session.value)
    ensures ParseHeader([start, CSeqLine(cseq)] + SessionLines(session) + [transport] + [""], "Session") == Success(session)
  {
    var lines := [start, CSeqLine(cseq)] + SessionLines(session) + [transport] + [""];
    NotHeader(CSeqLine(cseq), "Session", 0);
    if session.Some? {
      var id := session.value;
      IsHeader("Session", id);
      assert "Session" + ": " + id == "Session: " + id;
      TrimLeadingSpace(id);
      TrimIdentity(id);
      HeaderAt(lines, "Session", 2);
    } else {
      NoHeader(lines, "Session");
    }
  }

  lemma TransportFound(start: string, cseq: nat, session: Option<string>, p: nat)
    requires start != "" && start[0] == 'S'
    ensures ParseHeader([start, CSeqLine(cseq)] + SessionLines(session) + [TransportHeader(p)] + [""], "Transport")
            == Success(Some(SetupTransport(ClientPorts(p))))
  {
    var text := SetupTransport(ClientPorts(p));
    var lines := [start, CSeqLine(cseq)] + SessionLines(session) + [TransportHeader(p)] + [""];
    NotHeader(start, "Transport", 0);
    NotHeader(CSeqLine(cseq), "Transport", 0);
    if session.Some? {
      NotHeader("Session: " + session.value, "Transport", 0);
    }
    IsHeader("Transport", text);
    TrimLeadingSpace(text);
    TransportText(p);
    TrimIdentity(text);
    HeaderAt(lines, "Transport", |lines| - 2);
  }

  // ---------- The reply at the client ----------

  const HEAD_NAME := "Transport: "
  const HEAD_PROTOCOL := "RTP/AVP/UDP;"
  const HEAD_CAST := "unicast;"

  function TransportHead(): string {
    HEAD_NAME + (HEAD_PROTOCOL + (HEAD_CAST + CLIENT_PORT))
  }

  /** No `s` is followed by an `e`, and the text does not end in `s`: `server_port=` cannot start in it. */
  predicate NoServer(s: string) {
    forall i :: 0 <= i < |s| && s[i] == 's' ==> i + 1 < |s| && s[i + 1] != 'e'
  }

  lemma NoServerAppend(a: string, b: string)
    requires NoServer(a) && NoServer(b)
    ensures NoServer(a + b)
  {
  }

  lemma FindServerPort(prefix: string, rest: string)
    requires NoServer(prefix)
    ensures Find(prefix + (SERVER_PORT + rest), SERVER_PORT) == Some(|prefix|)
  {
    var s := prefix + (SERVER_PORT + rest);
    hide FindFrom;
    assert s[|prefix|..|prefix| + 12] == SERVER_PORT;
    forall i: nat | i < |prefix| ensures !At(s, SERVER_PORT, i) {
      if At(s, SERVER_PORT, i) {
        AtChars(s, SERVER_PORT, i, 0);
        AtChars(s, SERVER_PORT, i, 1);
        assert false;
      }
    }
    FindIs(s, SERVER_PORT, |prefix|);
  }

  lemma NoLetter(s: string)
    requires 's' !in s && 'S' !in s
    ensures NoServer(Lower(s))
  {
    forall i | 0 <= i < |s| ensures Lower(s)[i] != 's' {
      assert s[i] in s;
    }
  }

  lemma HeadPieces()
    ensures NoServer(Lower(HEAD_NAME)) && "transport:" <= Lower(HEAD_NAME)
    ensures NoServer(Lower(HEAD_PROTOCOL)) && NoServer(Lower(HEAD_CAST)) && NoServer(Lower(CLIENT_PORT))
  {
    assert Lower(HEAD_NAME) == "transport: ";
    assert Lower(HEAD_CAST) == "unicast;";
    NoLetter(HEAD_PROTOCOL);
    NoLetter(CLIENT_PORT);
  }

  lemma HeadBreaks()
    ensures '\n' !in TransportHead()
  {
    assert '\n' !in HEAD_NAME && '\n' !in HEAD_PROTOCOL && '\n' !in HEAD_CAST && '\n' !in CLIENT_PORT;
  }

  lemma HeadHasNoServer()
    ensures NoServer(Lower(TransportHead())) && "transport:" <= Lower(TransportHead())
  {
    HeadPieces();
    var a, b, c, d := HEAD_NAME, HEAD_PROTOCOL, HEAD_CAST, CLIENT_PORT;
    hide Lower, NoServer;
    LowerAppend(c, d);
    LowerAppend(b, c + d);
    LowerAppend(a, b + (c + d));
    NoServerAppend(Lower(c), Lower(d));
    NoServerAppend(Lower(b), Lower(c + d));
    NoServerAppend(Lower(a), Lower(b + (c + d)));
  }

  lemma LowerTransportLine(range: string, ports: (nat, nat))
    requires IsPorts(range)
    ensures Lower(TransportLine(range, ports)) == (Lower(TransportHead()) + range + ";") + (SERVER_PORT + PortPair(ports))
    ensures '\n' !in TransportLine(range, ports)
  {
    var pair := PortPair(ports);
    hide Digits, Lower, SplitOn, TransportLine, TransportHead, SERVER_PORT;
    PortsText(ports.0, ports.1);
    assert IsPorts(pair);
    hide *;
    PortsArePlain(range);
    PortsArePlain(pair);
    HeadBreaks();
    TransportLineText(range, ports);
    ServerPlain();
    LowerFive(TransportHead(), range, ";", SERVER_PORT, pair);
    NoBreakInFive(TransportHead(), range, ";", SERVER_PORT, pair);
  }

  lemma ServerPlain()
    ensures Lower(";") == ";" && Lower(SERVER_PORT) == SERVER_PORT && '\n' !in ";" && '\n' !in SERVER_PORT
  {
  }

  lemma NoBreakInFive(a: string, b: string, c: string, d: string, e: string)
    requires '\n' !in a && '\n' !in b && '\n' !in c && '\n' !in d && '\n' !in e
    ensures '\n' !in (a + b + c) + (d + e)
  {
  }

  lemma TransportLineText(range: string, ports: (nat, nat))
    ensures TransportLine(range, ports) == (TransportHead() + range + ";") + (SERVER_PORT + PortPair(ports))
  {
    hide PortPair;
    JoinFour("RTP/AVP/UDP", "unicast", CLIENT_PORT + range, SERVER_PORT + PortPair(ports));
    assert HEAD_PROTOCOL == "RTP/AVP/UDP" + ";" && HEAD_CAST == "unicast" + ";";
    Reassociate(HEAD_NAME, HEAD_PROTOCOL, HEAD_CAST, CLIENT_PORT, range, SERVER_PORT + PortPair(ports));
  }

  lemma Reassociate(a: string, b: string, c: string, d: string, e: string, f: string)
    ensures a + (b + (c + ((d + e) + ";" + f))) == ((a + (b + (c + d))) + e + ";") + f
  {
  }

  lemma LowerFive(a: string, b: string, c: string, d: string, e: string)
    ensures Lower((a + b + c) + (d + e)) == (Lower(a) + Lower(b) + Lower(c)) + (Lower(d) + Lower(e))
  {
    LowerAppend(a, b);
    LowerAppend(a + b, c);
    LowerAppend(d, e);
    LowerAppend(a + b + c, d + e);
  }

  lemma JoinFour(a: string, b: string, c: string, d: string)
    ensures Join([a, b, c, d], ";") == a + ";" + (b + ";" + (c + ";" + d))
  {
    assert [a, b, c, d][1..] == [b, c, d] && [b, c, d][1..] == [c, d] && [c, d][1..] == [d];
    assert Join([c, d], ";") == c + ";" + d;
    assert Join([b, c, d], ";") == b + ";" + Join([c, d], ";");
  }

  /** The client takes the first server port of the reply's transport. */
  lemma ScanTransportLine(range: string, ports: (nat, nat), scan: SetupScan)
    requires IsPorts(range) && ports.0 <= MAX_U16
    ensures ScanLine(TransportLine(range, ports), scan) == scan.(port := ports.0)
  {
    var prefix := Lower(TransportHead()) + range + ";";
    LowerTransportLine(range, ports);
    PortsArePlain(range);
    HeadHasNoServer();
    NoServerAppend(Lower(TransportHead()), range);
    NoServerAppend(Lower(TransportHead()) + range, ";");
    ScanFound(TransportLine(range, ports), prefix, ports, scan);
  }

  lemma ScanFound(line: string, prefix: string, ports: (nat, nat), scan: SetupScan)
    requires Lower(line) == prefix + (SERVER_PORT + PortPair(ports)) && NoServer(prefix) && "transport:" <= prefix
    requires ports.0 <= MAX_U16
    ensures ScanLine(line, scan) == scan.(port := ports.0)
  {
    hide Lower, PortPair, FindFrom, UpToSeparator;
    FindServerPort(prefix, PortPair(ports));
    ScanPair(ports);
    assert Lower(line)[|prefix| + 12..] == PortPair(ports);
    assert "transport:"[0] == 't' && Lower(line)[0] == prefix[0];
  }

  lemma ScanPair(ports: (nat, nat))
    requires ports.0 <= MAX_U16
    ensures ParseUnsigned(SplitOn(Trim(UpToSeparator(PortPair(ports))), '-')[0], 10, MAX_U16) == Some(ports.0)
  {
    var pair := PortPair(ports);
    PortsText(ports.0, ports.1);
    PortsArePlain(pair);
    assert SplitOn(pair, ';') == [pair] && SplitOn(pair, ',') == [pair];
    TrimIdentity(pair);
    PortReads(ports.0);
  }

  lemma OneTimeout(component: string, parts: seq<string>, t: nat, timeout: nat)
    requires SplitOn(component, '=') == parts && |parts| == 2 && "timeout=" <= Trim(component)
    requires ParseUnsigned(Trim(parts[1]), 10, MAX_U32) == Some(t)
    ensures TimeoutIn([component], timeout) == t
  {
    hide SplitOn, Trim, ParseUnsigned;
    assert [component][1..] == [];
    assert TimeoutIn([], t) == t;
  }

  lemma ParseThirty()
    ensures ParseUnsigned(Trim("30"), 10, MAX_U32) == Some(30)
  {
    TrimIdentity("30");
    assert Digits(3, 10) == "3";
    assert Digits(30, 10) == "30";
    ParsePrinted(30, 10, 0, MAX_U32);
  }

  lemma TimeoutFields()
    ensures SplitOn("timeout=30", '=') == ["timeout", "30"]
  {
    SplitTwo("timeout", '=', "30");
    assert "timeout=30" == "timeout" + ['='] + "30";
  }

  lemma TimeoutTrimmed()
    ensures "timeout=" <= Trim("timeout=30")
  {
    TrimIdentity("timeout=30");
  }

  lemma SplitTimeout()
    ensures TimeoutIn(["timeout=30"], 30) == 30
  {
    hide *;
    TimeoutFields();
    TimeoutTrimmed();
    ParseThirty();
    OneTimeout("timeout=30", ["timeout", "30"], 30, 30);
  }

  lemma SessionText(id: string)
    ensures SessionLine(id) == "Session" + [':'] + (" " + (id + ";timeout=30"))
    ensures SessionLine(id) == "Session" + ": " + (id + ";timeout=30")
    ensures '\n' !in id ==> '\n' !in SessionLine(id)
  {
    assert '\n' !in "Session: " && '\n' !in ";timeout=30";
  }

  lemma SessionValue(id: string)
    requires IsPlainId(id)
    ensures Trim(id + ";timeout=30") == id + ";timeout=30" && SplitOn(id + ";timeout=30", ';') == [id, "timeout=30"]
  {
    var value := id + ";timeout=30";
    assert value[0] == id[0] && value[|value| - 1] == '0';
    TrimIdentity(value);
    assert value == id + [';'] + "timeout=30" && ';' !in "timeout=30";
    SplitTwo(id, ';', "timeout=30");
  }

  /** The client takes the session identifier and the timeout of the reply's session line. */
  lemma ScanSessionLine(id: string, scan: SetupScan)
    requires IsPlainId(id) && scan.timeout == 30
    ensures ScanLine(SessionLine(id), scan) == scan.(sessionId := id)
  {
    var value := id + ";timeout=30";
    SessionText(id);
    IndexOfIs("Session", ':', " " + value);
    IsHeader("Session", value);
    assert Lower("Session") == "session" && Lower("Session:") == "session:";
    LowerAppend("Session:", " " + value);
    assert SessionLine(id) == "Session:" + (" " + value);
    ScanSessionFields(SessionLine(id), id, scan);
  }

  lemma ScanSessionFields(line: string, id: string, scan: SetupScan)
    requires IsPlainId(id) && scan.timeout == 30 && "session:" <= Lower(line)
    requires ':' in line && SplitColon(line).1 == " " + (id + ";timeout=30")
    ensures ScanLine(line, scan) == scan.(sessionId := id)
  {
    hide Lower, SplitColon, SplitOn, TimeoutIn;
    SessionValue(id);
    TrimLeadingSpace(id + ";timeout=30");
    TrimIdentity(id);
    SplitTimeout();
    assert [id, "timeout=30"][1..] == ["timeout=30"];
  }

  // ---------- Agreement ----------

  lemma ReplyLines(cseq: nat, id: string, range: string, ports: (nat, nat))
    requires IsPorts(range) && '\n' !in id
    ensures Lines(Reply(cseq, SetupAnswer(id, range, ports)))
            == ["RTSP/1.0 200 OK", CSeqLine(cseq)] + ([TransportLine(range, ports), SessionLine(id)] + [""])
  {
    var head, answer := ["RTSP/1.0 200 OK", CSeqLine(cseq)], [TransportLine(range, ports), SessionLine(id)];
    LowerTransportLine(range, ports);
    SessionText(id);
    CSeqBreaks(cseq);
    OneBlankLine();
    hide CSeqLine, TransportLine, SessionLine, Lines, CrLf, NoBreaks;
    TwoUnbroken("RTSP/1.0 200 OK", CSeqLine(cseq));
    TwoUnbroken(TransportLine(range, ports), SessionLine(id));
    CrLfLines(answer, "\r\n");
    CrLfLines(head, CrLf(answer) + "\r\n");
  }

  lemma TwoUnbroken(a: string, b: string)
    requires '\n' !in a && '\n' !in b
    ensures NoBreaks([a, b])
  {
  }

  lemma CSeqBreaks(cseq: nat)
    ensures '\n' !in "RTSP/1.0 200 OK" && '\n' !in CSeqLine(cseq)
  {
  }

  lemma OneBlankLine()
    ensures Lines("\r\n") == [""]
  {
    NoLines();
    hide Lines;
    LinesConsCRLF("", "");
    assert "" + "\r\n" + "" == "\r\n";
  }

  lemma Irrelevant(cseq: nat, scan: SetupScan)
    ensures ScanLine("RTSP/1.0 200 OK", scan) == scan && ScanLine(CSeqLine(cseq), scan) == scan && ScanLine("", scan) == scan
  {
    assert Lower("RTSP/1.0 200 OK")[0] == 'r' && Lower(CSeqLine(cseq))[0] == 'c';
    assert "session:"[0] == 's' && "transport:"[0] == 't';
  }

  lemma ScanFive(a: string, b: string, c: string, d: string, e: string, scan: SetupScan)
    ensures ScanLines([a, b] + ([c, d] + [e]), scan)
            == ScanLine(e, ScanLine(d, ScanLine(c, ScanLine(b, ScanLine(a, scan)))))
  {
    hide ScanLine;
    var lines := [a, b] + ([c, d] + [e]);
    assert lines[1..] == [b, c, d, e] && lines[1..][1..] == [c, d, e];
    assert [b, c, d, e][1..] == [c, d, e] && [c, d, e][1..] == [d, e] && [d, e][1..] == [e] && [e][1..] == [];
    var s3 := ScanLine(c, ScanLine(b, ScanLine(a, scan)));
    assert ScanLines([e], ScanLine(d, s3)) == ScanLine(e, ScanLine(d, s3));
    assert ScanLines([d, e], s3) == ScanLines([e], ScanLine(d, s3));
    assert ScanLines([c, d, e], ScanLine(b, ScanLine(a, scan))) == ScanLines([d, e], s3);
    assert ScanLines([b, c, d, e], ScanLine(a, scan)) == ScanLines([c, d, e], ScanLine(b, ScanLine(a, scan)));
  }

  /**
   Main result: for every port (65535 in builds that wrap) and every source pair, after SETUP the responder's RTP
   destination is the client's port, and the client holds the source's RTP port, the session
   identifier and the timeout 30; the RTCP port that the responder authorizes is the one above the client's port.
   */
  lemma SetupAgrees(addr: string, cseq: nat, session: Option<string>, p: nat, peer: Session, ports: (nat, nat))
    requires IsAddress(addr) && cseq <= MAX_U32 && (session.Some? ==> Trimmed(session.value) && '\n' !in session.value)
    requires p <= MAX_U16 && ports.0 <= MAX_U16 && IsPlainId(peer.id)
    ensures var request := ParseMessage(SetupRequest(addr, cseq, session, p));
            && request.Success? && request.value.Setup? && request.value.cseq == cseq && request.value.session == session
            && AfterSetup(peer, request.value.transport).rtpPort == Some(p)
            && OfferedRtcp(request.value.transport) == (if p < 65535 then Some(p + 1) else None)
            && ScanLines(Lines(Reply(cseq, SetupText(peer, request.value.transport, ports))), SCAN_DEFAULTS)
               == SetupScan(peer.id, ports.0, 30)
  {
    SetupRequestParses(addr, cseq, session, p);
    hide *;
    RequestServed(p, peer, ports);
    AnswerRead(cseq, peer.id, ClientPorts(p), ports);
  }

  lemma RequestServed(p: nat, peer: Session, ports: (nat, nat))
    requires p <= MAX_U16
    ensures var transport := Some(SetupTransport(ClientPorts(p)));
            && AfterSetup(peer, transport).rtpPort == Some(p)
            && OfferedRtcp(transport) == (if p < 65535 then Some(p + 1) else None)
            && SetupText(peer, transport, ports) == SetupAnswer(peer.id, ClientPorts(p), ports)
    ensures IsPorts(ClientPorts(p))
  {
    TransportFields(p);
    PortsText(p, PortAbove(p));
    hide OfferedPorts, OfferedRtcp, SetupTransport, SetupAnswer, Digits;
  }

  /** The client reads the answer to SETUP. */
  lemma AnswerRead(cseq: nat, id: string, range: string, ports: (nat, nat))
    requires IsPorts(range) && ports.0 <= MAX_U16 && IsPlainId(id)
    ensures ScanLines(Lines(Reply(cseq, SetupAnswer(id, range, ports))), SCAN_DEFAULTS) == SetupScan(id, ports.0, 30)
  {
    hide *;
    PlainIdBreaks(id);
    ReplyLines(cseq, id, range, ports);
    ScanFive("RTSP/1.0 200 OK", CSeqLine(cseq), TransportLine(range, ports), SessionLine(id), "", SCAN_DEFAULTS);
    Irrelevant(cseq, SCAN_DEFAULTS);
    Defaults();
    ScanTransportLine(range, ports, SCAN_DEFAULTS);
    var scan := SetupScan("", ports.0, 30);
    ScanSessionLine(id, scan);
    Irrelevant(cseq, scan.(sessionId := id));
  }

  lemma Defaults()
    ensures SCAN_DEFAULTS == SetupScan("", 5004, 30)
  {
  }

  lemma PlainIdBreaks(id: string)
    requires IsPlainId(id)
    ensures '\n' !in id
  {
  }
}
