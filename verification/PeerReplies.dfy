/**
 What each request of the sink is recorded as and answered with, read back as a client reads it.
 */
module PeerReplies {
  import opened Wrappers
  import opened Text
  import opened RtspMessages
  import opened RtspSessions
  import opened TransportPorts
  import opened SetupAgreement
  import opened PeerDialogue

  /** Whether a SETUP offers a port that can be read. */
  predicate Offers(transport: Option<string>) {
    OfferedPorts(transport).Some?
  }

  /** Main result: the state recorded by each request; a SETUP with readable ports that follows SET_PARAMETER starts playing. */
  lemma RecordedState(st: State, message: string, c: Choice)
    requires Respond(st, message, c).Success?
    ensures var after := Respond(st, message, c).value.0.peer.state;
            match ParseMessage(message).value
            case Options(_) => after == OptionsReceived
            case GetParameter(_, _) => after == GetParamReceived
            case SetParameter(_, _) => after == SetParamReceived
            case Setup(_, _, transport) => after == if st.peer.state == SetParamReceived && Offers(transport) then Playing else st.peer.state
            case Play(_, _) => after == Playing
            case Teardown(_, _) => after == TornDown
  {
    hide ParseMessage, Store, ParameterAnswer, OfferedPorts, OfferedRtcp, Reply, SetupText, PlayText;
  }

  /** Without a readable offer the range 5004-5005 is named, and the client reads our port and identifier all the same. */
  lemma AnswerWithoutOffer(s: Session, transport: Option<string>, ports: (nat, nat), cseq: nat)
    requires !Offers(transport) && ports.0 <= MAX_U16 && IsPlainId(s.id)
    ensures SetupText(s, transport, ports) == CrLf([TransportLine("5004-5005", ports), SessionLine(s.id)])
    ensures ScanLines(Lines(Reply(cseq, SetupText(s, transport, ports))), SCAN_DEFAULTS) == SetupScan(s.id, ports.0, 30)
  {
    assert IsPorts("5004-5005");
    hide OfferedPorts, TransportLine, SessionLine, Lines, CrLf, Reply, IsPlainId;
    AnswerRead(cseq, s.id, "5004-5005", ports);
  }

  // ---------- Replies of other peers ----------

  lemma SplitFirst(a: string, c: char, b: string)
    requires c !in a
    ensures SplitOn(a + b, c)[0] == a + SplitOn(b, c)[0]
  {
    if c in b {
      var i := IndexOf(b, c);
      var front, rest := b[..i], b[i + 1..];
      assert b == front + [c] + rest && c !in front;
      assert a + b == (a + front) + [c] + rest;
      SplitOnCons(front, c, rest);
      SplitOnCons(a + front, c, rest);
    }
  }

  /** Nothing, or what another field or another transport starts with. */
  predicate IsEnd(s: string) {
    s == "" || s[0] == ';' || s[0] == ','
  }

  lemma UpToEnd(text: string, end: string)
    requires ';' !in text && ',' !in text && IsEnd(end)
    ensures UpToSeparator(text + end) == text
  {
    var first := SplitOn(end, ';')[0];
    SplitFirst(text, ';', end);
    if end != "" && end[0] == ';' {
      assert end == "" + [';'] + end[1..];
      SplitOnCons("", ';', end[1..]);
    } else if end != "" {
      assert end == "," + end[1..];
      SplitFirst(",", ';', end[1..]);
    }
    hide UpToSeparator;
    assert first == "" || first[0] == ',';
    SplitFirst(text, ',', first);
    if first != "" {
      assert first == "" + [','] + first[1..];
      SplitOnCons("", ',', first[1..]);
    }
    assert text + "" == text;
    UpToIs(text + end, text + first);
  }

  lemma UpToIs(section: string, front: string)
    requires SplitOn(section, ';')[0] == front
    ensures UpToSeparator(section) == SplitOn(front, ',')[0]
  {
  }

  /** A port, perhaps with a second one behind a dash. */
  function PortsNamed(p: nat, second: Option<nat>): string {
    match second
    case Some(q) => Digits(p, 10) + "-" + Digits(q, 10)
    case None => Digits(p, 10)
  }

  lemma PortText(p: nat, second: Option<nat>)
    ensures var text := PortsNamed(p, second);
            ';' !in text && ',' !in text && Trim(text) == text && SplitOn(text, '-')[0] == Digits(p, 10)
  {
    var text := PortsNamed(p, second);
    assert IsPorts(text);
    PortsArePlain(text);
    hide Digits, SplitOn, Trim, Lower, IsPorts;
    match second
    case Some(q) => PortsText(p, q);
    case None => AloneBeforeDash(p);
    TrimIdentity(text);
  }

  lemma AloneBeforeDash(p: nat)
    ensures SplitOn(Digits(p, 10), '-')[0] == Digits(p, 10)
  {
    assert '-' !in Digits(p, 10);
    hide Digits;
  }

  /** Main result: of any transport line the client takes the first port behind `server_port=`, whatever follows, when it is one. */
  lemma ServerPortRead(prefix: string, p: nat, second: Option<nat>, end: string, scan: SetupScan)
    requires NoServer(prefix) && IsEnd(end)
    ensures ScanTransport(prefix + (SERVER_PORT + (PortsNamed(p, second) + end)), scan) == if p <= 65535 then scan.(port := p) else scan
  {
    hide *;
    PortText(p, second);
    PortReads(p);
    UpToEnd(PortsNamed(p, second), end);
    FindServerPort(prefix, PortsNamed(p, second) + end);
    BehindServer(prefix, PortsNamed(p, second) + end);
    TransportIs(prefix + (SERVER_PORT + (PortsNamed(p, second) + end)), |prefix|, PortsNamed(p, second), Digits(p, 10), p, scan);
  }

  lemma BehindServer(prefix: string, rest: string)
    ensures |prefix| + 12 <= |prefix + (SERVER_PORT + rest)| && (prefix + (SERVER_PORT + rest))[|prefix| + 12..] == rest
  {
  }

  lemma TransportIs(lower: string, start: nat, text: string, digits: string, p: nat, scan: SetupScan)
    requires Find(lower, SERVER_PORT) == Some(start) && start + 12 <= |lower| && UpToSeparator(lower[start + 12..]) == text
    requires Trim(text) == text && SplitOn(text, '-')[0] == digits
    requires ParseUnsigned(digits, 10, MAX_U16) == if p <= MAX_U16 then Some(p) else None
    ensures ScanTransport(lower, scan) == if p <= 65535 then scan.(port := p) else scan
  {
    hide Find, UpToSeparator, Trim, SplitOn, ParseUnsigned, SERVER_PORT;
  }

  /** The client takes the identifier, and the timeout when one is named. */
  lemma SessionRead(id: string, timeout: nat, scan: SetupScan)
    requires IsPlainId(id) && timeout <= MAX_U32
    ensures ScanLine("Session: " + id, scan) == scan.(sessionId := id)
    ensures ScanLine("Session: " + (id + ";timeout=" + Digits(timeout, 10)), scan) == scan.(sessionId := id, timeout := timeout)
  {
    var digits := Digits(timeout, 10);
    ParsePrinted(timeout, 10, 0, MAX_U32);
    DigitsPlain(timeout);
    IsSessionLine(id);
    IsSessionLine(id + ";timeout=" + digits);
    hide Digits, ParseUnsigned, ScanLine, SplitColon, Lower;
    NoTimeout("Session: " + id, id, scan);
    TimeoutNamed("Session: " + (id + ";timeout=" + digits), id, digits, timeout, scan);
  }

  lemma DigitsPlain(n: nat)
    ensures ';' !in Digits(n, 10) && '=' !in Digits(n, 10) && Trim(Digits(n, 10)) == Digits(n, 10)
    ensures Digits(n, 10) != "" && !IsSpace(Digits(n, 10)[|Digits(n, 10)| - 1])
  {
    var digits := Digits(n, 10);
    assert digits[0] in digits && digits[|digits| - 1] in digits;
    hide Digits;
    TrimIdentity(digits);
  }

  lemma IsSessionLine(value: string)
    ensures var line := "Session: " + value; "session:" <= Lower(line) && ':' in line && SplitColon(line).1 == " " + value
  {
    var line := "Session: " + value;
    assert line == "Session" + [':'] + (" " + value);
    IndexOfIs("Session", ':', " " + value);
    LowerAppend("Session:", " " + value);
    assert line == "Session:" + (" " + value) && Lower("Session:") == "session:";
  }

  lemma NoTimeout(line: string, id: string, scan: SetupScan)
    requires IsPlainId(id) && "session:" <= Lower(line) && ':' in line && SplitColon(line).1 == " " + id
    ensures ScanLine(line, scan) == scan.(sessionId := id)
  {
    hide Lower, SplitColon;
    TrimLeadingSpace(id);
    TrimIdentity(id);
    assert SplitOn(id, ';') == [id] && [id][1..] == [];
    hide Trim, SplitOn;
  }

  lemma TimeoutNamed(line: string, id: string, digits: string, timeout: nat, scan: SetupScan)
    requires IsPlainId(id) && "session:" <= Lower(line) && ':' in line && SplitColon(line).1 == " " + (id + ";timeout=" + digits)
    requires digits != "" && !IsSpace(digits[|digits| - 1]) && ';' !in digits && '=' !in digits && Trim(digits) == digits
    requires ParseUnsigned(digits, 10, MAX_U32) == Some(timeout)
    ensures ScanLine(line, scan) == scan.(sessionId := id, timeout := timeout)
  {
    hide *;
    ValueFields(id, digits);
    FieldParts(digits);
    TrimLeadingSpace(id + ";timeout=" + digits);
    SessionIs(line, id + ";timeout=" + digits, id, "timeout=" + digits, scan);
    OneTimeout("timeout=" + digits, ["timeout", digits], timeout, scan.timeout);
  }

  lemma ValueFields(id: string, digits: string)
    requires IsPlainId(id) && digits != "" && !IsSpace(digits[|digits| - 1]) && ';' !in digits
    ensures var value := id + ";timeout=" + digits; Trim(value) == value && SplitOn(value, ';') == [id, "timeout=" + digits]
    ensures Trim(id) == id
  {
    var value, field := id + ";timeout=" + digits, "timeout=" + digits;
    assert value == id + [';'] + field && ';' !in field;
    assert value[0] == id[0] && value[|value| - 1] == digits[|digits| - 1];
    TrimIdentity(value);
    TrimIdentity(id);
    hide Trim, SplitOn;
    SplitTwo(id, ';', field);
  }

  lemma FieldParts(digits: string)
    requires digits != "" && !IsSpace(digits[|digits| - 1]) && '=' !in digits
    ensures var field := "timeout=" + digits; SplitOn(field, '=') == ["timeout", digits] && "timeout=" <= Trim(field)
  {
    var field := "timeout=" + digits;
    assert field == "timeout" + ['='] + digits && field[0] == 't' && field[|field| - 1] == digits[|digits| - 1];
    TrimIdentity(field);
    hide Trim, SplitOn;
    SplitTwo("timeout", '=', digits);
  }

  lemma SessionIs(line: string, value: string, id: string, field: string, scan: SetupScan)
    requires "session:" <= Lower(line) && ':' in line && SplitColon(line).1 == " " + value && Trim(" " + value) == value
    requires SplitOn(value, ';') == [id, field] && Trim(id) == id
    ensures ScanLine(line, scan) == scan.(sessionId := id, timeout := TimeoutIn([field], scan.timeout))
  {
    hide Lower, SplitColon, Trim, SplitOn, TimeoutIn;
    assert [id, field][1..] == [field];
  }
}
