/**
 The peer's side of an RTSP session: what each request does to the session record and what is
 answered, and the agreement that SETUP reaches between the two ends.
 */
module RtspSessions {
  import opened Wrappers
  import opened Text
  import opened RtspMessages

  datatype SessionState = Init | OptionsReceived | GetParamReceived | SetParamReceived | Ready | Playing | TornDown

  datatype Capability =
    ClientRtpPorts | VideoFormats | AudioCodecs | DisplayEdid | CoupledSink | Uibc | StandbyResume | ContentProtection

  /** The capability a parameter name reads and writes, with the misspellings that are tolerated. */
  function CapabilityOf(name: string): Option<Capability> {
    if name == "wfd_client_rtp_ports" || name == "wfd_client_rtp_port" then Some(ClientRtpPorts)
    else if name == "wfd_video_formats" || name == "wfd_video_format" then Some(VideoFormats)
    else if name == "wfd_audio_codecs" || name == "wfd_audio_codec" then Some(AudioCodecs)
    else if name == "wfd_display_edid" then Some(DisplayEdid)
    else if name == "wfd_coupled_sink" then Some(CoupledSink)
    else if name == "wfd_uibc_capability" || name == "wfd_uibc_capabilit" then Some(Uibc)
    else if name == "wfd_standby_resume_capability" then Some(StandbyResume)
    else if name == "wfd_content_protection" then Some(ContentProtection)
    else None
  }

  const IDR_REQUEST := "wfd_idr_request"

  /** What is answered for a capability that is not set; only the correctly spelt names have a default. */
  function DefaultValue(name: string): Option<string> {
    if name == "wfd_video_formats" then Some("38 00 01 04 00000080 00000000 00000000 00 0000 0000 00 none none")
    else if name == "wfd_audio_codecs" then Some("AAC 00000001 00")
    else if name == "wfd_client_rtp_ports" then Some("RTP/UDP")
    else if name == "wfd_display_edid" then Some("")
    else if name == "wfd_uibc_capability" || name == "wfd_standby_resume_capability"
            || name == "wfd_content_protection" || name == "wfd_coupled_sink" then Some("none")
    else None
  }

  /** The session record as a value. */
  datatype Session = Session(
    id: string,
    state: SessionState,
    capabilities: map<Capability, string>,
    parameters: map<string, string>,
    rtpPort: Option<nat>)

  // ---------- What each request answers ----------

  const PUBLIC := "Public: org.wfa.wfd1.0, OPTIONS, DESCRIBE, GET_PARAMETER, PAUSE, PLAY, SETUP, SET_PARAMETER, TEARDOWN\r\n"
  const OK_LINE := "200 OK\r\n"

  function ParameterLine(name: string, value: string): string {
    name + ": " + value + "\r\n"
  }

  function ParameterAnswer(capabilities: map<Capability, string>, names: seq<string>): Result<string, RtspError> {
    if names == [] then Success("")
    else
      match CapabilityOf(names[0])
      case None => Failure(InvalidParameter(names[0]))
      case Some(capability) =>
        match ParameterAnswer(capabilities, names[1..])
        case Failure(error) => Failure(error)
        case Success(rest) =>
          if capability in capabilities then Success(ParameterLine(names[0], capabilities[capability]) + rest)
          else
            match DefaultValue(names[0])
            case Some(value) => Success(ParameterLine(names[0], value) + rest)
            case None => Success(rest)
  }

  /** Storing assignments one by one, stopping at the first unknown name. */
  function Store(s: Session, pairs: seq<(string, string)>): (Session, Option<RtspError>)
    decreases |pairs|
  {
    if pairs == [] then (s, None)
    else
      var (name, value) := pairs[0];
      match CapabilityOf(name)
      case Some(capability) =>
        Store(s.(capabilities := s.capabilities[capability := value], parameters := s.parameters[name := value]), pairs[1..])
      case None =>
        if name == IDR_REQUEST then Store(s.(parameters := s.parameters[name := value]), pairs[1..])
        else (s, Some(InvalidParameter(name)))
  }

  /** The text after `client_port=` of the first transport field that starts with it. */
  function ClientPortRange(fields: seq<string>): Option<string> {
    if fields == [] then None
    else if CLIENT_PORT <= fields[0] then Some(fields[0][12..])
    else ClientPortRange(fields[1..])
  }

  /** The client's port range and RTP port, when the transport offers a parseable one. */
  function OfferedPorts(transport: Option<string>): Option<(string, nat)> {
    match transport
    case None => None
    case Some(text) =>
      match ClientPortRange(SplitOn(text, ';'))
      case None => None
      case Some(range) =>
        match ParseUnsigned(SplitOn(range, '-')[0], 10, MAX_U16)
        case None => None
        case Some(port) => Some((range, port))
  }

  /** The text behind `client_port=` of the first transport field that has it after trimming. */
  function TrimmedPortRange(fields: seq<string>): Option<string> {
    if fields == [] then None
    else if CLIENT_PORT <= Trim(fields[0]) then Some(Trim(fields[0])[12..])
    else TrimmedPortRange(fields[1..])
  }

  /** The sink's RTCP port: what follows the first dash of its port range, when that is a non-zero port. */
  function OfferedRtcp(transport: Option<string>): Option<nat> {
    match transport
    case None => None
    case Some(text) =>
      match TrimmedPortRange(SplitOn(text, ';'))
      case None => None
      case Some(range) =>
        if '-' !in range then None
        else
          match ParseUnsigned(range[IndexOf(range, '-') + 1..], 10, MAX_U16)
          case Some(port) => if port != 0 then Some(port) else None
          case None => None
  }

  function PortPair(ports: (nat, nat)): string {
    Digits(ports.0, 10) + "-" + Digits(ports.1, 10)
  }

  function TransportLine(range: string, ports: (nat, nat)): string {
    "Transport: " + Join(["RTP/AVP/UDP", "unicast", CLIENT_PORT + range, "server_port=" + PortPair(ports)], ";")
  }

  function SessionLine(id: string): string {
    "Session: " + id + ";timeout=30"
  }

  function SetupAnswer(id: string, range: string, ports: (nat, nat)): string {
    CrLf([TransportLine(range, ports), SessionLine(id)])
  }

  function AfterSetup(s: Session, transport: Option<string>): Session {
    match OfferedPorts(transport)
    case None => s
    case Some((_, port)) => s.(rtpPort := Some(port), state := if s.state == SetParamReceived then Playing else s.state)
  }

  function SetupText(s: Session, transport: Option<string>, ports: (nat, nat)): string {
    match OfferedPorts(transport)
    case None => SetupAnswer(s.id, "5004-5005", ports)
    case Some((range, _)) => SetupAnswer(s.id, range, ports)
  }

  function PlayText(s: Session): string {
    (if ClientRtpPorts in s.capabilities
     then "RTP-Info: url=rtsp://localhost:8554/stream;" + s.capabilities[ClientRtpPorts] + "/trackID=1;seq=123456;rtptime=123456789\r\n"
     else "RTP-Info: url=rtsp://localhost:8554/stream/trackID=1;seq=123456;rtptime=123456789\r\n")
    + "Session: " + s.id + "\r\n"
  }

  class RtspSession {
    const id: string
    var state: SessionState
    var capabilities: map<Capability, string>
    var parameters: map<string, string>
    var rtpPort: Option<nat>

    function Value(): Session
      reads this
    {
      Session(id, state, capabilities, parameters, rtpPort)
    }

    constructor (id: string, capabilities: map<Capability, string>)
      ensures Value() == Session(id, Init, capabilities, map[], None)
    {
      this.id, this.capabilities := id, capabilities;
      state, parameters, rtpPort := Init, map[], None;
    }

    method ProcessOptions() returns (response: string)
      modifies this
      ensures Value() == old(Value()).(state := OptionsReceived) && response == PUBLIC
    {
      state := OptionsReceived;
      response := PUBLIC;
    }

    method ProcessGetParameter(names: seq<string>) returns (r: Result<string, RtspError>)
      modifies this
      ensures r == ParameterAnswer(old(capabilities), names)
      ensures Value() == if r.Success? then old(Value()).(state := GetParamReceived) else old(Value())
    {
      var response := "";
      assert names[0..] == names && forall rest: string :: "" + rest == rest;
      for i := 0 to |names|
        invariant unchanged(this)
        invariant match ParameterAnswer(capabilities, names[i..])
                  case Success(rest) => ParameterAnswer(capabilities, names) == Success(response + rest)
                  case Failure(error) => ParameterAnswer(capabilities, names) == Failure(error)
      {
        var name := names[i];
        assert names[i..][0] == name && names[i..][1..] == names[i + 1..];
        ghost var before := response;
        match CapabilityOf(name)
        case None => return Failure(InvalidParameter(name));
        case Some(capability) =>
          if capability in capabilities {
            response := response + ParameterLine(name, capabilities[capability]);
          } else if DefaultValue(name).Some? {
            response := response + ParameterLine(name, DefaultValue(name).value);
          }
          ConcatAssociative(before, ParameterLine(name, if capability in capabilities then capabilities[capability] else
                              if DefaultValue(name).Some? then DefaultValue(name).value else ""));
      }
      assert names[|names|..] == [] && response + "" == response;
      state := GetParamReceived;
      return Success(response);
    }

    /** The map is iterated in some order, which decides which of two spellings of a name wins. */
    method ProcessSetParameter(params: map<string, string>) returns (r: Result<string, RtspError>, ghost order: seq<(string, string)>)
      modifies this
      ensures forall p :: p in order ==> p.0 in params && params[p.0] == p.1
      ensures var (after, error) := Store(old(Value()), order);
              match error
              case None => Permutes(order, params) && r == Success(OK_LINE) && Value() == after.(state := SetParamReceived)
              case Some(e) => r == Failure(e) && Value() == after
    {
      var left := params.Keys;
      order := [];
      while left != {}
        invariant left <= params.Keys && |order| + |left| == |params.Keys|
        invariant forall p :: p in order ==> p.0 in params && params[p.0] == p.1
        invariant forall k :: k in params && k !in left ==> (k, params[k]) in order
        invariant Store(old(Value()), order) == (Value(), None)
        decreases left
      {
        var name :| name in left;
        left := left - {name};
        StoreNext(old(Value()), order, (name, params[name]));
        StoreOne(Value(), name, params[name]);
        order := order + [(name, params[name])];
        var capability := CapabilityOf(name);
        if capability.Some? {
          capabilities := capabilities[capability.value := params[name]];
        } else if name != IDR_REQUEST {
          return Failure(InvalidParameter(name)), order;
        }
        parameters := parameters[name := params[name]];
      }
      state := SetParamReceived;
      return Success(OK_LINE), order;
    }

    method ProcessSetup(transport: Option<string>, ports: (nat, nat)) returns (response: string)
      modifies this
      ensures Value() == AfterSetup(old(Value()), transport) && response == SetupText(old(Value()), transport, ports)
    {
      var offered := OfferedPorts(transport);
      if offered.Some? {
        rtpPort := Some(offered.value.1);
        if state == SetParamReceived {
          state := Playing;
        }
        return SetupAnswer(id, offered.value.0, ports);
      }
      return SetupAnswer(id, "5004-5005", ports);
    }

    method ProcessPlay() returns (response: string)
      modifies this
      ensures Value() == old(Value()).(state := Playing) && response == PlayText(old(Value()))
    {
      state := Playing;
      response := PlayText(Value());
    }

    method ProcessTeardown() returns (response: string)
      modifies this
      ensures Value() == old(Value()).(state := TornDown) && response == OK_LINE
    {
      state := TornDown;
      response := OK_LINE;
    }
  }

  lemma ConcatAssociative(a: string, b: string)
    ensures forall c: string :: (a + b) + c == a + (b + c)
  {
  }

  lemma StoreOne(s: Session, name: string, value: string)
    ensures Store(s, [(name, value)])
            == match CapabilityOf(name)
               case Some(c) => (s.(capabilities := s.capabilities[c := value], parameters := s.parameters[name := value]), None)
               case None => if name == IDR_REQUEST then (s.(parameters := s.parameters[name := value]), None)
                            else (s, Some(InvalidParameter(name)))
  {
    hide CapabilityOf;
    assert [(name, value)][1..] == [];
  }

  lemma {:induction false} StoreNext(s: Session, pairs: seq<(string, string)>, p: (string, string))
    requires Store(s, pairs).1.None?
    ensures Store(s, pairs + [p]) == Store(Store(s, pairs).0, [p])
    decreases |pairs|
  {
    if pairs == [] {
      assert pairs + [p] == [p];
    } else {
      assert (pairs + [p])[1..] == pairs[1..] + [p];
      var (name, value) := pairs[0];
      var next := match CapabilityOf(name)
        case Some(capability) =>
          s.(capabilities := s.capabilities[capability := value], parameters := s.parameters[name := value])
        case None => s.(parameters := s.parameters[name := value]);
      StoreNext(next, pairs[1..], p);
    }
  }
}
