/** The driver of the control connection: it sends our requests and answers the sink's. */
module RtspClients {
  import opened Wrappers
  import opened Text
  import opened RtspMessages
  import opened RtspSessions
  import opened SetupAgreement
  import opened Framing
  import opened PeerDialogue

  /** The numbers of our requests grow along the trace and are at most `cseq`. */
  ghost predicate Numbered(trace: seq<Event>, cseq: nat) {
    && (forall i, j :: 0 <= i < j < |trace| && trace[i].Sent? && trace[j].Sent? ==> trace[i].cseq < trace[j].cseq)
    && (forall i :: 0 <= i < |trace| && trace[i].Sent? ==> trace[i].cseq <= cseq)
  }

  ghost predicate NoneSent(events: seq<Event>) {
    forall e :: e in events ==> !e.Sent?
  }

  lemma NumberedAppend(trace: seq<Event>, events: seq<Event>, cseq: nat)
    requires Numbered(trace, cseq) && NoneSent(events)
    ensures Numbered(trace + events, cseq)
  {
    assert forall i :: 0 <= i < |events| ==> (trace + events)[|trace| + i] == events[i] && events[i] in events;
  }

  lemma NumberedNext(trace: seq<Event>, cseq: nat, text: string)
    requires Numbered(trace, cseq)
    ensures Numbered(trace, cseq + 1) && Numbered(trace + [Sent(cseq + 1, text)], cseq + 1)
  {
  }

  lemma {:induction false} EventsSendNothing(auth: bool, st: State, xs: seq<Exchange>)
    ensures NoneSent(Events(auth, st, xs))
    decreases |xs|
  {
    if xs != [] {
      StepSendsNothing(auth, st, xs[0]);
      if Step(st, xs[0]).Success? {
        EventsSendNothing(auth, Step(st, xs[0]).value, xs[1..]);
      }
    }
  }

  lemma StepSendsNothing(auth: bool, st: State, x: Exchange)
    ensures NoneSent(StepEvents(auth, st, x))
  {
    hide Respond, IsSetup;
  }

  ghost predicate NoneIgnored(events: seq<Event>) {
    forall e :: e in events ==> !e.Ignored?
  }

  /** A dialogue of requests ignores nothing. */
  lemma {:induction false} RequestsOnly(auth: bool, st: State, xs: seq<Exchange>)
    requires forall x :: x in xs ==> !(STATUS <= x.message)
    ensures NoneIgnored(Events(auth, st, xs))
    decreases |xs|
  {
    hide STATUS;
    if xs != [] {
      assert xs[0] in xs && forall x :: x in xs[1..] ==> x in xs;
      StepOfRequest(auth, st, xs[0]);
      hide StepEvents;
      if Step(st, xs[0]).Success? {
        RequestsOnly(auth, Step(st, xs[0]).value, xs[1..]);
      }
    }
  }

  lemma StepOfRequest(auth: bool, st: State, x: Exchange)
    requires !(STATUS <= x.message)
    ensures NoneIgnored(StepEvents(auth, st, x))
  {
    hide Respond, IsSetup, STATUS;
  }

  // ---------- The trace and the bytes ----------

  /** The new part of the trace is what was cut from the stream, message by message, and what was written to it. */
  ghost predicate Moved(trace: seq<Event>, trace': seq<Event>, pending: string, pending': string, written: string, written': string) {
    && trace <= trace'
    && Framed(pending, Incoming(trace'[|trace|..]), pending')
    && written' == written + Written(trace'[|trace|..])
  }

  lemma MovedTwice(trace: seq<Event>, trace': seq<Event>, trace'': seq<Event>, pending: string, pending': string, pending'': string,
                   written: string, written': string, written'': string)
    requires Moved(trace, trace', pending, pending', written, written') && Moved(trace', trace'', pending', pending'', written', written'')
    ensures Moved(trace, trace'', pending, pending'', written, written'')
  {
    Gains(trace, trace', trace'');
    hide Framed, Incoming, Written;
    BytesTwice(trace'[|trace|..], trace''[|trace'|..], pending, pending', pending'', written);
  }

  lemma BytesTwice(a: seq<Event>, b: seq<Event>, pending: string, pending': string, pending'': string, written: string)
    requires Framed(pending, Incoming(a), pending') && Framed(pending', Incoming(b), pending'')
    ensures Framed(pending, Incoming(a + b), pending'') && written + Written(a) + Written(b) == written + Written(a + b)
  {
    hide *;
    FramedAppend(pending, Incoming(a), pending', Incoming(b), pending'');
    IncomingAppend(a, b);
    WrittenAppend(a, b);
    Associates(written, Written(a), Written(b));
  }

  lemma Associates(a: string, b: string, c: string)
    ensures a + b + c == a + (b + c)
  {
  }

  lemma Gains(a: seq<Event>, b: seq<Event>, c: seq<Event>)
    requires a <= b <= c
    ensures a <= c && c[|a|..] == b[|a|..] + c[|b|..]
  {
  }

  lemma ServedMoves(auth: bool, st: State, xs: seq<Exchange>, after: State, input: string, left: string,
                    events: seq<Event>, output: string, trace: seq<Event>, written: string)
    requires Served(auth, st, xs, after, input, left, events, output)
    ensures Moved(trace, trace + events, input, left, written, written + output)
  {
    hide Run, Events, Framed, Incoming, Written, Possible;
    EventsIncoming(auth, st, xs);
    assert (trace + events)[|trace|..] == events;
  }

  lemma ResponseMoves(trace: seq<Event>, pending: string, response: string, left: string, written: string)
    requires Frame(pending) == Success((response, left))
    ensures Moved(trace, trace + [Response(response)], pending, left, written, written)
  {
    hide Frame;
    FramedOne(pending, response, left);
    IncomingOne(Response(response));
    WrittenOne(Response(response));
    assert (trace + [Response(response)])[|trace|..] == [Response(response)];
  }

  lemma SentMoves(trace: seq<Event>, pending: string, cseq: nat, text: string, written: string)
    ensures Moved(trace, trace + [Sent(cseq, text)], pending, pending, written, written + text)
  {
    hide Frame;
    IncomingOne(Sent(cseq, text));
    WrittenOne(Sent(cseq, text));
    assert (trace + [Sent(cseq, text)])[|trace|..] == [Sent(cseq, text)];
  }

  lemma WrittenOne(e: Event)
    ensures Written([e]) == match e case Wrote(text) => text case Sent(_, text) => text case _ => ""
  {
    assert [e][1..] == [];
  }

  function HostOf(addr: string): string {
    SplitOn(addr, ':')[0]
  }

  /** Of an address with a port it is the part before the colon. */
  lemma HostOfAddress(host: string, port: string)
    requires ':' !in host
    ensures HostOf(host + ":" + port) == host
  {
    assert host + ":" + port == host + [':'] + port;
    SplitOnCons(host, ':', port);
  }

  /** The parameters of a GET_PARAMETER response: the lines with a colon whose name starts with `wfd_`. */
  function ResponsePairs(lines: seq<string>): seq<(string, string)> {
    if lines == [] then []
    else
      var rest := ResponsePairs(lines[1..]);
      if ':' !in lines[0] then rest
      else
        var (name, value) := (Trim(SplitColon(lines[0]).0), Trim(SplitColon(lines[0]).1));
        if WFD <= name then [(name, value)] + rest else rest
  }

  class RtspClient {
    const serverAddr: string
    const authorizer: bool
    /** Whether the build checks arithmetic for overflow; release builds wrap. */
    const checked: bool
    const stream: TcpStream
    const peer: RtspSession
    var sessionId: Option<string>
    var cseq: nat
    var media: Option<MediaTransport>
    ghost var trace: seq<Event>

    ghost predicate Valid()
      reads this
    {
      Numbered(trace, cseq) && (media.Some? ==> IsPortPair(media.value.Pair()))
    }

    /** What the trace has gained is what was read from the stream and written to it meanwhile. */
    twostate predicate Moves()
      reads this, stream
    {
      Moved(old(trace), trace, old(stream.pending), stream.pending, old(stream.written), stream.written)
    }

    function Here(): State
      reads this, peer
    {
      State(peer.Value(), media)
    }

    constructor (serverAddr: string, authorizer: bool, checked: bool, stream: TcpStream, peer: RtspSession)
      ensures Valid() && media == None && cseq == 0 && trace == []
      ensures this.serverAddr == serverAddr && this.authorizer == authorizer && this.checked == checked && this.stream == stream && this.peer == peer
    {
      this.serverAddr, this.authorizer, this.checked, this.stream, this.peer := serverAddr, authorizer, checked, stream, peer;
      sessionId, cseq, media, trace := None, 0, None, [];
    }

    /** Reserving an RTP port and its RTCP port; the kernel picks the ports and may refuse any of them. */
    static method Bind(destination: Option<nat>) returns (r: Option<MediaTransport>)
      ensures r.Some? ==> IsPortPair(r.value.Pair()) && r.value.destinationRtcp == destination
    {
      for i := 0 to 128 {
        var bound: bool := *;
        if !bound {
          return None;
        }
        var port: nat :| 0 < port <= MAX_U16;
        if port % 2 != 0 || port == MAX_U16 {
          continue;
        }
        var free: bool := *;
        if free {
          return Some(MediaTransport(port, port + 1, destination));
        }
      }
      return None;
    }

    /** Reserving, recording and authorizing the ports of a SETUP request. */
    method PrepareSetup(transport: Option<string>) returns (ok: bool, ghost pair: (nat, nat))
      requires Valid()
      modifies this`media, this`trace
      ensures Valid() && IsPortPair(pair)
      ensures ok ==> media == Some(MediaFor(old(media), transport, pair))
      ensures ok ==> trace == old(trace) + (if authorizer then [Authorized(media.value)] else [])
      ensures !ok ==> trace == old(trace)
    {
      pair := (0, 1);
      var rtcp := OfferedRtcp(transport);
      if media.None? {
        media := Bind(rtcp);
        if media.None? {
          return false, pair;
        }
        pair := media.value.Pair();
      }
      media := Some(media.value.(destinationRtcp := rtcp));
      if authorizer {
        var allowed: bool := *;
        if !allowed {
          return false, pair;
        }
        NumberedAppend(trace, [Authorized(media.value)], cseq);
        trace := trace + [Authorized(media.value)];
      }
      return true, pair;
    }

    method BuildPeerRequestResponse(message: string) returns (r: Result<string, RtspError>, ghost choice: Choice)
      requires Valid()
      modifies this`media, this`trace, peer
      ensures Valid()
      ensures r.Success? ==> Possible(message, choice) && Respond(old(Here()), message, choice) == Success((Here(), r.value))
      ensures r.Success? ==>
                trace == old(trace) + (if authorizer && IsSetup(message) && media.Some? then [Authorized(media.value)] else [])
      ensures r.Failure? ==> exists events :: NoneSent(events) && trace == old(trace) + events
      ensures r.Failure? ==> (IsSetup(message) && r.error.Io?) || Respond(old(Here()), message, choice) == Failure(r.error)
    {
      hide ParseMessage, ParameterAnswer, Store, OfferedRtcp, AfterSetup, SetupText, PlayText, Reply, OfferedPorts, Permutes, Numbered;
      choice := Choice([], (0, 1));
      var parsed := ParseMessage(message);
      assert trace == old(trace) + [] && NoneSent([]);
      if parsed.Failure? {
        return Failure(parsed.error), choice;
      }
      match parsed.value
      case Options(n) =>
        var text := peer.ProcessOptions();
        r := Success(Reply(n, text));
      case GetParameter(n, names) =>
        var text := peer.ProcessGetParameter(names);
        if text.Failure? {
          return Failure(text.error), choice;
        }
        r := Success(Reply(n, text.value));
      case SetParameter(n, params) =>
        var text, order := peer.ProcessSetParameter(params);
        choice := Choice(order, (0, 1));
        if text.Failure? {
          return Failure(text.error), choice;
        }
        r := Success(Reply(n, text.value));
      case Setup(n, _, transport) =>
        var ok, pair := PrepareSetup(transport);
        choice := Choice([], pair);
        if !ok {
          return Failure(Io), choice;
        }
        var text := peer.ProcessSetup(transport, media.value.Pair());
        r := Success(Reply(n, text));
      case Play(n, _) =>
        var text := peer.ProcessPlay();
        r := Success(Reply(n, text));
      case Teardown(n, _) =>
        var text := peer.ProcessTeardown();
        r := Success(Reply(n, text));
    }

    /** Reading one message, and answering it when it is a request. */
    method HandleMessage() returns (r: Result<string, RtspError>, ghost x: Exchange)
      requires Valid()
      modifies this`media, this`trace, peer, stream
      ensures Valid()
      ensures r.Success? ==> Frame(old(stream.pending)) == Success((r.value, stream.pending)) && x.message == r.value
      ensures r.Success? && STATUS <= r.value ==>
                Here() == old(Here()) && trace == old(trace) && stream.written == old(stream.written)
      ensures r.Success? && !(STATUS <= r.value) ==>
                && Possible(x.message, x.choice) && Step(old(Here()), x) == Success(Here())
                && trace == old(trace) + StepEvents(authorizer, old(Here()), x)
                && stream.written == old(stream.written) + Written(StepEvents(authorizer, old(Here()), x))
      ensures r.Failure? ==>
                || r.error.Io?
                || Frame(old(stream.pending)) == Failure(r.error)
                || (Frame(old(stream.pending)).Success? && x.message == Frame(old(stream.pending)).value.0
                    && Respond(old(Here()), x.message, x.choice) == Failure(r.error))
    {
      hide Frame, Respond, Possible, IsSetup;
      x := Exchange("", Choice([], (0, 1)));
      r := ReadMessage(stream);
      if r.Failure? {
        return;
      }
      var message := r.value;
      x := x.(message := message);
      if STATUS <= message {
        return;
      }
      ghost var before, here := trace, Here();
      NumberedAppend(trace, [Read(message)], cseq);
      trace := trace + [Read(message)];
      var reply, choice := BuildPeerRequestResponse(message);
      x := Exchange(message, choice);
      if reply.Failure? {
        return Failure(reply.error), x;
      }
      var delivered: bool := *;
      if !delivered {
        return Failure(Io), x;
      }
      stream.Write(reply.value);
      NumberedAppend(trace, [Wrote(reply.value)], cseq);
      trace := trace + [Wrote(reply.value)];
      ghost var middle := if authorizer && IsSetup(message) && media.Some? then [Authorized(media.value)] else [];
      assert trace == before + ([Read(message)] + middle + [Wrote(reply.value)]);
      WrittenOfExchange(message, middle, reply.value);
    }

    /** Answering the sink's requests until it sends PLAY; a deadline may pass before any message. */
    method WaitForPeerPlay() returns (r: Result<PlayInfo, RtspError>, ghost xs: seq<Exchange>)
      requires Valid()
      modifies this`media, this`trace, peer, stream
      ensures Valid()
      ensures r.Success? ==> exists events, output ::
                && Served(authorizer, old(Here()), xs, Here(), old(stream.pending), stream.pending, events, output)
                && trace == old(trace) + events && stream.written == old(stream.written) + output
                && DialogueOk(authorizer, PairOf(Here()), peer.id, Messages(xs), events)
      ensures r.Success? ==> Moves()
      ensures r.Success? ==> xs != [] && IsPlay(xs[|xs| - 1].message)
      ensures r.Success? ==>
                && r.value.transport == media && r.value.ip == HostOf(serverAddr) && r.value.sessionId == peer.id
                && r.value.port == match LatestPort(old(peer.rtpPort), Messages(xs)) case Some(port) => port case None => 5004
    {
      hide Frame, Step, StepEvents, Possible, NextPort, IsPlay, Served, Moved, Numbered, Events, Run, Written, DialogueOk, LatestPort;
      ghost var start, input := Here(), stream.pending;
      ghost var events: seq<Event>, output := [], "";
      xs := [];
      ServedNothing(authorizer, start, input);
      while true
        invariant Valid() && peer.id == start.peer.id
        invariant Served(authorizer, start, xs, Here(), input, stream.pending, events, output)
        invariant trace == old(trace) + events && stream.written == old(stream.written) + output
        decreases |stream.pending|
      {
        var expired: bool := *;
        if expired {
          return Failure(Timeout), xs;
        }
        ghost var here, left := Here(), stream.pending;
        var message, x := HandleMessage();
        if message.Failure? {
          return Failure(message.error), xs;
        }
        FrameProgress(left);
        if STATUS <= message.value {
          x := Exchange(message.value, Choice([], (0, 1)));
          IgnoredStep(authorizer, here, message.value);
          IgnoredPossible(x.message, x.choice);
          NumberedAppend(trace, [Ignored(message.value)], cseq);
          trace := trace + [Ignored(message.value)];
        }
        ServeOneMore(authorizer, start, xs, here, input, left, events, output, x, Here(), stream.pending);
        xs := xs + [x];
        events := events + StepEvents(authorizer, here, x);
        output := output + Written(StepEvents(authorizer, here, x));
        if IsPlay(message.value) {
          ServedFacts(authorizer, start, xs, Here(), input, stream.pending, events, output);
          ServedMoves(authorizer, start, xs, Here(), input, stream.pending, events, output, old(trace), old(stream.written));
          assert trace == old(trace) + events && stream.written == old(stream.written) + output;
          return Success(PlayInfo(media, HostOf(serverAddr), PlayPort(peer.Value()), peer.id)), xs;
        }
      }
    }

    /** Answering the sink's requests until a response to our own request arrives. */
    method ReadResponse() returns (r: Result<string, RtspError>, ghost xs: seq<Exchange>)
      requires Valid()
      modifies this`media, this`trace, peer, stream
      ensures Valid()
      ensures r.Success? ==> Moves() && STATUS <= r.value && forall x :: x in xs ==> !(STATUS <= x.message)
      ensures r.Success? ==> exists events, output ::
                && Served(authorizer, old(Here()), xs, Here(), old(stream.pending), r.value + stream.pending, events, output)
                && trace == old(trace) + events + [Response(r.value)] && stream.written == old(stream.written) + output
                && DialogueOk(authorizer, PairOf(Here()), peer.id, Messages(xs), events)
    {
      hide Frame, Step, StepEvents, Possible, NextPort, Served, Moved, Numbered, Events, Run, Written, DialogueOk, LatestPort;
      ghost var start, input := Here(), stream.pending;
      ghost var events: seq<Event>, output := [], "";
      xs := [];
      ServedNothing(authorizer, start, input);
      while true
        invariant Valid() && peer.id == start.peer.id
        invariant forall x :: x in xs ==> !(STATUS <= x.message)
        invariant Served(authorizer, start, xs, Here(), input, stream.pending, events, output)
        invariant trace == old(trace) + events && stream.written == old(stream.written) + output
        decreases |stream.pending|
      {
        ghost var here, left := Here(), stream.pending;
        var message, x := HandleMessage();
        if message.Failure? {
          return message, xs;
        }
        FrameProgress(left);
        if STATUS <= message.value {
          ServedFacts(authorizer, start, xs, Here(), input, left, events, output);
          ServedMoves(authorizer, start, xs, Here(), input, left, events, output, old(trace), old(stream.written));
          ResponseMoves(trace, left, message.value, stream.pending, stream.written);
          MovedTwice(old(trace), trace, trace + [Response(message.value)], input, left, stream.pending,
                     old(stream.written), stream.written, stream.written);
          NumberedAppend(trace, [Response(message.value)], cseq);
          trace := trace + [Response(message.value)];
          return message, xs;
        }
        ServeOneMore(authorizer, start, xs, here, input, left, events, output, x, Here(), stream.pending);
        xs := xs + [x];
        events := events + StepEvents(authorizer, here, x);
        output := output + Written(StepEvents(authorizer, here, x));
      }
    }

    /** Writing a request and waiting for its response, answering the sink meanwhile. */
    method SendAndWait(text: string) returns (r: Result<string, RtspError>)
      requires cseq > 0 && Numbered(trace, cseq - 1) && (media.Some? ==> IsPortPair(media.value.Pair()))
      modifies this`media, this`trace, peer, stream
      ensures Valid()
      ensures r.Success? ==> Sends(authorizer, old(Here()), Here(), old(trace), trace, cseq, text, r.value) && Moves()
    {
      hide Numbered, Served, DialogueOk, Moved, STATUS;
      NumberedNext(trace, cseq - 1, text);
      var delivered: bool := *;
      if !delivered {
        return Failure(Io);
      }
      SentMoves(trace, stream.pending, cseq, text, stream.written);
      stream.Write(text);
      trace := trace + [Sent(cseq, text)];
      label sent:
      ghost var xs;
      r, xs := ReadResponse();
      if r.Success? {
        ghost var events, output :|
          && Served(authorizer, old@sent(Here()), xs, Here(), old@sent(stream.pending), r.value + stream.pending, events, output)
          && trace == old@sent(trace) + events + [Response(r.value)]
          && stream.written == old@sent(stream.written) + output;
        SendsIntro(authorizer, old(Here()), Here(), old(trace), trace, cseq, text, r.value, xs,
                   old@sent(stream.pending), r.value + stream.pending, events, output);
        MovedTwice(old(trace), old@sent(trace), trace, old(stream.pending), old@sent(stream.pending), stream.pending,
                   old(stream.written), old@sent(stream.written), stream.written);
      }
    }

    method SendOptions() returns (r: Result<string, RtspError>)
      requires Valid()
      modifies this`cseq, this`media, this`trace, peer, stream
      ensures Valid() && cseq == old(cseq) + 1
      ensures r.Success? ==> Sends(authorizer, old(Here()), Here(), old(trace), trace, cseq, OptionsRequest(cseq), r.value) && Moves()
    {
      hide Numbered, Sends, Moved, GetParameterRequest, SetParameterRequest, SetupRequest, PlayRequest, OptionsRequest;
      NumberedNext(trace, cseq, "");
      cseq := cseq + 1;
      r := SendAndWait(OptionsRequest(cseq));
    }

    /** Asking the sink for capabilities: the map of the `wfd_` lines of its response. */
    method SendGetParameter(names: seq<string>) returns (r: Result<map<string, string>, RtspError>)
      requires Valid()
      modifies this`cseq, this`media, this`trace, peer, stream
      ensures Valid() && cseq == old(cseq) + 1
      ensures names == [] ==> r == Success(map[]) && trace == old(trace) && stream.written == old(stream.written)
      ensures names != [] && r.Success? ==> Moves()
      ensures names != [] && r.Success? ==> exists response ::
                && Sends(authorizer, old(Here()), Here(), old(trace), trace, cseq,
                         GetParameterRequest(serverAddr, cseq, sessionId, names), response)
                && r.value == Collect(ResponsePairs(Lines(response)))
    {
      hide Numbered, Sends, Moved, GetParameterRequest, SetParameterRequest, SetupRequest, PlayRequest, OptionsRequest;
      NumberedNext(trace, cseq, "");
      cseq := cseq + 1;
      if names == [] {
        return Success(map[]);
      }
      var response := SendAndWait(GetParameterRequest(serverAddr, cseq, sessionId, names));
      if response.Failure? {
        return Failure(response.error);
      }
      var capabilities := ReadCapabilities(response.value);
      return Success(capabilities);
    }

    static method ReadCapabilities(response: string) returns (capabilities: map<string, string>)
      ensures capabilities == Collect(ResponsePairs(Lines(response)))
    {
      hide Collect, ResponsePairs, Lines, Trim, SplitColon;
      var lines := Lines(response);
      capabilities := map[];
      assert lines[..0] == [];
      CollectNothing();
      for i := 0 to |lines|
        invariant capabilities == Collect(ResponsePairs(lines[..i]))
      {
        ResponsePairsNext(lines, i);
        if ':' in lines[i] {
          var name, value := Trim(SplitColon(lines[i]).0), Trim(SplitColon(lines[i]).1);
          if WFD <= name {
            CollectNext(ResponsePairs(lines[..i]), (name, value));
            capabilities := capabilities[name := value];
          }
        }
      }
      assert lines[..|lines|] == lines;
    }

    /** Iterating over a hash map: its entries in some order. */
    static method Entries(params: map<string, string>) returns (pairs: seq<(string, string)>)
      ensures Permutes(pairs, params)
    {
      pairs := [];
      var left := params.Keys;
      while left != {}
        invariant left <= params.Keys && |pairs| + |left| == |params.Keys|
        invariant forall p :: p in pairs ==> p.0 in params && params[p.0] == p.1
        invariant forall k :: k in params && k !in left ==> (k, params[k]) in pairs
        decreases left
      {
        var name :| name in left;
        left := left - {name};
        pairs := pairs + [(name, params[name])];
      }
    }

    method SendSetParameter(params: map<string, string>) returns (r: Result<(), RtspError>)
      requires Valid()
      modifies this`cseq, this`media, this`trace, peer, stream
      ensures Valid() && cseq == old(cseq) + 1
      ensures params == map[] ==> r == Success(()) && trace == old(trace) && stream.written == old(stream.written)
      ensures params != map[] && r.Success? ==> Moves()
      ensures params != map[] && r.Success? ==> exists pairs, response ::
                && Permutes(pairs, params)
                && Sends(authorizer, old(Here()), Here(), old(trace), trace, cseq,
                         SetParameterRequest(serverAddr, cseq, sessionId, pairs), response)
    {
      hide Numbered, Sends, Moved, GetParameterRequest, SetParameterRequest, SetupRequest, PlayRequest, OptionsRequest;
      NumberedNext(trace, cseq, "");
      cseq := cseq + 1;
      if params == map[] {
        return Success(());
      }
      var pairs := Entries(params);
      var response := SendAndWait(SetParameterRequest(serverAddr, cseq, sessionId, pairs));
      assert response.Success? ==>
          Sends(authorizer, old(Here()), Here(), old(trace), trace, cseq, SetParameterRequest(serverAddr, cseq, sessionId, pairs), response.value);
      r := if response.Success? then Success(()) else Failure(response.error);
    }

    /** SETUP from our side; for port 65535 the range's second port overflows, which a checked build does not survive. */
    method SendSetup(rtpPort: nat) returns (r: Result<SetupScan, RtspError>)
      requires Valid() && rtpPort <= MAX_U16
      modifies this`cseq, this`sessionId, this`media, this`trace, peer, stream
      ensures Valid() && cseq == old(cseq) + 1
      ensures checked && rtpPort == MAX_U16 ==> r == Failure(Panicked)
      ensures r.Success? ==> Moves()
      ensures r.Success? ==> exists response ::
                && Sends(authorizer, old(Here()), Here(), old(trace), trace, cseq,
                         SetupRequest(serverAddr, cseq, old(sessionId), rtpPort), response)
                && r.value == ScanLines(Lines(response), SCAN_DEFAULTS)
                && sessionId == if r.value.sessionId != "" then Some(r.value.sessionId) else old(sessionId)
    {
      hide Numbered, Sends, Moved, GetParameterRequest, SetParameterRequest, SetupRequest, PlayRequest, OptionsRequest;
      NumberedNext(trace, cseq, "");
      cseq := cseq + 1;
      if checked && rtpPort == MAX_U16 {
        return Failure(Panicked);
      }
      var response := SendAndWait(SetupRequest(serverAddr, cseq, sessionId, rtpPort));
      if response.Failure? {
        return Failure(response.error);
      }
      var scan := ReadSetupResponse(response.value);
      if scan.sessionId != "" {
        sessionId := Some(scan.sessionId);
      }
      return Success(scan);
    }

    method SendPlay() returns (r: Result<(), RtspError>)
      requires Valid()
      modifies this`cseq, this`media, this`trace, peer, stream
      ensures Valid() && cseq == old(cseq) + 1
      ensures r.Success? ==> Moves()
      ensures r.Success? ==> exists response ::
                Sends(authorizer, old(Here()), Here(), old(trace), trace, cseq, PlayRequest(serverAddr, cseq, sessionId), response)
    {
      hide Numbered, Sends, Moved, GetParameterRequest, SetParameterRequest, SetupRequest, PlayRequest, OptionsRequest;
      NumberedNext(trace, cseq, "");
      cseq := cseq + 1;
      var response := SendAndWait(PlayRequest(serverAddr, cseq, sessionId));
      assert response.Success? ==>
          Sends(authorizer, old(Here()), Here(), old(trace), trace, cseq, PlayRequest(serverAddr, cseq, sessionId), response.value);
      r := if response.Success? then Success(()) else Failure(response.error);
    }
  }

  /** The sink's requests that were answered meanwhile form a dialogue from one state to the other. */
  ghost predicate Answered(auth: bool, before: State, after: State, events: seq<Event>, output: string) {
    exists xs, input, left :: Served(auth, before, xs, after, input, left, events, output)
  }

  /** The trace grows by our request, the requests answered meanwhile and the response, the first message that is one. */
  ghost predicate Sends(auth: bool, before: State, after: State, trace: seq<Event>, trace': seq<Event>, cseq: nat,
                        text: string, response: string) {
    STATUS <= response && exists events, output ::
      && Answered(auth, before, after, events, output) && NoneIgnored(events)
      && trace' == trace + ([Sent(cseq, text)] + events + [Response(response)])
  }

  lemma AnsweredIntro(auth: bool, before: State, xs: seq<Exchange>, after: State, input: string, left: string,
                      events: seq<Event>, output: string)
    requires Served(auth, before, xs, after, input, left, events, output)
    ensures Answered(auth, before, after, events, output)
  {
    hide Served;
  }

  lemma ServedRequests(auth: bool, before: State, xs: seq<Exchange>, after: State, input: string, left: string,
                       events: seq<Event>, output: string)
    requires Served(auth, before, xs, after, input, left, events, output) && forall x :: x in xs ==> !(STATUS <= x.message)
    ensures NoneIgnored(events)
  {
    hide Run, Events, Framed, Written, Possible, STATUS, NoneIgnored;
    RequestsOnly(auth, before, xs);
  }

  lemma SendsIntro(auth: bool, before: State, after: State, trace: seq<Event>, trace': seq<Event>, cseq: nat, text: string,
                   response: string, xs: seq<Exchange>, input: string, left: string, events: seq<Event>, output: string)
    requires Served(auth, before, xs, after, input, left, events, output)
    requires STATUS <= response && forall x :: x in xs ==> !(STATUS <= x.message)
    requires trace' == (trace + [Sent(cseq, text)]) + events + [Response(response)]
    ensures Sends(auth, before, after, trace, trace', cseq, text, response)
  {
    hide *;
    ServedRequests(auth, before, xs, after, input, left, events, output);
    AnsweredIntro(auth, before, xs, after, input, left, events, output);
    Regrouped(trace, [Sent(cseq, text)], events, [Response(response)]);
    SendsFrom(auth, before, after, trace, trace', cseq, text, response, events, output);
  }

  lemma Regrouped(a: seq<Event>, b: seq<Event>, c: seq<Event>, d: seq<Event>)
    ensures (a + b) + c + d == a + (b + c + d)
  {
  }

  lemma SendsFrom(auth: bool, before: State, after: State, trace: seq<Event>, trace': seq<Event>, cseq: nat, text: string,
                  response: string, events: seq<Event>, output: string)
    requires STATUS <= response && Answered(auth, before, after, events, output) && NoneIgnored(events)
    requires trace' == trace + ([Sent(cseq, text)] + events + [Response(response)])
    ensures Sends(auth, before, after, trace, trace', cseq, text, response)
  {
    hide STATUS, Answered, NoneIgnored;
  }

  lemma CollectNothing()
    ensures Collect(ResponsePairs([])) == map[]
  {
  }

  lemma CollectNext(pairs: seq<(string, string)>, p: (string, string))
    ensures Collect(pairs + [p]) == Collect(pairs)[p.0 := p.1]
  {
    assert (pairs + [p])[..|pairs|] == pairs;
  }

  lemma {:induction false} ResponsePairsAppend(a: seq<string>, b: seq<string>)
    ensures ResponsePairs(a + b) == ResponsePairs(a) + ResponsePairs(b)
  {
    if a == [] {
      assert a + b == b;
    } else {
      assert (a + b)[1..] == a[1..] + b;
      ResponsePairsAppend(a[1..], b);
    }
  }

  lemma ResponsePairsNext(lines: seq<string>, i: nat)
    requires i < |lines|
    ensures var (name, value) := if ':' in lines[i] then (Trim(SplitColon(lines[i]).0), Trim(SplitColon(lines[i]).1)) else ("", "");
            ResponsePairs(lines[..i + 1])
            == if ':' in lines[i] && WFD <= name then ResponsePairs(lines[..i]) + [(name, value)] else ResponsePairs(lines[..i])
  {
    assert lines[..i + 1] == lines[..i] + [lines[i]];
    ResponsePairsAppend(lines[..i], [lines[i]]);
    assert [lines[i]][1..] == [];
  }

  /** What the main results say about messages that were served. */
  lemma ServedFacts(auth: bool, st: State, xs: seq<Exchange>, after: State, input: string, left: string,
                    events: seq<Event>, output: string)
    requires Served(auth, st, xs, after, input, left, events, output)
    ensures DialogueOk(auth, PairOf(after), st.peer.id, Messages(xs), events)
    ensures PlayPort(after.peer) == match LatestPort(st.peer.rtpPort, Messages(xs)) case Some(port) => port case None => 5004
  {
    EveryRequestAnswered(auth, st, xs);
    PortOfLatestSetup(st, xs);
  }

  lemma WrittenOfExchange(message: string, middle: seq<Event>, reply: string)
    requires |middle| <= 1 && forall e :: e in middle ==> e.Authorized?
    ensures Written([Read(message)] + middle + [Wrote(reply)]) == reply
  {
    assert Written([Wrote(reply)]) == reply + "" by {
      assert [Wrote(reply)][1..] == [];
    }
    if middle != [] {
      assert middle[0] in middle && middle[1..] == [];
      assert Written(middle) == "" + Written([]);
    }
    assert Written([Read(message)]) == "" by {
      assert [Read(message)][1..] == [];
    }
    WrittenAppend([Read(message)], middle);
    WrittenAppend([Read(message)] + middle, [Wrote(reply)]);
  }

  lemma IgnoredStep(auth: bool, st: State, message: string)
    requires STATUS <= message
    ensures forall c :: Step(st, Exchange(message, c)) == Success(st) && StepEvents(auth, st, Exchange(message, c)) == [Ignored(message)]
    ensures Written([Ignored(message)]) == ""
  {
    assert [Ignored(message)][1..] == [];
  }

  lemma IgnoredPossible(message: string, c: Choice)
    requires STATUS <= message && c.pair == (0, 1)
    ensures Possible(message, c)
  {
  }
}
