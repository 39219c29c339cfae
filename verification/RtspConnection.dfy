/**
 A whole control connection: our requests, the sink's requests answered meanwhile, and the wait for PLAY, as one dialogue.
 */
module RtspConnections {
  import opened Wrappers
  import opened Text
  import opened RtspMessages
  import opened RtspSessions
  import opened Framing
  import opened PeerDialogue
  import opened RtspClients

  predicate OfPeer(e: Event) {
    !e.Sent? && !e.Response?
  }

  /** The sink's side of a trace: everything but our own requests and their responses. */
  function PeerEvents(trace: seq<Event>): seq<Event> {
    if trace == [] then [] else (if OfPeer(trace[0]) then [trace[0]] else []) + PeerEvents(trace[1..])
  }

  lemma PeerEventsCons(e: Event, rest: seq<Event>)
    ensures PeerEvents([e] + rest) == (if OfPeer(e) then [e] else []) + PeerEvents(rest)
  {
    assert ([e] + rest)[1..] == rest;
  }

  lemma {:induction false} PeerEventsAppend(a: seq<Event>, b: seq<Event>)
    ensures PeerEvents(a + b) == PeerEvents(a) + PeerEvents(b)
  {
    if a == [] {
      assert a + b == b;
    } else {
      var e, rest := a[0], a[1..];
      PeerEventsAppend(rest, b);
      hide *;
      PeerEventsCons(e, rest);
      PeerEventsCons(e, rest + b);
      assert a == [e] + rest && a + b == [e] + (rest + b);
    }
  }

  lemma {:induction false} AllOfPeer(events: seq<Event>)
    requires forall e :: e in events ==> OfPeer(e)
    ensures PeerEvents(events) == events
  {
    if events != [] {
      assert OfPeer(events[0]) && forall e :: e in events[1..] ==> e in events;
      hide OfPeer;
      AllOfPeer(events[1..]);
    }
  }

  /** Our side of a trace: our requests and their responses. */
  function OurEvents(trace: seq<Event>): seq<Event> {
    if trace == [] then [] else (if OfPeer(trace[0]) then [] else [trace[0]]) + OurEvents(trace[1..])
  }

  lemma {:induction false} OurEventsAppend(a: seq<Event>, b: seq<Event>)
    ensures OurEvents(a + b) == OurEvents(a) + OurEvents(b)
  {
    if a == [] {
      assert a + b == b;
    } else {
      assert (a + b)[0] == a[0] && (a + b)[1..] == a[1..] + b;
      OurEventsAppend(a[1..], b);
    }
  }

  lemma {:induction false} NoneOfOurs(events: seq<Event>)
    requires forall e :: e in events ==> OfPeer(e)
    ensures OurEvents(events) == []
  {
    if events != [] {
      assert OfPeer(events[0]) && forall e :: e in events[1..] ==> e in events;
      hide OfPeer;
      NoneOfOurs(events[1..]);
    }
  }

  lemma StepOfPeer(auth: bool, st: State, x: Exchange)
    ensures forall e :: e in StepEvents(auth, st, x) ==> OfPeer(e)
  {
    hide Respond, IsSetup;
  }

  lemma {:induction false} EventsOfPeer(auth: bool, st: State, xs: seq<Exchange>)
    ensures forall e :: e in Events(auth, st, xs) ==> OfPeer(e)
    decreases |xs|
  {
    hide StepEvents, Step, OfPeer;
    if xs != [] {
      StepOfPeer(auth, st, xs[0]);
      if Step(st, xs[0]).Success? {
        EventsOfPeer(auth, Step(st, xs[0]).value, xs[1..]);
      }
    }
  }

  /** Two dialogues one after the other are one. */
  lemma {:induction false} RunConcat(auth: bool, st: State, xs: seq<Exchange>, ys: seq<Exchange>)
    requires Run(st, xs).Success?
    ensures Run(st, xs + ys) == Run(Run(st, xs).value, ys)
    ensures Events(auth, st, xs + ys) == Events(auth, st, xs) + Events(auth, Run(st, xs).value, ys)
    decreases |xs|
  {
    hide Step, StepEvents;
    if xs == [] {
      assert xs + ys == ys;
    } else {
      assert (xs + ys)[1..] == xs[1..] + ys && (xs + ys)[0] == xs[0];
      RunConcat(auth, Step(st, xs[0]).value, xs[1..], ys);
    }
  }

  /** The sink's side of the trace is the dialogue of these exchanges, from one state to the other. */
  ghost predicate Conversation(auth: bool, start: State, xs: seq<Exchange>, here: State, trace: seq<Event>) {
    AllPossible(xs) && Run(start, xs) == Success(here) && PeerEvents(trace) == Events(auth, start, xs)
  }

  lemma Extend(auth: bool, start: State, xs: seq<Exchange>, here: State, trace: seq<Event>,
               ys: seq<Exchange>, after: State, events: seq<Event>, trace': seq<Event>)
    requires Conversation(auth, start, xs, here, trace)
    requires AllPossible(ys) && Run(here, ys) == Success(after) && events == Events(auth, here, ys)
    requires PeerEvents(trace') == PeerEvents(trace) + PeerEvents(events)
    ensures Conversation(auth, start, xs + ys, after, trace')
  {
    EventsOfPeer(auth, here, ys);
    AllOfPeer(events);
    RunConcat(auth, start, xs, ys);
    hide Run, Events, PeerEvents, Possible;
  }

  /** One request of ours, with what was answered meanwhile, extends the conversation. */
  lemma ExtendBySend(auth: bool, start: State, xs: seq<Exchange>, here: State, trace: seq<Event>, after: State,
                     trace': seq<Event>, cseq: nat, text: string, response: string) returns (ys: seq<Exchange>)
    requires Conversation(auth, start, xs, here, trace)
    requires Sends(auth, here, after, trace, trace', cseq, text, response)
    ensures Conversation(auth, start, xs + ys, after, trace')
    ensures STATUS <= response && OurEvents(trace') == OurEvents(trace) + [Sent(cseq, text), Response(response)]
  {
    var events, output :|
      && Answered(auth, here, after, events, output) && NoneIgnored(events)
      && trace' == trace + ([Sent(cseq, text)] + events + [Response(response)]);
    var input, left;
    ys, input, left :| Served(auth, here, ys, after, input, left, events, output);
    hide Run, Events, Conversation, AllPossible, Framed, Written, STATUS, OfPeer, OurEvents;
    EventsOfPeer(auth, here, ys);
    OursOfSend(trace, cseq, text, events, response);
    PeersOfSend(trace, cseq, text, events, response);
    hide PeerEvents, Answered, NoneIgnored;
    Extend(auth, start, xs, here, trace, ys, after, events, trace');
  }

  lemma PeersOfSend(trace: seq<Event>, cseq: nat, text: string, events: seq<Event>, response: string)
    ensures PeerEvents(trace + ([Sent(cseq, text)] + events + [Response(response)])) == PeerEvents(trace) + PeerEvents(events)
  {
    hide *;
    PeerEventsAppend(trace, [Sent(cseq, text)] + events + [Response(response)]);
    PeerEventsAppend([Sent(cseq, text)] + events, [Response(response)]);
    PeerEventsAppend([Sent(cseq, text)], events);
    Ours(Sent(cseq, text));
    Ours(Response(response));
    assert [] + PeerEvents(events) + [] == PeerEvents(events);
  }

  lemma Ours(e: Event)
    requires e.Sent? || e.Response?
    ensures PeerEvents([e]) == [] && OurEvents([e]) == [e]
  {
    assert [e][1..] == [];
  }

  lemma OursOfSend(trace: seq<Event>, cseq: nat, text: string, events: seq<Event>, response: string)
    requires forall e :: e in events ==> OfPeer(e)
    ensures OurEvents(trace + ([Sent(cseq, text)] + events + [Response(response)])) == OurEvents(trace) + [Sent(cseq, text), Response(response)]
  {
    hide OfPeer, OurEvents;
    OurEventsAppend(trace, [Sent(cseq, text)] + events + [Response(response)]);
    OurEventsAppend([Sent(cseq, text)] + events, [Response(response)]);
    OurEventsAppend([Sent(cseq, text)], events);
    Ours(Sent(cseq, text));
    Ours(Response(response));
    NoneOfOurs(events);
    assert [Sent(cseq, text)] + [] + [Response(response)] == [Sent(cseq, text), Response(response)];
  }

  lemma ExtendByPlay(auth: bool, start: State, xs: seq<Exchange>, here: State, trace: seq<Event>, ys: seq<Exchange>,
                     after: State, input: string, left: string, events: seq<Event>, output: string)
    requires Conversation(auth, start, xs, here, trace)
    requires Served(auth, here, ys, after, input, left, events, output)
    ensures Conversation(auth, start, xs + ys, after, trace + events)
    ensures OurEvents(trace + events) == OurEvents(trace)
    ensures ys != [] ==> events != [] && OfPeer(events[|events| - 1])
  {
    hide Run, Events, Conversation, AllPossible, Framed, Written, OfPeer;
    EventsOfPeer(auth, here, ys);
    OurEventsAppend(trace, events);
    NoneOfOurs(events);
    if ys != [] {
      SomethingHappens(auth, here, ys);
      assert events[|events| - 1] in events;
    }
    PeerEventsAppend(trace, events);
    Extend(auth, start, xs, here, trace, ys, after, events, trace + events);
  }

  lemma SomethingHappens(auth: bool, st: State, xs: seq<Exchange>)
    requires xs != []
    ensures Events(auth, st, xs) != []
  {
    hide Respond, Step;
    assert StepEvents(auth, st, xs[0]) != [];
  }

  lemma NothingSaid(auth: bool, start: State)
    ensures Conversation(auth, start, [], start, [])
  {
  }

  /** The first four events of our side: OPTIONS and GET_PARAMETER with the numbers behind `first`, and their responses. */
  predicate Asked(addr: string, session: Option<string>, first: nat, names: seq<string>, ours: seq<Event>) {
    && |ours| >= 4
    && ours[0] == Sent(first + 1, OptionsRequest(first + 1))
    && ours[1].Response? && STATUS <= ours[1].text
    && ours[2] == Sent(first + 2, GetParameterRequest(addr, first + 2, session, names))
    && ours[3].Response? && STATUS <= ours[3].text
  }

  /** What the sink's answer to GET_PARAMETER says. */
  function Capabilities(ours: seq<Event>): map<string, string>
    requires |ours| >= 4 && ours[3].Response?
  {
    Collect(ResponsePairs(Lines(ours[3].text)))
  }

  /** One SET_PARAMETER, its entries in some order, and its response. */
  ghost predicate Announced(addr: string, session: Option<string>, cseq: nat, params: map<string, string>, sent: Event, response: Event) {
    && (exists pairs :: Permutes(pairs, params) && sent == Sent(cseq, SetParameterRequest(addr, cseq, session, pairs)))
    && response.Response? && STATUS <= response.text
  }

  /** The SET_PARAMETERs of these settings, in order, with the numbers behind those two. */
  ghost predicate AllAnnounced(addr: string, session: Option<string>, first: nat, settings: seq<map<string, string>>, ours: seq<Event>) {
    && |ours| == 4 + 2 * |settings|
    && forall i :: 0 <= i < |settings| ==> Announced(addr, session, first + 3 + i, settings[i], ours[4 + 2 * i], ours[5 + 2 * i])
  }

  lemma OneMoreAnnounced(addr: string, session: Option<string>, first: nat, settings: seq<map<string, string>>, ours: seq<Event>,
                         params: map<string, string>, sent: Event, response: Event)
    requires AllAnnounced(addr, session, first, settings, ours)
    requires Announced(addr, session, first + 3 + |settings|, params, sent, response)
    ensures AllAnnounced(addr, session, first, settings + [params], ours + [sent, response])
  {
    hide Announced;
    var all, ours' := settings + [params], ours + [sent, response];
    forall i | 0 <= i < |all| ensures Announced(addr, session, first + 3 + i, all[i], ours'[4 + 2 * i], ours'[5 + 2 * i]) {
      if i < |settings| {
        assert Announced(addr, session, first + 3 + i, settings[i], ours[4 + 2 * i], ours[5 + 2 * i]);
      }
    }
  }

  lemma NoneOfOursYet()
    ensures OurEvents([]) == []
  {
  }

  /** OPTIONS and GET_PARAMETER, with what was answered meanwhile. */
  method AskCapabilities(client: RtspClient, names: seq<string>) returns (r: Result<map<string, string>, RtspError>, ghost xs: seq<Exchange>)
    requires client.Valid() && client.trace == [] && names != []
    modifies client`cseq, client`media, client`trace, client.peer, client.stream
    ensures client.Valid()
    ensures r.Success? ==> Conversation(client.authorizer, old(client.Here()), xs, client.Here(), client.trace) && client.Moves()
    ensures r.Success? ==> client.cseq == old(client.cseq) + 2
    ensures r.Success? ==> var ours := OurEvents(client.trace);
                           && Asked(client.serverAddr, client.sessionId, old(client.cseq), names, ours) && |ours| == 4
                           && r.value == Capabilities(ours)
  {
    hide Conversation, Sends, RtspClients.Numbered, Moved, STATUS, OurEvents, OptionsRequest, GetParameterRequest, ResponsePairs, Collect;
    ghost var auth, start := client.authorizer, client.Here();
    xs := [];
    NothingSaid(auth, start);
    NoneOfOursYet();
    ghost var pending, written := client.stream.pending, client.stream.written;
    var options := client.SendOptions();
    if options.Failure? {
      return Failure(options.error), xs;
    }
    ghost var ys := ExtendBySend(auth, start, xs, start, [], client.Here(), client.trace, client.cseq, OptionsRequest(client.cseq), options.value);
    xs := xs + ys;
    ghost var here, trace, left, output := client.Here(), client.trace, client.stream.pending, client.stream.written;
    r := client.SendGetParameter(names);
    if r.Success? {
      ghost var response :| Sends(auth, here, client.Here(), trace, client.trace, client.cseq,
                                  GetParameterRequest(client.serverAddr, client.cseq, client.sessionId, names), response)
                            && r.value == Collect(ResponsePairs(Lines(response)));
      ys := ExtendBySend(auth, start, xs, here, trace, client.Here(), client.trace, client.cseq,
                         GetParameterRequest(client.serverAddr, client.cseq, client.sessionId, names), response);
      xs := xs + ys;
      MovedTwice([], trace, client.trace, pending, left, client.stream.pending, written, output, client.stream.written);
    }
  }

  /** One SET_PARAMETER, with what was answered meanwhile. */
  method Announce(client: RtspClient, params: map<string, string>, ghost start: State, ghost xs: seq<Exchange>)
      returns (r: Result<(), RtspError>, ghost ys: seq<Exchange>)
    requires client.Valid() && params != map[]
    requires Conversation(client.authorizer, start, xs, client.Here(), client.trace)
    modifies client`cseq, client`media, client`trace, client.peer, client.stream
    ensures client.Valid()
    ensures r.Success? ==> Conversation(client.authorizer, start, xs + ys, client.Here(), client.trace) && client.Moves()
    ensures r.Success? ==> client.cseq == old(client.cseq) + 1
    ensures r.Success? ==> exists sent, response ::
              && Announced(client.serverAddr, client.sessionId, client.cseq, params, sent, response)
              && OurEvents(client.trace) == OurEvents(old(client.trace)) + [sent, response]
  {
    hide Conversation, Sends, RtspClients.Numbered, Moved, STATUS, OurEvents, SetParameterRequest;
    ys := [];
    ghost var auth, here, trace := client.authorizer, client.Here(), client.trace;
    r := client.SendSetParameter(params);
    if r.Success? {
      ghost var pairs, response :|
        && Permutes(pairs, params)
        && Sends(auth, here, client.Here(), trace, client.trace, client.cseq,
                 SetParameterRequest(client.serverAddr, client.cseq, client.sessionId, pairs), response);
      ghost var text := SetParameterRequest(client.serverAddr, client.cseq, client.sessionId, pairs);
      ys := ExtendBySend(auth, start, xs, here, trace, client.Here(), client.trace, client.cseq, text, response);
      assert Announced(client.serverAddr, client.sessionId, client.cseq, params, Sent(client.cseq, text), Response(response));
    }
  }

  /** The wait for PLAY, as the end of the conversation. */
  method AwaitPlay(client: RtspClient, ghost start: State, ghost xs: seq<Exchange>)
      returns (r: Result<PlayInfo, RtspError>, ghost ys: seq<Exchange>)
    requires client.Valid()
    requires Conversation(client.authorizer, start, xs, client.Here(), client.trace)
    modifies client`media, client`trace, client.peer, client.stream
    ensures client.Valid()
    ensures r.Success? ==> Conversation(client.authorizer, start, xs + ys, client.Here(), client.trace) && client.Moves()
    ensures r.Success? ==> ys != [] && IsPlay(ys[|ys| - 1].message)
    ensures r.Success? ==> OurEvents(client.trace) == OurEvents(old(client.trace)) && EndsWithPeer(client.trace)
    ensures r.Success? ==> && r.value.transport == client.media && r.value.sessionId == client.peer.id
                           && r.value.port == PlayPort(client.peer.Value()) && r.value.ip == HostOf(client.serverAddr)
  {
    hide Conversation, Served, DialogueOk, LatestPort, IsPlay, RtspClients.Numbered, Moved, OurEvents, OfPeer;
    ghost var auth, here, trace, input := client.authorizer, client.Here(), client.trace, client.stream.pending;
    r, ys := client.WaitForPeerPlay();
    if r.Success? {
      ghost var events, output :|
        && Served(auth, here, ys, client.Here(), input, client.stream.pending, events, output)
        && client.trace == trace + events;
      ExtendByPlay(auth, start, xs, here, trace, ys, client.Here(), input, client.stream.pending, events, output);
      ServedFacts(auth, here, ys, client.Here(), input, client.stream.pending, events, output);
    }
  }

  /** What happened last was of the sink's side. */
  predicate EndsWithPeer(trace: seq<Event>) {
    trace != [] && OfPeer(trace[|trace| - 1])
  }

  /**
   Main result for a whole connection: asking for capabilities, setting what the plan makes of them, and waiting for
   PLAY. The bytes read are cut into the messages of the trace and the bytes written are its replies and requests. Our side
   is OPTIONS, GET_PARAMETER and one SET_PARAMETER for each setting, numbered one after the other, each followed by its
   response. All requests of the sink form one dialogue that ends with PLAY, in which each is answered once, in order and
   with its own CSeq, and every SETUP reply names one unchanging pair of ports; the result carries the port of the latest
   SETUP since the connection was made.
   */
  method Negotiate(client: RtspClient, names: seq<string>, plan: map<string, string> -> seq<map<string, string>>)
      returns (r: Result<PlayInfo, RtspError>, ghost xs: seq<Exchange>)
    requires client.Valid() && client.trace == [] && names != [] && forall caps, s :: s in plan(caps) ==> s != map[]
    modifies client`cseq, client`media, client`trace, client.peer, client.stream
    ensures client.Valid()
    ensures r.Success? ==> client.Moves()
                           && old(client.stream.pending) == Concat(Incoming(client.trace)) + client.stream.pending
                           && client.stream.written == old(client.stream.written) + Written(client.trace)
    ensures r.Success? ==> var ours := OurEvents(client.trace);
                           && Asked(client.serverAddr, client.sessionId, old(client.cseq), names, ours)
                           && AllAnnounced(client.serverAddr, client.sessionId, old(client.cseq), plan(Capabilities(ours)), ours)
                           && client.cseq == old(client.cseq) + |ours| / 2
    ensures r.Success? ==> xs != [] && IsPlay(xs[|xs| - 1].message) && EndsWithPeer(client.trace)
    ensures r.Success? ==>
              && Conversation(client.authorizer, old(client.Here()), xs, client.Here(), client.trace)
              && DialogueOk(client.authorizer, PairOf(client.Here()), client.peer.id, Messages(xs), PeerEvents(client.trace))
              && r.value.transport == client.media && r.value.sessionId == client.peer.id && r.value.ip == HostOf(client.serverAddr)
              && r.value.port == match LatestPort(old(client.peer.rtpPort), Messages(xs)) case Some(port) => port case None => 5004
  {
    hide Conversation, DialogueOk, LatestPort, RtspClients.Numbered, Moved, OurEvents, Announced, EndsWithPeer, IsPlay, Framed, Incoming,
      Written, Asked, Collect, ResponsePairs;
    ghost var auth, start, first := client.authorizer, client.Here(), client.cseq;
    ghost var pending, written := client.stream.pending, client.stream.written;
    ghost var ys;
    var capabilities;
    capabilities, xs := AskCapabilities(client, names);
    if capabilities.Failure? {
      return Failure(capabilities.error), xs;
    }
    var settings := plan(capabilities.value);
    ghost var asked := OurEvents(client.trace);
    AskedSome(client.serverAddr, client.sessionId, first, names, asked);
    for i := 0 to |settings|
      invariant client.Valid() && client.cseq == first + 2 + i
      invariant Conversation(auth, start, xs, client.Here(), client.trace)
      invariant Moved([], client.trace, pending, client.stream.pending, written, client.stream.written)
      invariant asked <= OurEvents(client.trace)
      invariant AllAnnounced(client.serverAddr, client.sessionId, first, settings[..i], OurEvents(client.trace))
    {
      assert settings[i] in settings;
      ghost var trace, left, output := client.trace, client.stream.pending, client.stream.written;
      var accepted;
      accepted, ys := Announce(client, settings[i], start, xs);
      if accepted.Failure? {
        return Failure(accepted.error), xs;
      }
      xs := xs + ys;
      MovedTwice([], trace, client.trace, pending, left, client.stream.pending, written, output, client.stream.written);
      ghost var sent, response :|
        && Announced(client.serverAddr, client.sessionId, client.cseq, settings[i], sent, response)
        && OurEvents(client.trace) == OurEvents(trace) + [sent, response];
      OneMoreAnnounced(client.serverAddr, client.sessionId, first, settings[..i], OurEvents(trace), settings[i], sent, response);
      assert settings[..i + 1] == settings[..i] + [settings[i]];
    }
    assert settings[..|settings|] == settings;
    ghost var trace, left, output := client.trace, client.stream.pending, client.stream.written;
    r, ys := AwaitPlay(client, start, xs);
    if r.Success? {
      assert (xs + ys)[|xs + ys| - 1] == ys[|ys| - 1];
      xs := xs + ys;
      MovedTwice([], trace, client.trace, pending, left, client.stream.pending, written, output, client.stream.written);
      MovedMeans(client.trace, pending, client.stream.pending, written, client.stream.written);
      ConversationMeans(auth, start, xs, client.Here(), client.trace);
      AskedLonger(client.serverAddr, client.sessionId, first, names, asked, OurEvents(client.trace));
    }
  }

  lemma AskedSome(addr: string, session: Option<string>, first: nat, names: seq<string>, ours: seq<Event>)
    requires Asked(addr, session, first, names, ours) && |ours| == 4
    ensures ours[3].Response? && AllAnnounced(addr, session, first, [], ours)
  {
    hide STATUS;
  }

  lemma AskedLonger(addr: string, session: Option<string>, first: nat, names: seq<string>, asked: seq<Event>, ours: seq<Event>)
    requires Asked(addr, session, first, names, asked) && asked <= ours
    ensures Asked(addr, session, first, names, ours) && Capabilities(ours) == Capabilities(asked)
  {
    hide STATUS, OptionsRequest, GetParameterRequest;
  }

  lemma MovedMeans(trace: seq<Event>, pending: string, pending': string, written: string, written': string)
    requires Moved([], trace, pending, pending', written, written')
    ensures pending == Concat(Incoming(trace)) + pending' && written' == written + Written(trace)
  {
    hide Framed, Incoming, Written;
    assert trace[0..] == trace;
    FramedBytes(pending, Incoming(trace), pending');
  }

  lemma ConversationMeans(auth: bool, start: State, xs: seq<Exchange>, after: State, trace: seq<Event>)
    requires Conversation(auth, start, xs, after, trace)
    ensures DialogueOk(auth, PairOf(after), start.peer.id, Messages(xs), PeerEvents(trace))
    ensures after.peer.rtpPort == LatestPort(start.peer.rtpPort, Messages(xs))
    ensures after.peer.id == start.peer.id
  {
    EveryRequestAnswered(auth, start, xs);
    PortOfLatestSetup(start, xs);
    RunKeepsPair(start, xs);
  }
}
