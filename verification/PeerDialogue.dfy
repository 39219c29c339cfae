/**
 The two-way dialogue on one control connection: the sink's requests are answered while our own requests
 wait for their responses, until the sink sends PLAY.
 */
module PeerDialogue {
  import opened Wrappers
  import opened Text
  import opened RtspMessages
  import opened RtspSessions
  import opened SetupAgreement
  import opened Framing

  /** The reserved socket pair, with the sink's RTCP port when it offered one. */
  datatype MediaTransport = MediaTransport(rtp: nat, rtcp: nat, destinationRtcp: Option<nat>) {
    function Pair(): (nat, nat) {
      (rtp, rtcp)
    }
  }

  /** An even port and the odd one above it. */
  predicate IsPortPair(pair: (nat, nat)) {
    pair.0 % 2 == 0 && pair.1 == pair.0 + 1 && pair.1 <= MAX_U16
  }

  datatype PlayInfo = PlayInfo(transport: Option<MediaTransport>, ip: string, port: nat, sessionId: string)

  /** What one side of the dialogue remembers. */
  datatype State = State(peer: Session, media: Option<MediaTransport>)

  /** What is left open by the program text: the order of a hash map, and the ports the kernel reserves. */
  datatype Choice = Choice(order: seq<(string, string)>, pair: (nat, nat))

  /** A message that was read, with the choices made while handling it. */
  datatype Exchange = Exchange(message: string, choice: Choice)

  datatype Event =
    | Ignored(message: string)
    | Read(message: string)
    | Authorized(media: MediaTransport)
    | Wrote(text: string)
    | Sent(cseq: nat, text: string)
    | Response(text: string)

  const STATUS := "RTSP/1.0"

  function MediaFor(media: Option<MediaTransport>, transport: Option<string>, pair: (nat, nat)): MediaTransport {
    match media
    case None => MediaTransport(pair.0, pair.1, OfferedRtcp(transport))
    case Some(reserved) => reserved.(destinationRtcp := OfferedRtcp(transport))
  }

  function PlayPort(peer: Session): nat {
    match peer.rtpPort
    case Some(port) => port
    case None => 5004
  }

  // ---------- One exchange ----------

  /** The state after a request and the reply to it; the choices are those the program text leaves open. */
  function Respond(st: State, message: string, c: Choice): Result<(State, string), RtspError> {
    match ParseMessage(message)
    case Failure(error) => Failure(error)
    case Success(Options(cseq)) => Success((st.(peer := st.peer.(state := OptionsReceived)), Reply(cseq, PUBLIC)))
    case Success(GetParameter(cseq, names)) =>
      (match ParameterAnswer(st.peer.capabilities, names)
       case Failure(error) => Failure(error)
       case Success(text) => Success((st.(peer := st.peer.(state := GetParamReceived)), Reply(cseq, text))))
    case Success(SetParameter(cseq, params)) =>
      (match Store(st.peer, c.order)
       case (_, Some(error)) => Failure(error)
       case (after, None) => Success((st.(peer := after.(state := SetParamReceived)), Reply(cseq, OK_LINE))))
    case Success(Setup(cseq, _, transport)) =>
      var media := MediaFor(st.media, transport, c.pair);
      Success((State(AfterSetup(st.peer, transport), Some(media)), Reply(cseq, SetupText(st.peer, transport, media.Pair()))))
    case Success(Play(cseq, _)) => Success((st.(peer := st.peer.(state := Playing)), Reply(cseq, PlayText(st.peer))))
    case Success(Teardown(cseq, _)) => Success((st.(peer := st.peer.(state := TornDown)), Reply(cseq, OK_LINE)))
  }

  /** The choices are possible ones: an order of the assigned map, and an even/odd port pair. */
  ghost predicate Possible(message: string, c: Choice) {
    && IsPortPair(c.pair)
    && (!(STATUS <= message) && ParseMessage(message).Success? && ParseMessage(message).value.SetParameter? ==>
          Permutes(c.order, ParseMessage(message).value.params))
  }

  predicate IsSetup(message: string) {
    ParseMessage(message).Success? && ParseMessage(message).value.Setup?
  }

  predicate IsPlay(message: string) {
    !(STATUS <= message) && ParseMessage(message).Success? && ParseMessage(message).value.Play?
  }

  function Step(st: State, x: Exchange): Result<State, RtspError> {
    if STATUS <= x.message then Success(st)
    else
      match Respond(st, x.message, x.choice)
      case Failure(error) => Failure(error)
      case Success((after, _)) => Success(after)
  }

  function StepEvents(auth: bool, st: State, x: Exchange): seq<Event> {
    if STATUS <= x.message then [Ignored(x.message)]
    else
      match Respond(st, x.message, x.choice)
      case Failure(_) => [Read(x.message)]
      case Success((after, reply)) =>
        [Read(x.message)] + (if auth && IsSetup(x.message) && after.media.Some? then [Authorized(after.media.value)] else [])
        + [Wrote(reply)]
  }

  // ---------- Whole dialogues ----------

  function Run(st: State, xs: seq<Exchange>): Result<State, RtspError>
    decreases |xs|
  {
    if xs == [] then Success(st)
    else
      match Step(st, xs[0])
      case Failure(error) => Failure(error)
      case Success(after) => Run(after, xs[1..])
  }

  function Events(auth: bool, st: State, xs: seq<Exchange>): seq<Event>
    decreases |xs|
  {
    if xs == [] then []
    else
      match Step(st, xs[0])
      case Failure(_) => StepEvents(auth, st, xs[0])
      case Success(after) => StepEvents(auth, st, xs[0]) + Events(auth, after, xs[1..])
  }

  function Messages(xs: seq<Exchange>): (messages: seq<string>)
    ensures |messages| == |xs|
  {
    seq(|xs|, i requires 0 <= i < |xs| => xs[i].message)
  }

  function Written(events: seq<Event>): string {
    if events == [] then ""
    else (match events[0]
          case Wrote(text) => text
          case Sent(_, text) => text
          case _ => "") + Written(events[1..])
  }

  ghost predicate AllPossible(xs: seq<Exchange>) {
    forall x :: x in xs ==> Possible(x.message, x.choice)
  }

  lemma {:induction false} RunAppend(auth: bool, st: State, xs: seq<Exchange>, x: Exchange)
    requires Run(st, xs).Success?
    ensures Run(st, xs + [x]) == Step(Run(st, xs).value, x)
    ensures Events(auth, st, xs + [x]) == Events(auth, st, xs) + StepEvents(auth, Run(st, xs).value, x)
    decreases |xs|
  {
    hide Step, StepEvents;
    if xs == [] {
      assert xs + [x] == [x] && [x][1..] == [];
      assert Events(auth, st, [x]) == StepEvents(auth, st, x);
    } else {
      assert (xs + [x])[1..] == xs[1..] + [x] && (xs + [x])[0] == xs[0];
      RunAppend(auth, Step(st, xs[0]).value, xs[1..], x);
    }
  }

  lemma {:induction false} WrittenAppend(a: seq<Event>, b: seq<Event>)
    ensures Written(a + b) == Written(a) + Written(b)
  {
    if a == [] {
      assert a + b == b;
    } else {
      assert (a + b)[1..] == a[1..] + b;
      WrittenAppend(a[1..], b);
    }
  }

  /** What was read, message by message. */
  function Incoming(events: seq<Event>): seq<string> {
    if events == [] then []
    else (match events[0]
          case Read(message) => [message]
          case Ignored(message) => [message]
          case Response(text) => [text]
          case _ => []) + Incoming(events[1..])
  }

  lemma {:induction false} IncomingAppend(a: seq<Event>, b: seq<Event>)
    ensures Incoming(a + b) == Incoming(a) + Incoming(b)
  {
    if a == [] {
      assert a + b == b;
    } else {
      assert (a + b)[1..] == a[1..] + b;
      IncomingAppend(a[1..], b);
    }
  }

  /** These messages are cut from the input one after the other, and this much is left. */
  ghost predicate Framed(input: string, messages: seq<string>, left: string)
    decreases |messages|
  {
    if messages == [] then input == left
    else Frame(input).Success? && Frame(input).value.0 == messages[0] && Framed(Frame(input).value.1, messages[1..], left)
  }

  lemma {:induction false} FramedAppend(input: string, a: seq<string>, middle: string, b: seq<string>, left: string)
    requires Framed(input, a, middle) && Framed(middle, b, left)
    ensures Framed(input, a + b, left)
    decreases |a|
  {
    hide Frame;
    if a == [] {
      assert a + b == b;
    } else {
      assert (a + b)[0] == a[0] && (a + b)[1..] == a[1..] + b;
      FramedAppend(Frame(input).value.1, a[1..], middle, b, left);
    }
  }

  lemma FramedOne(input: string, message: string, left: string)
    requires Frame(input) == Success((message, left))
    ensures Framed(input, [message], left)
  {
    hide Frame;
    assert [message][1..] == [];
  }

  /** The messages cut from the input and what is left are together the input. */
  lemma {:induction false} FramedBytes(input: string, messages: seq<string>, left: string)
    requires Framed(input, messages, left)
    ensures input == Concat(messages) + left
    decreases |messages|
  {
    hide Frame;
    if messages != [] {
      FrameProgress(input);
      FramedBytes(Frame(input).value.1, messages[1..], left);
    }
  }

  /** The messages `xs` were read from `input` and served, leaving `left`, with these events and this output. */
  ghost predicate Served(auth: bool, st: State, xs: seq<Exchange>, after: State, input: string, left: string,
                         events: seq<Event>, output: string) {
    && AllPossible(xs) && Run(st, xs) == Success(after)
    && Framed(input, Messages(xs), left)
    && events == Events(auth, st, xs) && output == Written(events)
  }

  lemma ServedNothing(auth: bool, st: State, input: string)
    ensures Served(auth, st, [], st, input, input, [], "")
  {
    assert Messages([]) == [];
  }

  lemma ServeOneMore(auth: bool, st: State, xs: seq<Exchange>, here: State, input: string, left: string,
                     events: seq<Event>, output: string, x: Exchange, after: State, left': string)
    requires Served(auth, st, xs, here, input, left, events, output)
    requires Possible(x.message, x.choice) && Step(here, x) == Success(after) && Frame(left) == Success((x.message, left'))
    ensures Served(auth, st, xs + [x], after, input, left', events + StepEvents(auth, here, x),
                   output + Written(StepEvents(auth, here, x)))
  {
    hide Step, StepEvents, Possible, Run, Events, Written, Framed, Frame;
    RunAppend(auth, st, xs, x);
    WrittenAppend(events, StepEvents(auth, here, x));
    FramedOne(left, x.message, left');
    FramedAppend(input, Messages(xs), left, [x.message], left');
    assert Messages(xs + [x]) == Messages(xs) + [x.message];
  }

  lemma StepIncoming(auth: bool, st: State, x: Exchange)
    ensures Incoming(StepEvents(auth, st, x)) == [x.message]
  {
    hide Respond, IsSetup, STATUS;
    if STATUS <= x.message {
      IncomingOne(Ignored(x.message));
    } else {
      IncomingOne(Read(x.message));
      match Respond(st, x.message, x.choice)
      case Failure(_) =>
      case Success((after, reply)) =>
        var middle := if auth && IsSetup(x.message) && after.media.Some? then [Authorized(after.media.value)] else [];
        hide Incoming;
        IncomingAppend([Read(x.message)] + middle, [Wrote(reply)]);
        IncomingAppend([Read(x.message)], middle);
        IncomingOne(Wrote(reply));
        NothingIncoming();
        if middle != [] {
          IncomingOne(middle[0]);
          assert middle == [middle[0]];
        }
    }
  }

  lemma NothingIncoming()
    ensures Incoming([]) == []
  {
  }

  lemma IncomingOne(e: Event)
    ensures Incoming([e]) == match e case Read(m) => [m] case Ignored(m) => [m] case Response(t) => [t] case _ => []
  {
    assert [e][1..] == [];
  }

  /** A dialogue without failure reads exactly its messages. */
  lemma {:induction false} EventsIncoming(auth: bool, st: State, xs: seq<Exchange>)
    requires Run(st, xs).Success?
    ensures Incoming(Events(auth, st, xs)) == Messages(xs)
    decreases |xs|
  {
    hide Step, StepEvents;
    if xs == [] {
      assert Messages(xs) == [];
    } else {
      var after := Step(st, xs[0]).value;
      StepIncoming(auth, st, xs[0]);
      EventsIncoming(auth, after, xs[1..]);
      IncomingAppend(StepEvents(auth, st, xs[0]), Events(auth, after, xs[1..]));
      assert Messages(xs) == [xs[0].message] + Messages(xs[1..]);
    }
  }

  // ---------- What every successful dialogue satisfies ----------

  /** The events of one message, told without the state: each request has one reply, with its own CSeq. */
  ghost predicate ExchangeOk(auth: bool, pair: Option<(nat, nat)>, id: string, message: string, events: seq<Event>) {
    if STATUS <= message then events == [Ignored(message)]
    else
      var parsed := ParseMessage(message);
      && parsed.Success?
      && |events| >= 2 && events[0] == Read(message)
      && (exists body :: events[|events| - 1] == Wrote(Reply(parsed.value.cseq, body)))
      && if parsed.value.Setup? then
           && pair.Some?
           && (exists range :: events[|events| - 1] == Wrote(Reply(parsed.value.cseq, SetupAnswer(id, range, pair.value))))
           && if auth
              then |events| == 3 && events[1] == Authorized(MediaTransport(pair.value.0, pair.value.1, OfferedRtcp(parsed.value.transport)))
              else |events| == 2
         else |events| == 2
  }

  /** The trace of a dialogue is the concatenation, message by message, of such exchanges. */
  ghost predicate DialogueOk(auth: bool, pair: Option<(nat, nat)>, id: string, messages: seq<string>, events: seq<Event>)
    decreases |messages|
  {
    if messages == [] then events == []
    else
      exists n: nat :: n <= |events| && ExchangeOk(auth, pair, id, messages[0], events[..n])
        && DialogueOk(auth, pair, id, messages[1..], events[n..])
  }

  /** The RTP destination port after a message: only a SETUP with a parseable client port changes it. */
  function NextPort(port: Option<nat>, message: string): Option<nat> {
    if STATUS <= message || !IsSetup(message) then port
    else
      match OfferedPorts(ParseMessage(message).value.transport)
      case Some((_, offered)) => Some(offered)
      case None => port
  }

  /** The RTP port of the latest SETUP with a parseable client port, or else the given one. */
  function LatestPort(port: Option<nat>, messages: seq<string>): Option<nat>
    decreases |messages|
  {
    if messages == [] then port else LatestPort(NextPort(port, messages[0]), messages[1..])
  }

  function PairOf(st: State): Option<(nat, nat)> {
    match st.media
    case Some(media) => Some(media.Pair())
    case None => None
  }

  lemma {:induction false} StoreKeeps(s: Session, pairs: seq<(string, string)>)
    ensures Store(s, pairs).0.id == s.id && Store(s, pairs).0.rtpPort == s.rtpPort
    decreases |pairs|
  {
    if pairs != [] {
      var (name, value) := pairs[0];
      match CapabilityOf(name)
      case Some(capability) =>
        StoreKeeps(s.(capabilities := s.capabilities[capability := value], parameters := s.parameters[name := value]), pairs[1..]);
      case None =>
        if name == IDR_REQUEST {
          StoreKeeps(s.(parameters := s.parameters[name := value]), pairs[1..]);
        }
    }
  }

  lemma StepKeeps(st: State, x: Exchange)
    requires Step(st, x).Success?
    ensures var after := Step(st, x).value;
            && after.peer.id == st.peer.id
            && (st.media.Some? ==> PairOf(after) == PairOf(st))
            && after.peer.rtpPort == NextPort(st.peer.rtpPort, x.message)
            && (IsPortPair(x.choice.pair) && (st.media.Some? ==> IsPortPair(PairOf(st).value))
                ==> (after.media.Some? ==> IsPortPair(PairOf(after).value)))
  {
    StoreKeeps(st.peer, x.choice.order);
    hide Store, ParseMessage, ParameterAnswer, OfferedPorts, OfferedRtcp, Reply, SetupText, PlayText;
  }

  lemma StepOk(auth: bool, st: State, x: Exchange, pair: Option<(nat, nat)>)
    requires Step(st, x).Success?
    requires Step(st, x).value.media.Some? ==> PairOf(Step(st, x).value) == pair
    ensures ExchangeOk(auth, pair, st.peer.id, x.message, StepEvents(auth, st, x))
  {
    hide Store, ParameterAnswer, OfferedPorts, OfferedRtcp, Reply, SetupAnswer, PlayText;
    if !(STATUS <= x.message) {
      assert Respond(st, x.message, x.choice).Success?;
      hide Respond, ParseMessage, STATUS, PairOf;
      var (after, reply) := Respond(st, x.message, x.choice).value;
      ReplyHasBody(st, x);
      assert StepEvents(auth, st, x)[|StepEvents(auth, st, x)| - 1] == Wrote(reply);
    }
  }

  /** The reply carries the request's own CSeq, and a SETUP reply names the reserved pair. */
  lemma ReplyHasBody(st: State, x: Exchange)
    requires !(STATUS <= x.message) && Respond(st, x.message, x.choice).Success?
    ensures var parsed, (after, reply) := ParseMessage(x.message), Respond(st, x.message, x.choice).value;
            && parsed.Success?
            && (exists body :: reply == Reply(parsed.value.cseq, body))
            && (parsed.value.Setup? ==>
                  && after.media.Some?
                  && after.media.value == MediaTransport(PairOf(after).value.0, PairOf(after).value.1, OfferedRtcp(parsed.value.transport))
                  && exists range :: reply == Reply(parsed.value.cseq, SetupAnswer(st.peer.id, range, PairOf(after).value)))
  {
    hide Store, ParseMessage, ParameterAnswer, OfferedPorts, OfferedRtcp, Reply, SetupAnswer, PlayText;
  }

  lemma {:induction false} RunKeepsPair(st: State, xs: seq<Exchange>)
    requires Run(st, xs).Success?
    ensures st.media.Some? ==> PairOf(Run(st, xs).value) == PairOf(st)
    ensures Run(st, xs).value.peer.id == st.peer.id
    decreases |xs|
  {
    hide Step, NextPort;
    if xs != [] {
      StepKeeps(st, xs[0]);
      RunKeepsPair(Step(st, xs[0]).value, xs[1..]);
    }
  }

  /**
   Main result: in every dialogue that runs without error, each request is answered exactly once, in order
   and with its own CSeq; every SETUP reply names one unchanging pair of ports, and follows the
   authorization of that same pair when an authorizer is set.
   */
  lemma {:induction false} EveryRequestAnswered(auth: bool, st: State, xs: seq<Exchange>)
    requires Run(st, xs).Success?
    ensures DialogueOk(auth, PairOf(Run(st, xs).value), st.peer.id, Messages(xs), Events(auth, st, xs))
    decreases |xs|
  {
    if xs != [] {
      var after, pair := Step(st, xs[0]).value, PairOf(Run(st, xs).value);
      var first, rest := StepEvents(auth, st, xs[0]), Events(auth, after, xs[1..]);
      RunKeepsPair(after, xs[1..]);
      StepKeeps(st, xs[0]);
      StepOk(auth, st, xs[0], pair);
      EveryRequestAnswered(auth, after, xs[1..]);
      assert Messages(xs)[1..] == Messages(xs[1..]) && Messages(xs)[0] == xs[0].message;
      assert (first + rest)[..|first|] == first && (first + rest)[|first|..] == rest;
    }
  }

  /** Main result: the destination port is that of the latest SETUP that offered a parseable one. */
  lemma {:induction false} PortOfLatestSetup(st: State, xs: seq<Exchange>)
    requires Run(st, xs).Success?
    ensures Run(st, xs).value.peer.rtpPort == LatestPort(st.peer.rtpPort, Messages(xs))
    decreases |xs|
  {
    hide Step, NextPort;
    if xs != [] {
      var after := Step(st, xs[0]).value;
      StepKeeps(st, xs[0]);
      PortOfLatestSetup(after, xs[1..]);
      assert Messages(xs)[0] == xs[0].message && Messages(xs)[1..] == Messages(xs[1..]);
    }
  }

  /** The reserved ports are an even port and the odd one above it. */
  lemma {:induction false} PairIsEvenOdd(st: State, xs: seq<Exchange>)
    requires Run(st, xs).Success? && AllPossible(xs) && (st.media.Some? ==> IsPortPair(PairOf(st).value))
    ensures var after := Run(st, xs).value; after.media.Some? ==> IsPortPair(PairOf(after).value)
    ensures var after := Run(st, xs).value;
            after.media.Some? ==> after.media.value.rtp % 2 == 0 && after.media.value.rtcp == after.media.value.rtp + 1 <= 65535
    decreases |xs|
  {
    hide Step, NextPort;
    if xs != [] {
      assert Possible(xs[0].message, xs[0].choice);
      StepKeeps(st, xs[0]);
      PairIsEvenOdd(Step(st, xs[0]).value, xs[1..]);
    }
  }

  // ---------- The session state is only recorded ----------

  function WithState(st: State, state: SessionState): State {
    st.(peer := st.peer.(state := state))
  }

  lemma {:induction false} StoreAnyState(s: Session, pairs: seq<(string, string)>, state: SessionState)
    ensures Store(s.(state := state), pairs) == (Store(s, pairs).0.(state := state), Store(s, pairs).1)
    decreases |pairs|
  {
    hide CapabilityOf;
    if pairs != [] {
      var (name, value) := pairs[0];
      match CapabilityOf(name)
      case Some(capability) =>
        StoreAnyState(s.(capabilities := s.capabilities[capability := value], parameters := s.parameters[name := value]), pairs[1..], state);
      case None =>
        if name == IDR_REQUEST {
          StoreAnyState(s.(parameters := s.parameters[name := value]), pairs[1..], state);
        }
    }
  }

  /** States that differ at most in what was recorded as the session's state. */
  predicate SameButState(a: State, b: State) {
    b == WithState(a, b.peer.state)
  }

  /** A reply, and all that is stored, does not depend on the recorded state. */
  lemma RespondAnyState(st: State, state: SessionState, message: string, c: Choice)
    ensures match (Respond(st, message, c), Respond(WithState(st, state), message, c))
            case (Failure(e), Failure(e')) => e == e'
            case (Success((after, reply)), Success((after', reply'))) => reply == reply' && SameButState(after, after')
            case _ => false
  {
    StoreAnyState(st.peer, c.order, state);
    hide Store, ParseMessage, ParameterAnswer, OfferedPorts, OfferedRtcp, Reply, SetupAnswer;
  }

  lemma StepAnyState(auth: bool, st: State, state: SessionState, x: Exchange)
    ensures StepEvents(auth, st, x) == StepEvents(auth, WithState(st, state), x)
    ensures match (Step(st, x), Step(WithState(st, state), x))
            case (Failure(e), Failure(e')) => e == e'
            case (Success(after), Success(after')) => SameButState(after, after')
            case _ => false
  {
    RespondAnyState(st, state, x.message, x.choice);
    hide Respond, IsSetup;
  }

  /**
   PLAY and TEARDOWN only record a state: whatever is recorded, every later request is answered as it would have been
   otherwise, in every dialogue; in particular TEARDOWN does not end the answering.
   */
  lemma {:induction false} StateNeverMatters(auth: bool, st: State, state: SessionState, xs: seq<Exchange>)
    ensures Events(auth, st, xs) == Events(auth, WithState(st, state), xs)
    ensures match (Run(st, xs), Run(WithState(st, state), xs))
            case (Failure(e), Failure(e')) => e == e'
            case (Success(after), Success(after')) => SameButState(after, after')
            case _ => false
    decreases |xs|
  {
    if xs != [] {
      StepAnyState(auth, st, state, xs[0]);
      hide Step, StepEvents;
      if Step(st, xs[0]).Success? {
        var after, after' := Step(st, xs[0]).value, Step(WithState(st, state), xs[0]).value;
        StateNeverMatters(auth, after, after'.peer.state, xs[1..]);
      }
    }
  }
}
