/**
 Cutting the HDCP control stream into messages by their first byte, over any way in which the stream arrives.
 */
module HdcpFraming {
  import opened Wrappers

  type Bytes = seq<bv8>

  /** The lengths of the messages a receiver sends; other messages take what is there. */
  function KnownLength(id: bv8): Option<nat> {
    if id == 0x03 then Some(524)
    else if id == 0x06 then Some(9)
    else if id == 0x07 then Some(33)
    else if id == 0x08 then Some(17)
    else if id == 0x0a then Some(33)
    else if id == 0x14 then Some(6)
    else None
  }

  function MessageLength(buffer: Bytes): (r: Option<nat>)
    ensures r.Some? ==> 1 <= r.value <= |buffer|
  {
    if buffer == [] then None
    else
      var length := match KnownLength(buffer[0]) case Some(n) => n case None => |buffer|;
      if |buffer| >= length then Some(length) else None
  }

  /** What one read of the socket brings before the deadline passes. */
  datatype Event = Data(bytes: Bytes) | WouldBlock | Closed | Failed | Deadline

  datatype Next = Next(message: Option<Bytes>, buffer: Bytes, input: seq<Event>)

  function Partial(buffer: Bytes, input: seq<Event>): Next {
    if buffer == [] then Next(None, [], input) else Next(Some(buffer), [], input)
  }

  /** One wait for a message; an exhausted input stands for the passing of the deadline. */
  function Wait(buffer: Bytes, input: seq<Event>): Next
    decreases |input|
  {
    match MessageLength(buffer)
    case Some(n) => Next(Some(buffer[..n]), buffer[n..], input)
    case None =>
      if input == [] then Partial(buffer, [])
      else match input[0]
        case Data(bytes) => Wait(buffer + bytes, input[1..])
        case WouldBlock => Wait(buffer, input[1..])
        case Closed => Partial(buffer, input[1..])
        case Deadline => Partial(buffer, input[1..])
        case Failed => Next(None, buffer, input[1..])
  }

  /** The bytes that a stretch of input brings. */
  function Received(input: seq<Event>): Bytes {
    if input == [] then [] else (if input[0].Data? then input[0].bytes else []) + Received(input[1..])
  }

  function Flat(messages: seq<Bytes>): Bytes {
    if messages == [] then [] else messages[0] + Flat(messages[1..])
  }

  lemma {:induction false} FlatAppend(a: seq<Bytes>, b: seq<Bytes>)
    ensures Flat(a + b) == Flat(a) + Flat(b)
  {
    if a == [] {
      assert a + b == b;
    } else {
      assert (a + b)[1..] == a[1..] + b;
      FlatAppend(a[1..], b);
    }
  }

  lemma {:induction false} ReceivedAppend(a: seq<Event>, b: seq<Event>)
    ensures Received(a + b) == Received(a) + Received(b)
  {
    if a == [] {
      assert a + b == b;
    } else {
      assert (a + b)[1..] == a[1..] + b;
      ReceivedAppend(a[1..], b);
    }
  }

  /** What was buffered and what arrives is returned or still buffered: no byte is lost, repeated or reordered. */
  lemma {:induction false} WaitConserves(buffer: Bytes, input: seq<Event>)
    ensures var next := Wait(buffer, input);
            && |next.input| <= |input| && next.input == input[|input| - |next.input|..]
            && (if next.message.Some? then next.message.value else []) + next.buffer
               == buffer + Received(input[..|input| - |next.input|])
    decreases |input|
  {
    hide MessageLength, Received;
    NothingReceived(input);
    if MessageLength(buffer).None? && input != [] {
      var used := |input| - |Wait(buffer, input).input|;
      if input[0].Data? {
        WaitConserves(buffer + input[0].bytes, input[1..]);
        ReceivedCons(input, used);
      } else if input[0].WouldBlock? {
        WaitConserves(buffer, input[1..]);
        ReceivedCons(input, used);
      } else {
        ReceivedCons(input, 1);
        NothingReceived(input[1..]);
      }
    }
  }

  lemma NothingReceived(input: seq<Event>)
    ensures Received(input[..0]) == []
  {
  }

  lemma ReceivedCons(input: seq<Event>, used: nat)
    requires 1 <= used <= |input|
    ensures Received(input[..used]) == (if input[0].Data? then input[0].bytes else []) + Received(input[1..][..used - 1])
  {
    assert input[..used][0] == input[0] && input[..used][1..] == input[1..][..used - 1];
  }

  class Reader {
    var buffer: Bytes
    var input: seq<Event>
    ghost var received: Bytes
    ghost var returned: seq<Bytes>

    /** Everything received was returned as messages or is still buffered. */
    ghost predicate Valid()
      reads this
    {
      Flat(returned) + buffer == received
    }

    constructor (input: seq<Event>)
      ensures Valid() && buffer == [] && this.input == input && received == [] && returned == []
    {
      buffer, this.input, received, returned := [], input, [], [];
    }

    method Extract() returns (message: Option<Bytes>)
      modifies `buffer
      ensures MessageLength(old(buffer)).None? ==> message == None && buffer == old(buffer)
      ensures MessageLength(old(buffer)).Some? ==>
                var n := MessageLength(old(buffer)).value;
                message == Some(old(buffer)[..n]) && buffer == old(buffer)[n..]
    {
      match MessageLength(buffer)
      case None => message := None;
      case Some(n) => message, buffer := Some(buffer[..n]), buffer[n..];
    }

    method ReadMessage() returns (message: Option<Bytes>)
      requires Valid()
      modifies this
      ensures Valid()
      ensures Next(message, buffer, input) == Wait(old(buffer), old(input))
      ensures returned == old(returned) + (if message.Some? then [message.value] else [])
    {
      hide MessageLength;
      WaitConserves(buffer, input);
      ghost var before, arriving := buffer, input;
      message := Extract();
      while message.None? && input != []
        invariant message.None? ==> Wait(before, arriving) == Wait(buffer, input)
        invariant message.Some? ==> Wait(before, arriving) == Next(message, buffer, input)
        invariant message.None? ==> MessageLength(buffer).None?
        invariant returned == old(returned) && received == old(received)
        decreases |input|
      {
        var event := input[0];
        input := input[1..];
        if event.Closed? || event.Deadline? {
          if buffer != [] {
            message, buffer := Some(buffer), [];
          }
          Account(before, arriving, message);
          return;
        }
        if event.Failed? {
          Account(before, arriving, message);
          return;
        }
        if event.Data? {
          buffer := buffer + event.bytes;
          message := Extract();
        }
      }
      if message.None? && buffer != [] {
        message, buffer := Some(buffer), [];
      }
      Account(before, arriving, message);
    }

    /** Ghost accounting of one finished wait. */
    ghost method Account(before: Bytes, arriving: seq<Event>, message: Option<Bytes>)
      requires Flat(returned) + before == received
      requires Wait(before, arriving) == Next(message, buffer, input)
      modifies `received, `returned
      ensures Valid()
      ensures returned == old(returned) + (if message.Some? then [message.value] else [])
    {
      WaitConserves(before, arriving);
      var arrived := Received(arriving[..|arriving| - |input|]);
      Accounted(returned, message, buffer, before, arrived);
      received := received + arrived;
      if message.Some? {
        returned := returned + [message.value];
      }
    }
  }

  lemma Accounted(returned: seq<Bytes>, message: Option<Bytes>, buffer: Bytes, before: Bytes, arrived: Bytes)
    requires (if message.Some? then message.value else []) + buffer == before + arrived
    ensures Flat(returned + if message.Some? then [message.value] else []) + buffer == Flat(returned) + before + arrived
  {
    if message.Some? {
      FlatAppend(returned, [message.value]);
      assert [message.value][1..] == [];
      assert Flat([message.value]) == message.value + [];
    } else {
      assert returned + [] == returned;
    }
    assert Flat(returned) + before + arrived == Flat(returned) + (before + arrived);
  }

  // ---------- Independence of chunking ----------

  /** All messages that repeated waits return while only data arrives, chunk by chunk. */
  function Drain(buffer: Bytes, chunks: seq<Bytes>): seq<Bytes>
    decreases |buffer| + |Flat(chunks)|, |chunks|
  {
    match MessageLength(buffer)
    case Some(n) => [buffer[..n]] + Drain(buffer[n..], chunks)
    case None => if chunks == [] then [] else Drain(buffer + chunks[0], chunks[1..])
  }

  function AsData(chunks: seq<Bytes>): (input: seq<Event>)
    ensures |input| == |chunks|
  {
    if chunks == [] then [] else [Data(chunks[0])] + AsData(chunks[1..])
  }

  /** One wait takes the next of these messages, or finds that there is none and returns the incomplete rest. */
  lemma {:induction false} WaitIsDrain(buffer: Bytes, chunks: seq<Bytes>)
    ensures var next := Wait(buffer, AsData(chunks));
            if Drain(buffer, chunks) == [] then next == Partial(buffer + Flat(chunks), [])
            else && |next.input| <= |chunks|
                 && next.input == AsData(chunks[|chunks| - |next.input|..])
                 && next.message.Some?
                 && Drain(buffer, chunks) == [next.message.value] + Drain(next.buffer, chunks[|chunks| - |next.input|..])
    decreases |chunks|
  {
    hide MessageLength, Wait, Drain, AsData;
    if MessageLength(buffer).Some? {
      WaitTakes(buffer, chunks);
      assert chunks[0..] == chunks;
    } else if chunks == [] {
      WaitStarves(buffer);
    } else {
      WaitGoesOn(buffer, chunks);
      WaitIsDrain(buffer + chunks[0], chunks[1..]);
      var k := |Wait(buffer, AsData(chunks)).input|;
      assert k <= |chunks| - 1 ==> chunks[1..][|chunks| - 1 - k..] == chunks[|chunks| - k..];
      assert buffer + chunks[0] + Flat(chunks[1..]) == buffer + Flat(chunks);
    }
  }

  lemma WaitTakes(buffer: Bytes, chunks: seq<Bytes>)
    requires MessageLength(buffer).Some?
    ensures var n := MessageLength(buffer).value;
            && Wait(buffer, AsData(chunks)) == Next(Some(buffer[..n]), buffer[n..], AsData(chunks))
            && Drain(buffer, chunks) == [buffer[..n]] + Drain(buffer[n..], chunks)
  {
    hide MessageLength;
  }

  lemma WaitStarves(buffer: Bytes)
    requires MessageLength(buffer).None?
    ensures Drain(buffer, []) == [] && Wait(buffer, AsData([])) == Partial(buffer, []) && buffer + Flat([]) == buffer
  {
    hide MessageLength;
  }

  lemma WaitGoesOn(buffer: Bytes, chunks: seq<Bytes>)
    requires MessageLength(buffer).None? && chunks != []
    ensures Wait(buffer, AsData(chunks)) == Wait(buffer + chunks[0], AsData(chunks[1..]))
    ensures Drain(buffer, chunks) == Drain(buffer + chunks[0], chunks[1..])
  {
    hide MessageLength;
    assert AsData(chunks)[1..] == AsData(chunks[1..]);
  }

  /** The messages of a stream that arrives all at once. */
  function Decode(stream: Bytes): seq<Bytes> {
    match MessageLength(stream)
    case Some(n) => [stream[..n]] + Decode(stream[n..])
    case None => []
  }

  /** Whether the stream consists of messages of known kinds, perhaps an incomplete one, perhaps one last foreign byte. */
  predicate Steady(stream: Bytes) {
    if stream == [] then true
    else match KnownLength(stream[0])
      case Some(n) => |stream| < n || Steady(stream[n..])
      case None => |stream| == 1
  }

  /** More bytes behind a complete message of a known kind do not change where it ends. */
  lemma LengthStays(buffer: Bytes, more: Bytes)
    requires buffer != [] && KnownLength(buffer[0]).Some?
    ensures MessageLength(buffer).Some? ==> MessageLength(buffer + more) == MessageLength(buffer)
    ensures MessageLength(buffer) == if |buffer| >= KnownLength(buffer[0]).value then KnownLength(buffer[0]) else None
  {
  }

  /** Whatever the chunks, a steady stream yields the same messages. */
  lemma {:induction false} SteadyDrains(buffer: Bytes, chunks: seq<Bytes>)
    requires Steady(buffer + Flat(chunks))
    ensures Drain(buffer, chunks) == Decode(buffer + Flat(chunks))
    decreases |buffer| + |Flat(chunks)|, |chunks|
  {
    var stream := buffer + Flat(chunks);
    if MessageLength(buffer).Some? {
      var n := MessageLength(buffer).value;
      assert stream[0] == buffer[0];
      if KnownLength(buffer[0]).Some? {
        LengthStays(buffer, Flat(chunks));
      } else {
        assert buffer == stream;
      }
      assert stream[..n] == buffer[..n];
      assert stream[n..] == buffer[n..] + Flat(chunks);
      SteadyDrains(buffer[n..], chunks);
    } else if chunks != [] {
      assert stream == (buffer + chunks[0]) + Flat(chunks[1..]);
      SteadyDrains(buffer + chunks[0], chunks[1..]);
    } else {
      assert stream == buffer;
    }
  }

  /** The bytes up to the first foreign message that has more than one byte behind the known ones. */
  function Foreign(stream: Bytes): (n: nat)
    requires !Steady(stream)
    ensures n + 1 < |stream| && KnownLength(stream[n]).None?
  {
    match KnownLength(stream[0])
    case Some(n) => n + Foreign(stream[n..])
    case None => 0
  }

  /** A stream that is not steady can be cut so that its messages come out differently. */
  lemma {:induction false} UnsteadyDepends(stream: Bytes)
    requires !Steady(stream)
    ensures var n := Foreign(stream);
            && Flat([stream[..n + 1], stream[n + 1..]]) == Flat([stream]) == stream
            && Drain([], [stream[..n + 1], stream[n + 1..]]) != Drain([], [stream])
  {
    var n := Foreign(stream);
    var first, rest := stream[..n + 1], stream[n + 1..];
    TwoChunks(first, rest);
    assert first + rest == stream;
    AllAtOnce(stream);
    CutApart(stream, [rest]);
    FirstChunk(first, [rest]);
    FirstChunk(stream, []);
    assert [first] + [rest] == [first, rest] && [stream] + [] == [stream];
  }

  lemma FirstChunk(chunk: Bytes, chunks: seq<Bytes>)
    ensures Drain([], [chunk] + chunks) == Drain(chunk, chunks)
  {
    assert [] + chunk == chunk && ([chunk] + chunks)[1..] == chunks;
  }

  lemma TwoChunks(first: Bytes, rest: Bytes)
    ensures Flat([first, rest]) == first + rest && Flat([first + rest]) == first + rest
  {
    assert [first, rest][1..] == [rest] && [rest][1..] == [] && [first + rest][1..] == [];
    assert Flat([rest]) == rest + [];
  }

  /** The number of complete known messages before the foreign one. */
  function Before(stream: Bytes): nat
    requires !Steady(stream)
  {
    match KnownLength(stream[0])
    case Some(n) => 1 + Before(stream[n..])
    case None => 0
  }

  lemma LengthOf(stream: Bytes)
    requires stream != []
    ensures MessageLength(stream)
         == match KnownLength(stream[0])
            case Some(n) => if |stream| >= n then Some(n) else None
            case None => Some(|stream|)
  {
  }

  /** All at once, the foreign message takes everything behind it. */
  lemma {:induction false} AllAtOnce(stream: Bytes)
    requires !Steady(stream)
    ensures |Drain(stream, [])| > Before(stream) && Drain(stream, [])[Before(stream)] == stream[Foreign(stream)..]
  {
    LengthOf(stream);
    hide KnownLength, MessageLength, Drain;
    match KnownLength(stream[0])
    case Some(n) =>
      KnownUnfolds(stream, n);
      hide Foreign, Before, Steady;
      AllAtOnce(stream[n..]);
      DrainStep(stream, n, []);
      assert stream[n..][Foreign(stream[n..])..] == stream[Foreign(stream)..];
    case None =>
      assert Foreign(stream) == Before(stream) == 0;
      DrainStep(stream, |stream|, []);
      assert stream[..|stream|] == stream[0..];
  }

  lemma KnownUnfolds(stream: Bytes, n: nat)
    requires !Steady(stream) && KnownLength(stream[0]) == Some(n)
    ensures 0 < n <= |stream| && !Steady(stream[n..])
    ensures Before(stream) == 1 + Before(stream[n..]) && Foreign(stream) == n + Foreign(stream[n..])
  {
    assert 0 < n;
    hide KnownLength;
  }

  /** Cut behind its first byte, the foreign message is that byte. */
  lemma {:induction false} CutApart(stream: Bytes, chunks: seq<Bytes>)
    requires !Steady(stream)
    ensures |Drain(stream[..Foreign(stream) + 1], chunks)| > Before(stream)
    ensures |Drain(stream[..Foreign(stream) + 1], chunks)[Before(stream)]| == 1
  {
    FirstLength(stream);
    if KnownLength(stream[0]).Some? {
      var n := KnownLength(stream[0]).value;
      KnownFirst(stream, n);
      hide *;
      CutApart(stream[n..], chunks);
      DrainStep(stream[..Foreign(stream) + 1], n, chunks);
    } else {
      assert Before(stream) == 0;
      hide *;
      DrainStep(stream[..Foreign(stream) + 1], 1, chunks);
    }
  }

  lemma FirstLength(stream: Bytes)
    requires !Steady(stream)
    ensures MessageLength(stream[..Foreign(stream) + 1]) == if KnownLength(stream[0]).Some? then KnownLength(stream[0]) else Some(1)
  {
    assert stream[..Foreign(stream) + 1][0] == stream[0];
    LengthOf(stream[..Foreign(stream) + 1]);
    hide KnownLength, MessageLength;
  }

  lemma KnownFirst(stream: Bytes, n: nat)
    requires !Steady(stream) && KnownLength(stream[0]) == Some(n)
    ensures n <= |stream| && !Steady(stream[n..]) && Before(stream) == 1 + Before(stream[n..])
    ensures stream[..Foreign(stream) + 1][n..] == stream[n..][..Foreign(stream[n..]) + 1]
  {
    KnownUnfolds(stream, n);
    hide KnownLength, Foreign, Before, Steady;
  }

  lemma DrainStep(buffer: Bytes, n: nat, chunks: seq<Bytes>)
    requires MessageLength(buffer) == Some(n)
    ensures Drain(buffer, chunks) == [buffer[..n]] + Drain(buffer[n..], chunks)
  {
  }

  /**
   Main result: the messages do not depend on how the stream is cut into reads exactly when the stream is steady:
   it holds messages of known kinds, then perhaps an incomplete one or one last foreign byte.
   */
  lemma ChunkingDoesNotMatter(stream: Bytes)
    ensures Steady(stream)
       <==> forall a: seq<Bytes>, b: seq<Bytes> :: Flat(a) == stream && Flat(b) == stream ==> Drain([], a) == Drain([], b)
  {
    if Steady(stream) {
      forall a: seq<Bytes> | Flat(a) == stream ensures Drain([], a) == Decode(stream) {
        assert [] + Flat(a) == stream;
        SteadyDrains([], a);
      }
    } else {
      UnsteadyDepends(stream);
    }
  }
}
