/**
 The worker transport: length-prefixed frames decoded from a stream that may be cut anywhere, with one
 authenticated bootstrap and consecutive sequence numbers.

 The payload codec (JSON checked by a schema) is a parameter: any partial function from bytes to frames.
 */
module WorkerTransport {
  import opened Options

  type byte = b: int | 0 <= b < 256

  const MAX_FRAME_BYTES := 12 * 1024 * 1024

  datatype Identity = Identity(session: string, worker: string, generation: nat, protocol: nat)

  datatype Body = Bootstrap(token: string) | Other(kind: string, fields: string)

  datatype Frame = Frame(identity: Identity, sequence: nat, body: Body)

  datatype Failure =
    | InvalidFrameLength | MalformedFrame | MismatchedGeneration | InvalidFrameOrder
    | BootstrapRequired | AuthenticationFailed | DuplicateBootstrap | WorkerDisconnected

  /**
   What a transport is made with: its generation, its token, the payload decoder, and the frame callback as
   far as it throws: the failure that is then reported, which for any error of its own is MalformedFrame.
   */
  datatype Config = Config(identity: Identity, token: string, decode: seq<byte> -> Option<Frame>,
                           throws: Frame -> Option<Failure>)

  datatype Transport = Transport(
    buffer: seq<byte>, nextSequence: nat, authenticated: bool, closed: bool,
    failure: Option<Failure>, delivered: seq<Frame>)

  const FRESH := Transport([], 0, false, false, None, [])

  // ---------------------------------------------------------------- framing

  function Length(header: seq<byte>): nat
    requires |header| == 4
  {
    ((header[0] as int * 256 + header[1] as int) * 256 + header[2] as int) * 256 + header[3] as int
  }

  /** writeUInt32BE. */
  function Header(n: nat): seq<byte>
    requires n <= MAX_FRAME_BYTES
  {
    [n / 0x1000000, n / 0x10000 % 256, n / 0x100 % 256, n % 256]
  }

  lemma HeaderRoundTrip(n: nat)
    requires n <= MAX_FRAME_BYTES
    ensures |Header(n)| == 4 && Length(Header(n)) == n
  {
    assert n / 0x10000 == n / 0x100 / 256 && n / 0x1000000 == n / 0x10000 / 256;
  }

  // ---------------------------------------------------------------- the receiving machine

  function Fail(t: Transport, failure: Failure): Transport {
    t.(closed := true, failure := Some(failure))
  }

  /** SessionWorkerProtocol.accept, then admission, then delivery. */
  function TakeFrame(t: Transport, config: Config, payload: seq<byte>): Transport {
    match config.decode(payload)
    case None => Fail(t, MalformedFrame)
    case Some(frame) =>
      if frame.identity != config.identity then Fail(t, MismatchedGeneration)
      else if frame.sequence != t.nextSequence then Fail(t, InvalidFrameOrder)
      else
        var counted := t.(nextSequence := t.nextSequence + 1);
        if !t.authenticated && !frame.body.Bootstrap? then Fail(counted, BootstrapRequired)
        else if !t.authenticated && frame.body.token != config.token then Fail(counted, AuthenticationFailed)
        else if t.authenticated && frame.body.Bootstrap? then Fail(counted, DuplicateBootstrap)
        else
          var taken := counted.(authenticated := true, delivered := t.delivered + [frame]);
          if config.throws(frame).Some? then Fail(taken, config.throws(frame).value) else taken
  }

  /** Whether the buffer holds a header that is wrong or a whole frame. */
  predicate CanStep(t: Transport) {
    && !t.closed && |t.buffer| >= 4
    && var length := Length(t.buffer[..4]);
       length == 0 || length > MAX_FRAME_BYTES || |t.buffer| >= length + 4
  }

  function StepOne(t: Transport, config: Config): Transport
    requires CanStep(t)
  {
    var length := Length(t.buffer[..4]);
    if length == 0 || length > MAX_FRAME_BYTES then Fail(t, InvalidFrameLength)
    else TakeFrame(t.(buffer := t.buffer[length + 4..]), config, t.buffer[4..length + 4])
  }

  function Consume(t: Transport, config: Config): Transport
    decreases |t.buffer|, !t.closed
  {
    if CanStep(t) then Consume(StepOne(t, config), config) else t
  }

  /** What a fresh transport makes of bytes that come in one piece. */
  function Decoded(bytes: seq<byte>, config: Config): Transport {
    Consume(FRESH.(buffer := bytes), config)
  }

  function HandleData(t: Transport, config: Config, chunk: seq<byte>): Transport {
    if t.closed then t else Consume(t.(buffer := t.buffer + chunk), config)
  }

  // ---------------------------------------------------------------- the object

  class SessionWorkerTransport {
    const config: Config
    var buffer: seq<byte>
    var nextSequence: nat
    var authenticated: bool
    var closed: bool
    var failure: Option<Failure>
    var delivered: seq<Frame>

    /** All bytes received while open. */
    ghost var received: seq<byte>

    function State(): Transport reads this {
      Transport(buffer, nextSequence, authenticated, closed, failure, delivered)
    }

    /** What was delivered is orderly and is what the bytes received decode to in one piece. */
    ghost predicate Valid() reads this {
      && Admitted(State(), config)
      && (if closed then delivered == Decoded(received, config).delivered else State() == Decoded(received, config))
    }

    constructor (config: Config)
      ensures State() == FRESH && this.config == config && received == [] && Valid()
    {
      this.config := config;
      buffer, nextSequence, authenticated, closed, failure, delivered := [], 0, false, false, None, [];
      received := [];
    }

    method Reject(code: Failure)
      modifies this`closed, this`failure
      ensures State() == if old(closed) then old(State()) else Fail(old(State()), code)
    {
      if closed {
        return;
      }
      closed := true;
      failure := Some(code);
    }

    /** A frame is accepted exactly if it is of this generation and follows all that were delivered. */
    method Accept(frame: Frame) returns (error: Option<Failure>)
      requires !closed && Admitted(State(), config)
      modifies this`nextSequence
      ensures error.None? <==> frame.identity == config.identity && frame.sequence == |delivered|
      ensures error.None? ==> nextSequence == |delivered| + 1
      ensures error.Some? ==> nextSequence == old(nextSequence)
      ensures error == Some(MismatchedGeneration) <==> frame.identity != config.identity
      ensures error.None? || error.value in {MismatchedGeneration, InvalidFrameOrder}
    {
      if frame.identity != config.identity {
        return Some(MismatchedGeneration);
      }
      if frame.sequence != nextSequence {
        return Some(InvalidFrameOrder);
      }
      nextSequence := nextSequence + 1;
      error := None;
    }

    /**
     Delivers the payload's frame, which then ends an orderly sequence, or names the failure; only a callback
     that throws fails after its frame was delivered.
     */
    method Admit(payload: seq<byte>) returns (error: Option<Failure>)
      requires !closed && Admitted(State(), config)
      modifies this`nextSequence, this`authenticated, this`delivered
      ensures TakeFrame(old(State()), config, payload)
           == if error.Some? then Fail(State(), error.value) else State()
      ensures error.None? ==> Admitted(State(), config) && config.decode(payload).Some?
                              && delivered == old(delivered) + [config.decode(payload).value]
      ensures error.Some? ==>
                delivered == old(delivered)
                || (config.decode(payload).Some? && error == config.throws(config.decode(payload).value)
                    && delivered == old(delivered) + [config.decode(payload).value])
    {
      var decoded := config.decode(payload);
      if decoded.None? {
        return Some(MalformedFrame);
      }
      var frame := decoded.value;
      error := Accept(frame);
      if error.Some? {
        return;
      }
      if !authenticated {
        if !frame.body.Bootstrap? {
          return Some(BootstrapRequired);
        }
        if frame.body.token != config.token {
          return Some(AuthenticationFailed);
        }
        authenticated := true;
      } else if frame.body.Bootstrap? {
        return Some(DuplicateBootstrap);
      }
      delivered := delivered + [frame];
      error := config.throws(frame);
    }

    /** Decodes what the buffer holds, until it holds no whole frame or a frame is refused. */
    method DecodeBuffer()
      requires !closed && Admitted(State(), config)
      modifies this`buffer, this`nextSequence, this`authenticated, this`delivered, this`closed, this`failure
      ensures State() == Consume(old(State()), config)
    {
      ghost var start := State();
      while |buffer| >= 4
        invariant !closed && Consume(State(), config) == Consume(start, config)
        invariant Admitted(State(), config)
        decreases |buffer|
      {
        var length := Length(buffer[..4]);
        if length == 0 || length > MAX_FRAME_BYTES {
          Reject(InvalidFrameLength);
          return;
        }
        if |buffer| < length + 4 {
          return;
        }
        var payload := buffer[4..length + 4];
        buffer := buffer[length + 4..];
        var error := Admit(payload);
        if error.Some? {
          Reject(error.value);
          return;
        }
      }
    }

    method OnData(chunk: seq<byte>)
      requires Valid()
      modifies this
      ensures State() == HandleData(old(State()), config, chunk)
      ensures received == if old(closed) then old(received) else old(received) + chunk
      ensures Valid() && old(delivered) <= delivered
    {
      if closed {
        return;
      }
      ReceivedContinues(State(), config, received, chunk);
      ConsumeAdmits(State().(buffer := buffer + chunk), config);
      received := received + chunk;
      buffer := buffer + chunk;
      DecodeBuffer();
    }

    method OnDisconnect()
      requires Valid()
      modifies this`closed, this`failure
      ensures State() == if old(closed) then old(State()) else Fail(old(State()), WorkerDisconnected)
      ensures Valid()
    {
      Reject(WorkerDisconnected);
    }
  }

  /** An open transport that has decoded all it received, given more, decodes all of that. */
  lemma ReceivedContinues(t: Transport, config: Config, received: seq<byte>, chunk: seq<byte>)
    requires !t.closed && t == Decoded(received, config)
    ensures Alike(HandleData(t, config, chunk), Decoded(received + chunk, config))
  {
    var whole := FRESH.(buffer := received);
    ConsumeContinues(whole, config, chunk);
    assert whole.(buffer := whole.buffer + chunk) == FRESH.(buffer := received + chunk);
  }

  // ---------------------------------------------------------------- chunking does not matter

  /** What an observer sees, and, while the transport is open, all of its state. */
  ghost predicate Alike(a: Transport, b: Transport) {
    && a.delivered == b.delivered && a.failure == b.failure && a.closed == b.closed
    && (!a.closed ==> a == b)
  }

  lemma StepIgnoresLaterBytes(t: Transport, config: Config, more: seq<byte>)
    requires CanStep(t)
    ensures CanStep(t.(buffer := t.buffer + more))
    ensures StepOne(t.(buffer := t.buffer + more), config)
         == StepOne(t, config).(buffer := StepOne(t, config).buffer + more)
  {
    var longer := t.(buffer := t.buffer + more);
    assert longer.buffer[..4] == t.buffer[..4];
    var length := Length(t.buffer[..4]);
    if 0 < length <= MAX_FRAME_BYTES {
      assert longer.buffer[4..length + 4] == t.buffer[4..length + 4];
      assert longer.buffer[length + 4..] == t.buffer[length + 4..] + more;
      TakeFrameIgnoresBuffer(t.(buffer := t.buffer[length + 4..]), config, t.buffer[4..length + 4], more);
    }
  }

  lemma TakeFrameIgnoresBuffer(t: Transport, config: Config, payload: seq<byte>, more: seq<byte>)
    ensures var a := TakeFrame(t, config, payload);
            TakeFrame(t.(buffer := t.buffer + more), config, payload) == a.(buffer := a.buffer + more)
  {}

  /** Bytes that arrive after a stop continue it as if they had been there. */
  lemma {:induction false} ConsumeContinues(t: Transport, config: Config, more: seq<byte>)
    ensures var first := Consume(t, config);
            Alike(if first.closed then first else Consume(first.(buffer := first.buffer + more), config),
                  Consume(t.(buffer := t.buffer + more), config))
    decreases |t.buffer|, !t.closed
  {
    if CanStep(t) {
      StepIgnoresLaterBytes(t, config, more);
      ConsumeContinues(StepOne(t, config), config, more);
    }
  }

  function Feed(t: Transport, config: Config, chunks: seq<seq<byte>>): Transport {
    if chunks == [] then t
    else HandleData(Feed(t, config, chunks[..|chunks| - 1]), config, chunks[|chunks| - 1])
  }

  function Joined(chunks: seq<seq<byte>>): seq<byte> {
    if chunks == [] then [] else Joined(chunks[..|chunks| - 1]) + chunks[|chunks| - 1]
  }

  /**
   Chunking independence. The frames delivered and the failure depend only on the bytes received, not
   on how they were cut.
   */
  lemma {:induction false} ChunkingIsInvisible(config: Config, chunks: seq<seq<byte>>)
    ensures Alike(Feed(FRESH, config, chunks), Decoded(Joined(chunks), config))
  {
    if chunks != [] {
      var front, last := chunks[..|chunks| - 1], chunks[|chunks| - 1];
      ChunkingIsInvisible(config, front);
      var whole := FRESH.(buffer := Joined(front));
      ConsumeContinues(whole, config, last);
      assert whole.(buffer := whole.buffer + last) == FRESH.(buffer := Joined(chunks));
    }
  }

  /** Two cuttings of one byte stream are observed alike. */
  lemma CuttingsAgree(config: Config, chunks: seq<seq<byte>>, others: seq<seq<byte>>)
    requires Joined(chunks) == Joined(others)
    ensures Alike(Feed(FRESH, config, chunks), Feed(FRESH, config, others))
  {
    ChunkingIsInvisible(config, chunks);
    ChunkingIsInvisible(config, others);
  }

  // ---------------------------------------------------------------- what can be delivered

  /** The first frame delivered is the authenticated bootstrap, the only one; sequences count from 0. */
  ghost predicate Orderly(frames: seq<Frame>, config: Config) {
    forall k :: 0 <= k < |frames| ==>
      && frames[k].identity == config.identity && frames[k].sequence == k
      && (k == 0 <==> frames[k].body.Bootstrap?)
      && (k == 0 ==> frames[k].body.token == config.token)
  }

  ghost predicate Admitted(t: Transport, config: Config) {
    && Orderly(t.delivered, config)
    && (t.authenticated <==> t.delivered != [])
    && (!t.closed ==> t.nextSequence == |t.delivered| && t.failure.None?)
  }

  /** What is wrong with a payload, by the code it is refused with. */
  ghost predicate IsWrong(t: Transport, config: Config, payload: seq<byte>, failure: Failure) {
    match config.decode(payload)
    case None => failure.MalformedFrame?
    case Some(frame) =>
      var ours := frame.identity == config.identity;
      var inOrder := ours && frame.sequence == |t.delivered|;
      match failure
      case MismatchedGeneration => !ours
      case InvalidFrameOrder => ours && !inOrder
      case BootstrapRequired => inOrder && t.delivered == [] && !frame.body.Bootstrap?
      case AuthenticationFailed => inOrder && t.delivered == [] && frame.body.Bootstrap? && frame.body.token != config.token
      case DuplicateBootstrap => inOrder && t.delivered != [] && frame.body.Bootstrap?
      case _ => false
  }

  /**
   A payload is delivered exactly if nothing is wrong with it, and refused with the code of what is; a callback
   that throws closes the transport after its frame was delivered.
   */
  lemma RefusalsNameWhatIsWrong(t: Transport, config: Config, payload: seq<byte>)
    requires !t.closed && Admitted(t, config)
    ensures var after := TakeFrame(t, config, payload);
            if exists failure :: IsWrong(t, config, payload, failure) then
              after.delivered == t.delivered && after.closed && after.failure.Some? && IsWrong(t, config, payload, after.failure.value)
            else
              && config.decode(payload).Some? && after.delivered == t.delivered + [config.decode(payload).value]
              && after.failure == config.throws(config.decode(payload).value) && (after.closed <==> after.failure.Some?)
  {
    var after := TakeFrame(t, config, payload);
    if after.delivered == t.delivered {
      assert IsWrong(t, config, payload, after.failure.value);
    }
  }

  /** A length of 0 or beyond twelve mebibytes ends the generation, whatever follows it. */
  lemma LengthsAreBounded(t: Transport, config: Config)
    requires !t.closed && |t.buffer| >= 4
    ensures var length := Length(t.buffer[..4]);
            if length == 0 || length > 12582912 then Consume(t, config) == t.(closed := true, failure := Some(InvalidFrameLength))
            else |t.buffer| < length + 4 ==> Consume(t, config) == t
  {}

  lemma {:induction false} ConsumeAdmits(t: Transport, config: Config)
    requires Admitted(t, config)
    ensures Admitted(Consume(t, config), config)
    ensures t.delivered <= Consume(t, config).delivered
    decreases |t.buffer|, !t.closed
  {
    if CanStep(t) {
      assert Admitted(StepOne(t, config), config);
      ConsumeAdmits(StepOne(t, config), config);
    }
  }

  /**
   Admission. Whatever bytes arrive, the first frame delivered is a bootstrap of this generation with
   the right token, no later one is a bootstrap, and sequence numbers are 0, 1, 2, ...
   */
  lemma {:induction false} OnlyOrderlyFramesAreDelivered(config: Config, chunks: seq<seq<byte>>)
    ensures Admitted(Feed(FRESH, config, chunks), config)
  {
    if chunks != [] {
      var before := Feed(FRESH, config, chunks[..|chunks| - 1]);
      OnlyOrderlyFramesAreDelivered(config, chunks[..|chunks| - 1]);
      if !before.closed {
        ConsumeAdmits(before.(buffer := before.buffer + chunks[|chunks| - 1]), config);
      }
    }
  }

  /** Nothing is delivered after a failure, and what was delivered stays. */
  lemma {:induction false} FailureIsFinal(config: Config, chunks: seq<seq<byte>>, more: seq<seq<byte>>)
    ensures var a, b := Feed(FRESH, config, chunks), Feed(FRESH, config, chunks + more);
            && a.delivered <= b.delivered
            && (a.closed ==> b == a)
    decreases |more|
  {
    if more == [] {
      assert chunks + more == chunks;
    } else {
      var front := more[..|more| - 1];
      FailureIsFinal(config, chunks, front);
      assert (chunks + more)[..|chunks + more| - 1] == chunks + front;
      var before := Feed(FRESH, config, chunks + front);
      OnlyOrderlyFramesAreDelivered(config, chunks + front);
      if !before.closed {
        ConsumeAdmits(before.(buffer := before.buffer + more[|more| - 1]), config);
      }
    }
  }

  // ---------------------------------------------------------------- round trip

  /** SessionWorkerTransport.frame, given the payload. */
  function Framed(payload: seq<byte>): seq<byte>
    requires |payload| <= MAX_FRAME_BYTES
  {
    Header(|payload|) + payload
  }

  function FramedAll(payloads: seq<seq<byte>>): seq<byte>
    requires forall k :: 0 <= k < |payloads| ==> |payloads[k]| <= MAX_FRAME_BYTES
  {
    if payloads == [] then [] else Framed(payloads[0]) + FramedAll(payloads[1..])
  }

  /** The payloads encode the frames, and the callback takes each of them. */
  ghost predicate Encodes(payloads: seq<seq<byte>>, frames: seq<Frame>, config: Config) {
    && |payloads| == |frames|
    && forall k :: 0 <= k < |payloads| ==>
         && 1 <= |payloads[k]| <= MAX_FRAME_BYTES
         && config.decode(payloads[k]) == Some(frames[k]) && config.throws(frames[k]).None?
  }

  lemma OneFrame(t: Transport, config: Config, payload: seq<byte>, rest: seq<byte>, frame: Frame)
    requires 1 <= |payload| <= MAX_FRAME_BYTES && config.decode(payload) == Some(frame) && config.throws(frame).None?
    requires !t.closed && Admitted(t, config) && t.buffer == Framed(payload) + rest
    requires Orderly(t.delivered + [frame], config)
    ensures CanStep(t)
    ensures var next := StepOne(t, config);
            && !next.closed && next.buffer == rest && next.delivered == t.delivered + [frame] && Admitted(next, config)
  {
    HeaderRoundTrip(|payload|);
    assert t.buffer[..4] == Header(|payload|);
    assert t.buffer[4..|payload| + 4] == payload;
    assert t.buffer[|payload| + 4..] == rest;
    assert (t.delivered + [frame])[|t.delivered|] == frame;
  }

  lemma {:induction false} FramesDecode(t: Transport, config: Config, payloads: seq<seq<byte>>, frames: seq<Frame>)
    requires !t.closed && Admitted(t, config) && Encodes(payloads, frames, config)
    requires t.buffer == FramedAll(payloads) && Orderly(t.delivered + frames, config)
    ensures var end := Consume(t, config);
            !end.closed && end.failure.None? && end.buffer == [] && end.delivered == t.delivered + frames
    decreases |payloads|
  {
    if payloads == [] {
      assert t.delivered + frames == t.delivered;
    } else {
      assert t.delivered + frames == (t.delivered + [frames[0]]) + frames[1..];
      assert forall k :: 0 <= k < |t.delivered + [frames[0]]|
               ==> (t.delivered + [frames[0]])[k] == (t.delivered + frames)[k];
      OneFrame(t, config, payloads[0], FramedAll(payloads[1..]), frames[0]);
      hide StepOne, CanStep;
      FramesDecode(StepOne(t, config), config, payloads[1..], frames[1..]);
    }
  }

  /** Round trip: encoded valid frames, cut any way, are delivered exactly, in order, without failure. */
  lemma StreamRoundTrip(config: Config, payloads: seq<seq<byte>>, frames: seq<Frame>, chunks: seq<seq<byte>>)
    requires Encodes(payloads, frames, config) && Orderly(frames, config)
    requires Joined(chunks) == FramedAll(payloads)
    ensures var end := Feed(FRESH, config, chunks);
            !end.closed && end.failure.None? && end.buffer == [] && end.delivered == frames
  {
    var whole := FRESH.(buffer := FramedAll(payloads));
    assert whole.delivered + frames == frames;
    FramesDecode(whole, config, payloads, frames);
    ChunkingIsInvisible(config, chunks);
  }

  /** While frames arrive, what has been delivered is always a beginning of them. */
  lemma PartialStreamDeliversPrefix(config: Config, payloads: seq<seq<byte>>, frames: seq<Frame>,
                                    chunks: seq<seq<byte>>, more: seq<seq<byte>>)
    requires Encodes(payloads, frames, config) && Orderly(frames, config)
    requires Joined(chunks + more) == FramedAll(payloads)
    ensures var part := Feed(FRESH, config, chunks);
            !part.closed && part.delivered <= frames
  {
    StreamRoundTrip(config, payloads, frames, chunks + more);
    FailureIsFinal(config, chunks, more);
  }
}
