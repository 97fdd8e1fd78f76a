/** The parser loop, the handling of received frames, and round trips of whole sessions over the link. */
module AshStream {
  import opened Wrappers
  import opened AshFrame
  import opened Framing
  import opened Ezsp
  import opened Sequences

  predicate Parses(raw: Bytes) {
    ParseFrame(raw).Some?
  }

  /** The parser loop over everything read so far. */
  method FrameParser(stream: Bytes) returns (frames: seq<Bytes>)
    ensures frames == Frames(Parses, stream)
  {
    frames := [];
    var currentFrame: Bytes, garbageBuffer: Bytes := [], [];
    for i := 0 to |stream|
      invariant (Framer(currentFrame, garbageBuffer), frames) == FeedAll(Parses, START, stream[..i])
    {
      FeedSnoc(Parses, START, stream[..i], stream[i]);
      assert stream[..i + 1] == stream[..i] + [stream[i]];
      ghost var before, sent := Framer(currentFrame, garbageBuffer), frames;
      var b := stream[i];
      if b == FLAG {
        if |currentFrame| > 0 {
          currentFrame := currentFrame + [b];
          if |currentFrame| > 2 {
            frames := frames + [currentFrame];
          }
          currentFrame := [b];
        } else {
          if |garbageBuffer| > 0 {
            var potentialFrame := [FLAG] + garbageBuffer + [FLAG];
            if Parses(potentialFrame) {
              frames := frames + [potentialFrame];
            }
            garbageBuffer := [];
          }
          currentFrame := [b];
        }
      } else {
        if |currentFrame| > 0 {
          currentFrame := currentFrame + [b];
        } else {
          garbageBuffer := garbageBuffer + [b];
          if |garbageBuffer| > GARBAGE_LIMIT {
            garbageBuffer := [];
          }
        }
      }
      assert Framer(currentFrame, garbageBuffer) == Feed(Parses, before, b).0;
      assert frames == sent + Feed(Parses, before, b).1;
    }
    assert stream[..|stream|] == stream;
  }

  // ------------------------------------------------------------ link round trip

  datatype Message = Message(control: bv8, payload: Bytes)

  function BodyOf(m: Message): Bytes {
    Escape(Content(m.control, Randomize(m.payload)))
  }

  function FrameOf(m: Message): Bytes {
    BuildDataFrame(m.control, m.payload)
  }

  function FramesOf(ms: seq<Message>): seq<Bytes> {
    seq(|ms|, i requires 0 <= i < |ms| => FrameOf(ms[i]))
  }

  function PartsOf(ms: seq<Message>, shared: seq<bool>): seq<Part>
    requires |shared| == |ms|
  {
    seq(|ms|, i requires 0 <= i < |ms| => Part(BodyOf(ms[i]), shared[i]))
  }

  /** The built frames one after another, adjacent FLAGs doubled or shared. */
  function LinkWire(ms: seq<Message>, shared: seq<bool>): Bytes
    requires |shared| == |ms|
  {
    Wire(PartsOf(ms, shared))
  }

  lemma BodyIsSound(m: Message)
    ensures FLAG !in BodyOf(m) && BodyOf(m) != [] && FrameOf(m) == Wrap(BodyOf(m))
  {
    EscapeHidesFlags(Content(m.control, Randomize(m.payload)));
    ContentParts(m.control, Randomize(m.payload));
  }

  lemma LinkFrames(ms: seq<Message>, shared: seq<bool>)
    requires |shared| == |ms|
    ensures Frames(Parses, LinkWire(ms, shared)) == FramesOf(ms)
  {
    var parts := PartsOf(ms, shared);
    forall i | 0 <= i < |ms| ensures SoundPart(parts[i]) && FramesOf(ms)[i] == Wrap(parts[i].body) {
      BodyIsSound(ms[i]);
    }
    WireFrames(Parses, parts);
    assert WrapAll(parts) == FramesOf(ms);
  }

  /** The handler strips the first and the last byte, whatever they are. */
  function Inner(raw: Bytes): Bytes {
    if |raw| < 2 then [] else raw[1..|raw| - 1]
  }

  /** What the receiver makes of a raw frame: a DATA frame whose CRC matches, derandomized. */
  function Receive(raw: Bytes): Option<Message> {
    var f := ParseFrame(raw);
    if f.Some? && f.value.kind == Data && CrcOk(Unescape(Inner(raw)))
    then Some(Message(f.value.control, Randomize(f.value.data)))
    else None
  }

  lemma InnerOfBuilt(m: Message)
    ensures Unescape(Inner(FrameOf(m))) == Content(m.control, Randomize(m.payload))
  {
    BodyIsSound(m);
    assert Inner(Wrap(BodyOf(m))) == BodyOf(m);
    EscapeRoundTrip(Content(m.control, Randomize(m.payload)));
  }

  lemma BuiltPassesGate(m: Message)
    ensures CrcOk(Unescape(Inner(FrameOf(m))))
  {
    InnerOfBuilt(m);
    ContentParts(m.control, Randomize(m.payload));
  }

  lemma ReceiveBuilt(m: Message)
    requires m.control & 0x80 == 0
    ensures Receive(FrameOf(m)) == Some(m)
  {
    ParseBuiltData(m.control, m.payload);
    BuiltPassesGate(m);
    RandomizeInvolution(m.payload);
  }

  /** End to end: every list of messages comes out of the wire as it went in, in order. */
  lemma LinkRoundTrip(ms: seq<Message>, shared: seq<bool>)
    requires |shared| == |ms|
    requires forall i :: 0 <= i < |ms| ==> ms[i].control & 0x80 == 0
    ensures var frames := Frames(Parses, LinkWire(ms, shared));
            |frames| == |ms| && forall i :: 0 <= i < |ms| ==> Receive(frames[i]) == Some(ms[i])
  {
    LinkFrames(ms, shared);
    forall i | 0 <= i < |ms| ensures Receive(FramesOf(ms)[i]) == Some(ms[i]) {
      ReceiveBuilt(ms[i]);
    }
  }

  // ------------------------------------------------------------------- sessions

  /** Where a received frame goes: to the command that waits for it, or to the callback handling. */
  datatype Handover = Fulfilled(frame: EzspFrame) | Callback(frame: EzspFrame)

  /** The sequences of commands that wait for a response, and what was handed on. */
  datatype Desk = Desk(handlers: set<bv8>, delivered: seq<Handover>)

  const ASYNC_CALLBACK: bv8 := 0x10

  /** A response that no asynchronous flag marks and a command waits for. */
  predicate Answers(handlers: set<bv8>, data: Bytes, e: EzspFrame)
    requires |data| >= 3
  {
    e.control == RESPONSE && data[1] & ASYNC_CALLBACK == 0 && e.sequence in handlers
  }

  /** What becomes of a derandomized payload; one that does not parse is dropped. */
  function HandOn(d: Desk, data: Bytes): Desk {
    match Detect(data)
    case Err => d
    case Ok(e) =>
      if Answers(d.handlers, data, e) then Desk(d.handlers - {e.sequence}, d.delivered + [Fulfilled(e)])
      else d.(delivered := d.delivered + [Callback(e)])
  }

  /**
   The sequence numbers, what was written to the port, the last DATA frame sent (control and payload), and
   the desk that hands frames on.
   */
  datatype Session = Session(rxSeq: bv8, txSeq: bv8, written: seq<Bytes>, last: Option<Message>, desk: Desk)

  function NextSeq(n: bv8): bv8 {
    (n + 1) % 8
  }

  function Deliver(s: Session, data: Bytes): Session {
    s.(desk := HandOn(s.desk, Randomize(data)))
  }

  function SendNak(s: Session): Session {
    s.(written := s.written + [BuildNakFrame(s.rxSeq)])
  }

  function Acknowledge(s: Session, frameNum: bv8, ackNum: bv8): Session {
    var rx := if frameNum == s.rxSeq then NextSeq(s.rxSeq) else s.rxSeq;
    s.(rxSeq := rx, txSeq := ackNum, written := s.written + [BuildAckFrame(rx)])
  }

  /** The last frame again, marked as a retransmission. */
  function Retransmitted(m: Message): Bytes {
    BuildDataFrame(m.control | 0x08, m.payload)
  }

  function Retransmit(s: Session): Session {
    match s.last
    case None => s
    case Some(m) => s.(written := s.written + [Retransmitted(m)])
  }

  /** A received DATA frame; a CRC mismatch is answered with NAK and dropped. */
  function HandleData(s: Session, f: Frame, u: Bytes): Session {
    if !CrcOk(u) then SendNak(s) else Deliver(Acknowledge(s, f.frameNum, f.ackNum), f.data)
  }

  /** RSTACK resets both counters, NAK repeats the last frame; ACK, RST and ERROR frames change nothing. */
  function Handle(s: Session, raw: Bytes): Session {
    match ParseFrame(raw)
    case None => s
    case Some(f) =>
      if f.kind == Data then HandleData(s, f, Unescape(Inner(raw)))
      else if f.kind == RstAck then s.(rxSeq := 0, txSeq := 0)
      else if f.kind == Nak then Retransmit(s)
      else s
  }

  function HandleAll(s: Session, frames: seq<Bytes>): Session {
    if frames == [] then s else Handle(HandleAll(s, frames[..|frames| - 1]), frames[|frames| - 1])
  }

  /** The control byte of the next outgoing DATA frame. */
  function ControlByte(tx: bv8, rx: bv8): bv8 {
    (tx << 4) | (rx & 0x07)
  }

  lemma ControlIsData(tx: bv8, rx: bv8)
    requires tx <= 7
    ensures ControlByte(tx, rx) & 0x80 == 0
  {
  }

  lemma ControlFrameNum(tx: bv8, rx: bv8)
    requires tx <= 7
    ensures FrameNum(ControlByte(tx, rx)) == tx
  {
  }

  lemma ControlAckNum(tx: bv8, rx: bv8)
    requires rx <= 7
    ensures AckNum(ControlByte(tx, rx)) == rx
  {
  }

  lemma NextSeqInRange(n: bv8)
    ensures NextSeq(n) <= 7
  {
  }

  const RSTACK: bv8 := 0xC1

  /** The control bytes of NAK frames. */
  predicate IsNak(control: bv8) {
    control & 0xC0 == 0x80 && control & 0x20 != 0
  }

  /** What the handler does to content whose CRC is wrong; the control byte decides. */
  function OnBadCrc(s: Session, control: bv8): Session {
    if control & 0x80 == 0 then SendNak(s)
    else if IsNak(control) then Retransmit(s)
    else if control == RSTACK then s.(rxSeq := 0, txSeq := 0)
    else s
  }

  lemma RstAckIsNoData()
    ensures RSTACK & 0x80 != 0 && RSTACK & 0xC0 != 0x80
  {
  }

  lemma NakIsNoData(control: bv8)
    requires IsNak(control)
    ensures control & 0x80 != 0
  {
  }

  lemma HandleContent(u: Bytes)
    requires |u| >= 3
    ensures Unescape(Inner(Wrap(Escape(u)))) == u && ParseFrame(Wrap(Escape(u))) == ParseContent(u)
  {
    EscapeHidesFlags(u);
    StripWrapped(Escape(u));
    EscapeRoundTrip(u);
    assert Inner(Wrap(Escape(u))) == Escape(u);
  }

  lemma KindByControl(u: Bytes)
    requires |u| >= 3
    ensures var f := ParseContent(u);
            && (f.Some? && f.value.kind == Data <==> u[0] & 0x80 == 0)
            && (f.Some? && f.value.kind == Nak <==> IsNak(u[0]))
            && (f.Some? && f.value.kind == RstAck <==> u[0] == RSTACK)
  {
    RstAckIsNoData();
    if IsNak(u[0]) {
      NakIsNoData(u[0]);
    }
  }

  lemma HandleBadCrc(s: Session, u: Bytes)
    requires |u| >= 3 && !CrcOk(u)
    ensures Handle(s, Wrap(Escape(u))) == OnBadCrc(s, u[0])
  {
    HandleContent(u);
    KindByControl(u);
  }

  /** Nothing with a wrong CRC is handed on. */
  lemma CorruptionRejected(s: Session, m: Message, i: nat, x: bv8, raw: Bytes)
    requires var u := Content(m.control, Randomize(m.payload)); i < |u| && x != u[i]
    requires Unescape(Inner(raw)) == Content(m.control, Randomize(m.payload))[i := x]
    ensures Receive(raw) == None
    ensures Handle(s, raw).desk == s.desk
  {
    GateDetectsOneByte(m.control, Randomize(m.payload), i, x);
  }

  /**
   Only DATA frames pass the CRC gate. A frame of which one byte has changed is answered with NAK iff it is
   a DATA frame now; as a NAK it makes the last frame go out again, as an RSTACK it resets both counters, as
   anything else it is ignored.
   */
  lemma CorruptionExact(s: Session, m: Message, i: nat, x: bv8)
    requires var u := Content(m.control, Randomize(m.payload)); i < |u| && x != u[i]
    ensures var u := Content(m.control, Randomize(m.payload))[i := x];
            Handle(s, Wrap(Escape(u))) == OnBadCrc(s, u[0])
  {
    GateDetectsOneByte(m.control, Randomize(m.payload), i, x);
    ContentParts(m.control, Randomize(m.payload));
    HandleBadCrc(s, Content(m.control, Randomize(m.payload))[i := x]);
  }

  /** One changed bit of a control byte resets the session, whatever the payload. */
  lemma CorruptionResets(s: Session, payload: Bytes)
    ensures var u := Content(0x41, Randomize(payload))[0 := RSTACK];
            Handle(s, Wrap(Escape(u))) == s.(rxSeq := 0, txSeq := 0)
  {
    ContentParts(0x41, Randomize(payload));
    CorruptionExact(s, Message(0x41, payload), 0, RSTACK);
    RstAckIsNoData();
  }

  lemma HandleBuilt(s: Session, m: Message)
    requires m.control & 0x80 == 0
    ensures Handle(s, FrameOf(m))
            == Deliver(Acknowledge(s, FrameNum(m.control), AckNum(m.control)), Randomize(m.payload))
  {
    ParseBuiltData(m.control, m.payload);
    BuiltPassesGate(m);
  }

  /** What a peer sends: a payload and the number of the frame it expects next. */
  datatype Sending = Sending(payload: Bytes, ack: bv8)

  predicate ThreeBits(x: Sending) {
    x.ack <= 7
  }

  function MessageOf(tx: bv8, x: Sending): Message {
    Message(ControlByte(tx, x.ack), x.payload)
  }

  lemma DeliverSent(s: Session, x: Sending)
    ensures Deliver(s, Randomize(x.payload)) == s.(desk := HandOn(s.desk, x.payload))
  {
    RandomizeInvolution(x.payload);
  }

  /**
   A frame is acknowledged and handed on whether or not it is in sequence; only a frame in sequence
   advances the receive counter.
   */
  lemma HandleSent(s: Session, tx: bv8, x: Sending)
    requires tx <= 7 && ThreeBits(x)
    ensures var rx := if s.rxSeq == tx then NextSeq(tx) else s.rxSeq;
            Handle(s, FrameOf(MessageOf(tx, x)))
            == Session(rx, x.ack, s.written + [BuildAckFrame(rx)], s.last, HandOn(s.desk, x.payload))
  {
    ControlIsData(tx, x.ack);
    ControlFrameNum(tx, x.ack);
    ControlAckNum(tx, x.ack);
    HandleBuilt(s, MessageOf(tx, x));
    DeliverSent(Acknowledge(s, tx, x.ack), x);
  }

  /** The sequence number a sender at `tx` uses after `n` frames. */
  function SeqAfter(tx: bv8, n: nat): bv8 {
    if n == 0 then tx else NextSeq(SeqAfter(tx, n - 1))
  }

  lemma NextSeqValue(n: bv8)
    requires n <= 7
    ensures NextSeq(n) as int == (n as int + 1) % 8
  {
    assert n == 0 || n == 1 || n == 2 || n == 3 || n == 4 || n == 5 || n == 6 || n == 7;
  }

  /** Sequence numbers count modulo eight. */
  lemma {:induction false} SeqCounts(tx: bv8, n: nat)
    requires tx <= 7
    ensures SeqAfter(tx, n) as int == (tx as int + n) % 8
  {
    if n > 0 {
      SeqCounts(tx, n - 1);
      SeqInRange(tx, n - 1);
      NextSeqValue(SeqAfter(tx, n - 1));
      SuccModEight(tx as int + (n - 1));
    } else {
      ThreeBitsSmall(tx);
    }
  }

  lemma SuccModEight(a: int)
    ensures (a % 8 + 1) % 8 == (a + 1) % 8
  {
  }

  lemma ThreeBitsSmall(n: bv8)
    requires n <= 7
    ensures 0 <= n as int < 8
  {
  }

  lemma RetransmitBit(control: bv8)
    requires control & 0x80 == 0
    ensures (control | 0x08) & 0x80 == 0 && ((control | 0x08) >> 3) & 0x01 == 1
  {
  }

  lemma RetransmitNumbers(control: bv8)
    ensures FrameNum(control | 0x08) == FrameNum(control) && AckNum(control | 0x08) == AckNum(control)
  {
  }

  /** A retransmission is the same frame with the retransmit bit set. */
  lemma RetransmittedParses(m: Message)
    requires m.control & 0x80 == 0
    ensures var f := ParseFrame(Retransmitted(m));
            && f.Some? && f.value.kind == Data && f.value.reTx
            && f.value.frameNum == FrameNum(m.control) && f.value.ackNum == AckNum(m.control)
            && Randomize(f.value.data) == m.payload
  {
    RetransmitBit(m.control);
    RetransmitNumbers(m.control);
    ParseBuiltData(m.control | 0x08, m.payload);
    RandomizeInvolution(m.payload);
  }

  /** The messages a sender at `tx` puts out. */
  function Outgoing(tx: bv8, xs: seq<Sending>): (ms: seq<Message>)
    ensures |ms| == |xs|
  {
    if xs == [] then []
    else
      var n := |xs| - 1;
      Outgoing(tx, xs[..n]) + [MessageOf(SeqAfter(tx, n), xs[n])]
  }

  /** The acknowledgement of the frame that brings the counter to `SeqAfter(tx, n)`. */
  function AckAfter(tx: bv8, n: nat): Bytes {
    BuildAckFrame(SeqAfter(tx, n))
  }

  function Acks(tx: bv8, n: nat): seq<Bytes> {
    if n == 0 then [] else Acks(tx, n - 1) + [AckAfter(tx, n)]
  }

  lemma {:induction false} SeqInRange(tx: bv8, n: nat)
    requires tx <= 7
    ensures SeqAfter(tx, n) <= 7
  {
    if n > 0 {
      NextSeqInRange(SeqAfter(tx, n - 1));
    }
  }

  function DeskAfter(d: Desk, xs: seq<Sending>): Desk {
    if xs == [] then d else HandOn(DeskAfter(d, xs[..|xs| - 1]), xs[|xs| - 1].payload)
  }

  /** What a receiver that was in step with the sender is after these frames. */
  function InStep(s: Session, xs: seq<Sending>): Session {
    Session(SeqAfter(s.rxSeq, |xs|), if xs == [] then s.txSeq else xs[|xs| - 1].ack,
            s.written + Acks(s.rxSeq, |xs|), s.last, DeskAfter(s.desk, xs))
  }

  lemma DeskSnoc(d: Desk, xs: seq<Sending>, x: Sending)
    ensures DeskAfter(d, xs + [x]) == HandOn(DeskAfter(d, xs), x.payload)
  {
    assert (xs + [x])[..|xs|] == xs;
  }

  lemma AcksSnoc(tx: bv8, n: nat)
    requires n > 0
    ensures Acks(tx, n) == Acks(tx, n - 1) + [AckAfter(tx, n)]
  {
  }

  lemma InStepSnoc(s: Session, xs: seq<Sending>, x: Sending)
    ensures var s1 := InStep(s, xs);
            var n := |xs| + 1;
            InStep(s, xs + [x])
            == Session(SeqAfter(s.rxSeq, n), x.ack, s1.written + [AckAfter(s.rxSeq, n)], s.last,
                       HandOn(s1.desk, x.payload))
  {
    var n := |xs| + 1;
    AcksSnoc(s.rxSeq, n);
    DeskSnoc(s.desk, xs, x);
    Associates(s.written, Acks(s.rxSeq, n - 1), [AckAfter(s.rxSeq, n)]);
  }

  lemma HandleSnoc(s: Session, frames: seq<Bytes>, raw: Bytes)
    ensures HandleAll(s, frames + [raw]) == Handle(HandleAll(s, frames), raw)
  {
    assert (frames + [raw])[..|frames|] == frames;
  }

  lemma FramesOfOutgoingSnoc(tx: bv8, xs: seq<Sending>, x: Sending)
    ensures FramesOf(Outgoing(tx, xs + [x]))
            == FramesOf(Outgoing(tx, xs)) + [FrameOf(MessageOf(SeqAfter(tx, |xs|), x))]
  {
    OutgoingSnoc(tx, xs, x);
    FramesOfSnoc(Outgoing(tx, xs), MessageOf(SeqAfter(tx, |xs|), x));
  }

  lemma OutgoingSnoc(tx: bv8, xs: seq<Sending>, x: Sending)
    ensures Outgoing(tx, xs + [x]) == Outgoing(tx, xs) + [MessageOf(SeqAfter(tx, |xs|), x)]
  {
    assert (xs + [x])[..|xs|] == xs;
  }

  lemma FramesOfSnoc(ms: seq<Message>, m: Message)
    ensures FramesOf(ms + [m]) == FramesOf(ms) + [FrameOf(m)]
  {
  }

  /** Handling the frames of `xs` leaves the receiver in step with the sender. */
  predicate Tracks(s: Session, xs: seq<Sending>) {
    HandleAll(s, FramesOf(Outgoing(s.rxSeq, xs))) == InStep(s, xs)
  }

  lemma TracksNothing(s: Session)
    ensures Tracks(s, [])
  {
    assert FramesOf(Outgoing(s.rxSeq, [])) == [];
    assert s.written + [] == s.written;
  }

  lemma TracksNext(s: Session, xs: seq<Sending>, x: Sending)
    requires s.rxSeq <= 7 && ThreeBits(x) && Tracks(s, xs)
    ensures Tracks(s, xs + [x])
  {
    var frames := FramesOf(Outgoing(s.rxSeq, xs));
    var t := SeqAfter(s.rxSeq, |xs|);
    FramesOfOutgoingSnoc(s.rxSeq, xs, x);
    HandleSnoc(s, frames, FrameOf(MessageOf(t, x)));
    InStepSnoc(s, xs, x);
    SeqInRange(s.rxSeq, |xs|);
    HandleSent(InStep(s, xs), t, x);
  }

  lemma TracksAll(s: Session, xs: seq<Sending>)
    requires s.rxSeq <= 7 && forall i :: 0 <= i < |xs| ==> ThreeBits(xs[i])
    ensures Tracks(s, xs)
  {
    SnocInduction(ys => Tracks(s, ys), ThreeBits, xs) by {
      TracksNothing(s);
      forall ys, x | Tracks(s, ys) && ThreeBits(x) ensures Tracks(s, ys + [x]) {
        TracksNext(s, ys, x);
      }
    }
  }

  /**
   Whole sessions: a sender in step with the receiver puts frames on the wire, each with its own
   acknowledgement number and any payload; the receiver hands on the payloads in order, acknowledges each
   frame by its successor's number, takes over the last acknowledgement, and the two are in step again.
   */
  lemma SessionRoundTrip(s: Session, xs: seq<Sending>, shared: seq<bool>)
    requires s.rxSeq <= 7 && |shared| == |xs| && forall i :: 0 <= i < |xs| ==> ThreeBits(xs[i])
    ensures HandleAll(s, Frames(Parses, LinkWire(Outgoing(s.rxSeq, xs), shared))) == InStep(s, xs)
  {
    LinkFrames(Outgoing(s.rxSeq, xs), shared);
    TracksAll(s, xs);
  }

  // ------------------------------------------------------------ handing frames on

  /** The frames that were handed on, wherever they went. */
  function FramesOn(hs: seq<Handover>): seq<EzspFrame> {
    seq(|hs|, i requires 0 <= i < |hs| => hs[i].frame)
  }

  /** What the receiver makes of a payload, in either format: one frame, or nothing. */
  function Meant(x: Sending): seq<EzspFrame> {
    var e := Detect(x.payload);
    if e.Ok? then [e.value] else []
  }

  function MeantAll(xs: seq<Sending>): seq<EzspFrame> {
    if xs == [] then [] else MeantAll(xs[..|xs| - 1]) + Meant(xs[|xs| - 1])
  }

  lemma HandOnFrames(d: Desk, x: Sending)
    ensures FramesOn(HandOn(d, x.payload).delivered) == FramesOn(d.delivered) + Meant(x)
  {
    assert FramesOn(d.delivered) + [] == FramesOn(d.delivered);
  }

  /** Every frame that payloads stand for is handed on once and in order, to a waiting command or not. */
  lemma {:induction false} DeskHandsOnAll(d: Desk, xs: seq<Sending>)
    ensures FramesOn(DeskAfter(d, xs).delivered) == FramesOn(d.delivered) + MeantAll(xs)
  {
    if xs == [] {
      assert FramesOn(d.delivered) + [] == FramesOn(d.delivered);
    } else {
      var init, last := xs[..|xs| - 1], xs[|xs| - 1];
      DeskHandsOnAll(d, init);
      HandOnFrames(DeskAfter(d, init), last);
      Associates(FramesOn(d.delivered), MeantAll(init), Meant(last));
    }
  }

  lemma ResponseControl()
    ensures RESPONSE != COMMAND
  {
  }

  /** An extended frame goes to a waiting command iff it has the response bit, no asynchronous bit and its sequence. */
  lemma RoutingExact(d: Desk, data: Bytes)
    requires |data| >= 5 && data[2] & 0x03 == 0x01
    ensures var d' := HandOn(d, data);
            && |d'.delivered| == |d.delivered| + 1 && d'.delivered[..|d.delivered|] == d.delivered
            && (d'.delivered[|d.delivered|].Fulfilled? <==>
                data[1] & 0x80 != 0 && data[1] & 0x10 == 0 && data[0] in d.handlers)
            && d'.handlers == if d'.delivered[|d.delivered|].Fulfilled? then d.handlers - {data[0]} else d.handlers
  {
    ResponseControl();
  }

  /** The responses to waiting commands with this sequence. */
  function Answered(hs: seq<Handover>, sequence: bv8): nat {
    if hs == [] then 0
    else Answered(hs[..|hs| - 1], sequence)
         + if hs[|hs| - 1].Fulfilled? && hs[|hs| - 1].frame.sequence == sequence then 1 else 0
  }

  lemma AnsweredSnoc(hs: seq<Handover>, h: Handover, sequence: bv8)
    ensures Answered(hs + [h], sequence)
            == Answered(hs, sequence) + if h.Fulfilled? && h.frame.sequence == sequence then 1 else 0
  {
    assert (hs + [h])[..|hs|] == hs;
  }

  function Waits(d: Desk, sequence: bv8): nat {
    if sequence in d.handlers then 1 else 0
  }

  lemma HandOnConserves(d: Desk, data: Bytes, sequence: bv8)
    ensures var d' := HandOn(d, data);
            Answered(d'.delivered, sequence) + Waits(d', sequence)
            == Answered(d.delivered, sequence) + Waits(d, sequence)
  {
    var e := Detect(data);
    if e.Ok? {
      AnsweredSnoc(d.delivered, Fulfilled(e.value), sequence);
      AnsweredSnoc(d.delivered, Callback(e.value), sequence);
    }
  }

  /** A frame reaches the desk with its derandomized payload, or not at all. */
  lemma HandleReaches(s: Session, raw: Bytes)
    ensures Handle(s, raw).desk == s.desk
            || (ParseFrame(raw).Some? && Handle(s, raw).desk == HandOn(s.desk, Randomize(ParseFrame(raw).value.data)))
  {
  }

  lemma HandleConserves(s: Session, raw: Bytes, sequence: bv8)
    ensures var d, d' := s.desk, Handle(s, raw).desk;
            Answered(d'.delivered, sequence) + Waits(d', sequence)
            == Answered(d.delivered, sequence) + Waits(d, sequence)
  {
    HandleReaches(s, raw);
    var d' := Handle(s, raw).desk;
    if d' != s.desk {
      HandOnConserves(s.desk, Randomize(ParseFrame(raw).value.data), sequence);
    }
  }

  /**
   Over any frames whatever, a waiting command is answered at most once: per sequence, answers given and
   commands still waiting add up to what they were.
   */
  lemma {:induction false} AnsweredOnce(s: Session, frames: seq<Bytes>, sequence: bv8)
    ensures var d, d' := s.desk, HandleAll(s, frames).desk;
            Answered(d'.delivered, sequence) + Waits(d', sequence)
            == Answered(d.delivered, sequence) + Waits(d, sequence)
  {
    if frames != [] {
      AnsweredOnce(s, frames[..|frames| - 1], sequence);
      HandleConserves(HandleAll(s, frames[..|frames| - 1]), frames[|frames| - 1], sequence);
    }
  }

  /** The extended payloads of commands. */
  function Commands(cs: seq<EzspFrame>, acks: seq<bv8>): seq<Sending>
    requires |acks| == |cs|
  {
    seq(|cs|, i requires 0 <= i < |cs| => Sending(SerializeExtended(cs[i]), acks[i]))
  }

  /** Commands sent in the extended format stand for themselves. */
  lemma {:induction false} CommandsMeant(cs: seq<EzspFrame>, acks: seq<bv8>)
    requires |acks| == |cs| && forall i :: 0 <= i < |cs| ==> cs[i].control == COMMAND
    ensures MeantAll(Commands(cs, acks)) == cs
  {
    if cs != [] {
      var n := |cs| - 1;
      CommandsMeant(cs[..n], acks[..n]);
      assert Commands(cs, acks)[..n] == Commands(cs[..n], acks[..n]);
      ExtendedRoundTrip(cs[n]);
      assert cs == cs[..n] + [cs[n]];
    }
  }

  /** The receiving side of the controller. */
  class Receiver {
    var rxSeq: bv8
    var txSeq: bv8
    var written: seq<Bytes>
    var last: Option<Message>
    var handlers: set<bv8>
    var delivered: seq<Handover>

    ghost function Model(): Session
      reads this
    {
      Session(rxSeq, txSeq, written, last, Desk(handlers, delivered))
    }

    constructor ()
      ensures Model() == Session(0, 0, [], None, Desk({}, []))
    {
      rxSeq, txSeq, written, last, handlers, delivered := 0, 0, [], None, {}, [];
    }

    method HandleFrame(raw: Bytes)
      modifies this
      ensures Model() == Handle(old(Model()), raw)
    {
      var parsed := ParseFrame(raw);
      if parsed.None? {
        return;
      }
      var f := parsed.value;
      match f.kind {
        case Data => HandleDataFrame(f, Unescape(Inner(raw)));
        case Nak =>
          if last.Some? {
            written := written + [BuildDataFrame(last.value.control | 0x08, last.value.payload)];
          }
        case RstAck => txSeq, rxSeq := 0, 0;
        case Ack | Rst | Error =>
      }
    }

    method HandleDataFrame(f: Frame, u: Bytes)
      modifies this
      ensures Model() == HandleData(old(Model()), f, u)
    {
      if !CrcOk(u) {
        written := written + [BuildNakFrame(rxSeq)];
        return;
      }
      SendAck(f.frameNum, f.ackNum);
      HandOnData(Randomize(f.data));
    }

    method SendAck(frameNum: bv8, ackNum: bv8)
      modifies `rxSeq, `txSeq, `written
      ensures Model() == Acknowledge(old(Model()), frameNum, ackNum)
    {
      if frameNum == rxSeq {
        rxSeq := NextSeq(rxSeq);
      }
      if ackNum != txSeq {
        txSeq := ackNum;
      }
      written := written + [BuildAckFrame(rxSeq)];
    }

    method HandOnData(data: Bytes)
      modifies `handlers, `delivered
      ensures Desk(handlers, delivered) == HandOn(old(Desk(handlers, delivered)), data)
    {
      var e := if LooksExtended(data) then ParseExtended(data) else ParseLegacy(data);
      if e.Err? {
        return;
      }
      if e.value.control == RESPONSE && data[1] & ASYNC_CALLBACK == 0 && e.value.sequence in handlers {
        handlers := handlers - {e.value.sequence};
        delivered := delivered + [Fulfilled(e.value)];
      } else {
        delivered := delivered + [Callback(e.value)];
      }
    }
  }
}
