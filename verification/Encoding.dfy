/**
 The writing direction of the padding transport: an encoder that accepts a chunk,
 keeps the part of its frame that the sink would not take yet, and drains that part
 before anything else may be written.
 */
module Encoding {
  import opened Polls
  import opened Framing
  import opened Endpoints

  /**
   `pending` is the unsent tail of the last frame; `pads` are the paddings the random
   generator will produce. `log`, `shuts` and `spared` are history: the chunks committed so
   far, the outcomes of completed shutdowns, and how often the first offer of a frame took
   no byte, which the transport lets pass.
   */
  datatype Encoder = Encoder(frames: nat, pending: seq<Byte>, pads: seq<Pad>, log: seq<Chunk>, shuts: seq<bool>, spared: nat)

  function FreshEncoder(pads: seq<Pad>): Encoder {
    Encoder(0, [], pads, [], [], 0)
  }

  function Drain(sink: Sink, pending: seq<Byte>): (Sink, seq<Byte>, DonePoll)
    decreases |pending|
  {
    if pending == [] then (sink, [], DoneOk)
    else
      var (sink', p) := SinkWrite(sink, pending);
      match p
      case WritePending => (sink', pending, DonePending)
      case WriteErr => (sink', pending, DoneErr)
      case WriteOk(n) => if n == 0 then (sink', pending, DoneErr) else Drain(sink', pending[n..])
  }

  function NextPad(pads: seq<Pad>): Pad {
    if pads == [] then [] else pads[0]
  }

  function LaterPads(pads: seq<Pad>): seq<Pad> {
    if pads == [] then [] else pads[1..]
  }

  /** Accepting a chunk as a frame and offering the frame to the sink once. */
  function WriteFrame(sink: Sink, e: Encoder, buf: seq<Byte>): (res: (Sink, Encoder, WritePoll))
    ensures res.2.WriteOk? ==> res.2.n <= |buf|
  {
    var n := Min(|buf|, MAX_PADDED_PAYLOAD);
    var pad := NextPad(e.pads);
    var frame := Frame(buf[..n], pad);
    var (sink', p) := SinkWrite(sink, frame);
    var off := if p.WriteOk? then p.n else 0;
    (sink',
     Encoder(e.frames + 1, frame[off..], LaterPads(e.pads), e.log + [Chunk(buf[..n], pad, !p.WriteErr?)], e.shuts,
             e.spared + if p == WriteOk(0) then 1 else 0),
     if p.WriteErr? then WriteErr else WriteOk(n))
  }

  function WriteRaw(sink: Sink, e: Encoder, buf: seq<Byte>): (Sink, Encoder, WritePoll) {
    var (sink', p) := SinkWrite(sink, buf);
    (sink', if p.WriteOk? then e.(log := e.log + [Chunk(buf[..p.n], [], true)]) else e, p)
  }

  /** `poll_write` of the padding transport. */
  function PadWrite(sink: Sink, e: Encoder, buf: seq<Byte>): (res: (Sink, Encoder, WritePoll))
    ensures res.2.WriteOk? ==> res.2.n <= |buf|
  {
    var (sink', rest, q) := Drain(sink, e.pending);
    var e' := e.(pending := rest);
    match q
    case DonePending => (sink', e', WritePending)
    case DoneErr => (sink', e', WriteErr)
    case DoneOk => if e.frames >= PADDING_FRAMES then WriteRaw(sink', e', buf) else WriteFrame(sink', e', buf)
  }

  /** `poll_flush` of the padding transport. */
  function PadFlush(sink: Sink, e: Encoder): (Sink, Encoder, DonePoll) {
    var (sink', rest, q) := Drain(sink, e.pending);
    var e' := e.(pending := rest);
    if q != DoneOk then (sink', e', q)
    else
      var (sink'', p) := SinkFlush(sink');
      (sink'', e', p)
  }

  /** `poll_shutdown` of the padding transport. */
  function PadShutdown(sink: Sink, e: Encoder): (Sink, Encoder, DonePoll) {
    var (sink', e', q) := PadFlush(sink, e);
    match q
    case DonePending => (sink', e', q)
    case DoneErr => (sink', e'.(shuts := e'.shuts + [false]), q)
    case DoneOk =>
      var (sink'', p) := SinkShutdown(sink');
      (sink'', if p.DonePending? then e' else e'.(shuts := e'.shuts + [p.DoneOk?]), p)
  }

  /** The wire so far, completed by the unsent tail, is the encoding of the committed chunks. */
  ghost predicate EncoderInv(sink: Sink, e: Encoder) {
    && Fits(0, e.log)
    && SinkOut(sink) + e.pending == Encode(0, e.log)
    && e.frames == Min(PADDING_FRAMES, |e.log|)
  }

  function EncoderView(sink: Sink, e: Encoder): WriteView {
    WriteView(Acked(e.log), sink.stalls, sink.faults - e.spared, e.shuts,
              SinkTail(sink).(clean := e.pending == [], untold := Untold(e.log), flushed := sink.flushed && e.pending == []))
  }

  /** Bytes moved from the tail to the wire in order, up to an obstacle or to the end. */
  ghost predicate Drains(v: WriteView, pending: seq<Byte>, v': WriteView, rest: seq<Byte>, q: DonePoll) {
    && v'.out + rest == v.out + pending
    && v'.shuts == v.shuts
    && v'.tail.fins == v.tail.fins && (v.tail.steady ==> v'.tail.steady) && v'.tail.framed == v.tail.framed
    && v.stalls <= v'.stalls
    && v'.faults == v.faults + (if q.DoneErr? then 1 else 0)
    && (q.DoneOk? <==> rest == [])
    && (q.DonePending? ==> v.stalls < v'.stalls)
  }

  lemma DrainsThen(v: WriteView, pending: seq<Byte>, v': WriteView, n: nat, v'': WriteView, rest: seq<Byte>, q: DonePoll)
    requires n > 0 && WriteLaw(v, pending, v', WriteOk(n)) && Drains(v', pending[n..], v'', rest, q)
    ensures Drains(v, pending, v'', rest, q)
  {
    assert pending == pending[..n] + pending[n..];
    assert v.out + pending == v'.out + pending[n..];
  }

  /** Draining stops only at an obstacle of the sink, and loses nothing. */
  lemma {:induction false} DrainMoves(sink: Sink, pending: seq<Byte>)
    ensures var (sink', rest, q) := Drain(sink, pending);
            Drains(SinkView(sink), pending, SinkView(sink'), rest, q)
    decreases |pending|
  {
    if pending != [] {
      var (sink', p) := SinkWrite(sink, pending);
      SinkWriteLaw(sink, pending);
      if p.WriteOk? && p.n > 0 {
        DrainMoves(sink', pending[p.n..]);
        var (sink'', rest, q) := Drain(sink', pending[p.n..]);
        DrainsThen(SinkView(sink), pending, SinkView(sink'), p.n, SinkView(sink''), rest, q);
      }
    }
  }

  lemma FrameOffered(sink: Sink, frame: seq<Byte>)
    ensures var (sink', p) := SinkWrite(sink, frame);
            var off := if p.WriteOk? then p.n else 0;
            && SinkOut(sink') + frame[off..] == SinkOut(sink) + frame
            && sink'.shuts == sink.shuts
            && SinkTail(sink').fins == SinkTail(sink).fins && (SinkTail(sink).steady ==> SinkTail(sink').steady)
            && SinkTail(sink').framed == SinkTail(sink).framed
            && sink.stalls <= sink'.stalls
            && sink'.faults == sink.faults + (if p.WriteErr? || (p == WriteOk(0) && frame != []) then 1 else 0)
  {
    var (sink', p) := SinkWrite(sink, frame);
    SinkWriteLaw(sink, frame);
    var off := if p.WriteOk? then p.n else 0;
    assert frame == frame[..off] + frame[off..];
  }

  lemma FrameCommits(sink: Sink, e: Encoder, buf: seq<Byte>)
    requires EncoderInv(sink, e) && e.pending == [] && e.frames < PADDING_FRAMES
    ensures var (sink', e', p) := WriteFrame(sink, e, buf);
            && EncoderInv(sink', e')
            && WriteLaw(EncoderView(sink, e), buf, EncoderView(sink', e'), p)
  {
    var n := Min(|buf|, MAX_PADDED_PAYLOAD);
    var frame := Frame(buf[..n], NextPad(e.pads));
    var c := Chunk(buf[..n], NextPad(e.pads), !SinkWrite(sink, frame).1.WriteErr?);
    FrameOffered(sink, frame);
    FitsSnoc(0, e.log, c);
    EncodeSnoc(0, e.log, c);
    AckedSnoc(e.log, c);
    assert SinkOut(sink) + [] == SinkOut(sink);
  }

  lemma RawCommits(sink: Sink, e: Encoder, buf: seq<Byte>)
    requires EncoderInv(sink, e) && e.pending == [] && e.frames >= PADDING_FRAMES
    ensures var (sink', e', p) := WriteRaw(sink, e, buf);
            && EncoderInv(sink', e')
            && WriteLaw(EncoderView(sink, e), buf, EncoderView(sink', e'), p)
  {
    var (sink', p) := SinkWrite(sink, buf);
    SinkWriteLaw(sink, buf);
    if p.WriteOk? {
      var c := Chunk(buf[..p.n], [], true);
      FitsSnoc(0, e.log, c);
      EncodeSnoc(0, e.log, c);
      AckedSnoc(e.log, c);
      assert SinkOut(sink) + [] == SinkOut(sink);
      assert SinkOut(sink') + [] == SinkOut(sink');
    }
  }

  lemma Drained(sink: Sink, e: Encoder)
    requires EncoderInv(sink, e)
    ensures var (sink', rest, q) := Drain(sink, e.pending);
            EncoderInv(sink', e.(pending := rest))
  {
    DrainMoves(sink, e.pending);
  }

  /** Which chunk a write commits, by its answer. */
  ghost predicate LogsWrite(sink: Sink, e: Encoder, buf: seq<Byte>, e': Encoder, p: WritePoll) {
    var limit := Min(|buf|, MAX_PADDED_PAYLOAD);
    match p
    case WritePending => e'.log == e.log && (e.frames < PADDING_FRAMES ==> Drain(sink, e.pending).2.DonePending?)
    case WriteErr =>
      e'.log == if e.frames < PADDING_FRAMES && Drain(sink, e.pending).2.DoneOk?
                then e.log + [Chunk(buf[..limit], NextPad(e.pads), false)] else e.log
    case WriteOk(n) =>
      && n <= |buf|
      && (e.frames < PADDING_FRAMES ==>
            n == limit && e'.log == e.log + [Chunk(buf[..n], NextPad(e.pads), true)])
      && (e.frames >= PADDING_FRAMES ==> e'.pending == [] && e'.log == e.log + [Chunk(buf[..n], [], true)])
  }

  /**
   In framed mode a write accepts everything up to the frame limit as one chunk; in raw
   mode it accepts what the sink does, with nothing pending before it. An error commits the
   chunk behind the caller's back exactly in framed mode, when everything older was drained:
   the error then came from the first offer of the new frame.
   */
  lemma PadWriteLogs(sink: Sink, e: Encoder, buf: seq<Byte>)
    ensures var (sink', e', p) := PadWrite(sink, e, buf); LogsWrite(sink, e, buf, e', p)
  {
    DrainMoves(sink, e.pending);
  }

  /**
   A write keeps the wire equal to an encoding, whatever the sink does, errors
   included. It answers Pending only when the sink kept the waker.
   */
  lemma PadWriteRefines(sink: Sink, e: Encoder, buf: seq<Byte>)
    requires EncoderInv(sink, e)
    ensures var (sink', e', p) := PadWrite(sink, e, buf);
            && EncoderInv(sink', e')
            && WriteLaw(EncoderView(sink, e), buf, EncoderView(sink', e'), p)
  {
    var (sink1, rest, q) := Drain(sink, e.pending);
    var e1 := e.(pending := rest);
    DrainMoves(sink, e.pending);
    Drained(sink, e);
    if q == DoneOk {
      if e.frames >= PADDING_FRAMES {
        RawCommits(sink1, e1, buf);
      } else {
        FrameCommits(sink1, e1, buf);
      }
    }
  }

  lemma PadFlushRefines(sink: Sink, e: Encoder)
    requires EncoderInv(sink, e)
    ensures var (sink', e', p) := PadFlush(sink, e);
            && EncoderInv(sink', e')
            && FlushLaw(EncoderView(sink, e), EncoderView(sink', e'), p)
            && e'.log == e.log
            && sink'.shuts == sink.shuts
            && (p.DoneOk? ==> e'.pending == [] && sink'.flushed)
  {
    DrainMoves(sink, e.pending);
    Drained(sink, e);
    SinkFlushLaw(Drain(sink, e.pending).0);
  }

  /** The inner shutdown is reached only with nothing left to send, so a shutdown never loses accepted bytes. */
  lemma PadShutdownRefines(sink: Sink, e: Encoder)
    requires EncoderInv(sink, e)
    ensures var (sink', e', p) := PadShutdown(sink, e);
            && EncoderInv(sink', e')
            && ShutLaw(EncoderView(sink, e), EncoderView(sink', e'), p)
            && e'.log == e.log
            && (sink'.shuts != sink.shuts ==> e'.pending == [] && sink'.flushed)
            && (p.DoneOk? ==> e'.pending == [] && sink'.shuts == sink.shuts + [true])
  {
    PadFlushRefines(sink, e);
    SinkShutdownLaw(PadFlush(sink, e).0);
  }
}
