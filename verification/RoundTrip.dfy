/**
 Two padding transports back to back, under every schedule: any sequence of writes,
 flushes and shutdowns on one side, any sequence of reads on the other, any partial
 progress of either inner stream.
 */
module RoundTrip {
  import opened Polls
  import opened Framing
  import opened Endpoints
  import opened Decoding
  import opened Encoding
  import opened Halves

  datatype WriteOp = OpWrite(buf: seq<Byte>) | OpFlush | OpShutdown

  /**
   What calls on the writing side came to: the final state, all bytes answered Ok, how many
   writes were, whether any call failed, and whether data went out behind the caller's back.
   */
  datatype Written = Written(w: Writer, accepted: seq<Byte>, writes: nat, failed: bool, slipped: bool)

  /** A framed write that fails on the first offer of its frame, with everything older sent. */
  predicate Slips(w: Writer, buf: seq<Byte>) {
    && w.PaddedOut? && buf != [] && w.enc.frames < PADDING_FRAMES
    && Drain(w.sink, w.enc.pending).2.DoneOk?
    && Write(w, buf).1.WriteErr?
  }

  function WriteStep(w: Writer, op: WriteOp): Written {
    match op
    case OpWrite(buf) =>
      var (w', p) := Write(w, buf);
      if p.WriteOk? then Written(w', buf[..p.n], 1, false, false) else Written(w', [], 0, p.WriteErr?, Slips(w, buf))
    case OpFlush =>
      var (w', p) := Flush(w);
      Written(w', [], 0, p.DoneErr?, false)
    case OpShutdown =>
      var (w', p) := Shutdown(w);
      Written(w', [], 0, p.DoneErr?, false)
  }

  function Then(a: Written, b: Written): Written {
    Written(b.w, a.accepted + b.accepted, a.writes + b.writes, a.failed || b.failed, a.slipped || b.slipped)
  }

  /** A whole run on the writing side. */
  function WriteRun(w: Writer, ops: seq<WriteOp>): Written
    decreases |ops|
  {
    if ops == [] then Written(w, [], 0, false, false)
    else
      var first := WriteStep(w, ops[0]);
      Then(first, WriteRun(first.w, ops[1..]))
  }

  /** A whole run on the reading side: the final state, all bytes delivered, and whether it saw the end. */
  function ReadRun(r: Reader, caps: seq<nat>): (Reader, seq<Byte>, bool)
    requires ReaderInv(r)
    decreases |caps|
  {
    if caps == [] then (r, [], false)
    else
      var (r', p) := Read(r, caps[0]);
      ReaderLaw(r, caps[0]);
      var (r'', more, ended) := ReadRun(r', caps[1..]);
      (r'', (if p.ReadOk? then p.data else []) + more, ended || (p == ReadOk([]) && caps[0] > 0))
  }

  /** The chunks committed from log to log', given what the calls in between came to. */
  ghost predicate Logged(log: seq<Chunk>, log': seq<Chunk>, writes: nat, failed: bool, slipped: bool) {
    && |log'| - Untold(log') == |log| - Untold(log) + writes
    && (!failed ==> Untold(log') == Untold(log))
    && (HasSlip(log') <==> HasSlip(log) || slipped)
    && (slipped ==> failed)
  }

  ghost predicate Accepts(w: Writer, r: Written) {
    && WriterInv(r.w)
    && r.w.PaddedOut? == w.PaddedOut?
    && WriterView(r.w).out == WriterView(w).out + r.accepted
    && (w.PaddedOut? ==> Logged(w.enc.log, r.w.enc.log, r.writes, r.failed, r.slipped))
  }

  lemma AppendTwice(x: seq<Byte>, a: seq<Byte>, y: seq<Byte>, b: seq<Byte>, z: seq<Byte>)
    requires y == x + a && z == y + b
    ensures z == x + (a + b)
  {
  }

  lemma AcceptsThen(w: Writer, a: Written, b: Written)
    requires Accepts(w, a) && Accepts(a.w, b)
    ensures Accepts(w, Then(a, b))
  {
    AppendTwice(WriterView(w).out, a.accepted, WriterView(a.w).out, b.accepted, WriterView(b.w).out);
  }

  lemma WriteLogged(sink: Sink, e: Encoder, buf: seq<Byte>)
    requires EncoderInv(sink, e)
    ensures var r := WriteStep(PaddedOut(sink, e), OpWrite(buf));
            r.w.PaddedOut? && Logged(e.log, r.w.enc.log, r.writes, r.failed, r.slipped)
  {
    PadWriteLogs(sink, e, buf);
    var (_, e', p) := PadWrite(sink, e, buf);
    if e'.log != e.log {
      var c := e'.log[|e.log|];
      AckedSnoc(e.log, c);
      SlipSnoc(e.log, c);
    }
  }

  lemma WriteStepRefines(w: Writer, op: WriteOp)
    requires WriterInv(w)
    ensures Accepts(w, WriteStep(w, op))
  {
    match op
    case OpWrite(buf) =>
      WriterWriteLaw(w, buf);
      if w.PaddedOut? {
        WriteLogged(w.sink, w.enc, buf);
      }
    case OpFlush =>
      WriterFlushLaw(w);
      if w.PaddedOut? {
        PadFlushRefines(w.sink, w.enc);
      }
    case OpShutdown =>
      WriterShutdownLaw(w);
      if w.PaddedOut? {
        PadShutdownRefines(w.sink, w.enc);
      }
  }

  lemma {:induction false} WriteRunRefines(w: Writer, ops: seq<WriteOp>)
    requires WriterInv(w)
    ensures Accepts(w, WriteRun(w, ops))
    decreases |ops|
  {
    if ops != [] {
      var first := WriteStep(w, ops[0]);
      WriteStepRefines(w, ops[0]);
      WriteRunRefines(first.w, ops[1..]);
      AcceptsThen(w, first, WriteRun(first.w, ops[1..]));
    }
  }

  lemma TakeTwice(x: seq<Byte>, a: seq<Byte>, y: seq<Byte>, b: seq<Byte>, z: seq<Byte>)
    requires x == a + y && y == b + z
    ensures x == (a + b) + z
  {
  }

  /** From rest the bytes were delivered, and if the end was seen nothing is left. */
  predicate Delivers(rest: seq<Byte>, bytes: seq<Byte>, ended: bool, rest': seq<Byte>) {
    rest == bytes + rest' && (ended ==> rest' == [])
  }

  lemma DeliversThen(rest: seq<Byte>, a: seq<Byte>, e: bool, rest': seq<Byte>, b: seq<Byte>, e': bool, rest'': seq<Byte>)
    requires Delivers(rest, a, e, rest') && Delivers(rest', b, e', rest'')
    ensures Delivers(rest, a + b, e || e', rest'')
  {
    TakeTwice(rest, a, rest', b, rest'');
  }

  /** One read delivers what it answers. */
  lemma ReadDelivers(r: Reader, cap: nat)
    requires ReaderInv(r)
    ensures var (r', p) := Read(r, cap);
            ReaderInv(r') && Delivers(Rest(r), if p.ReadOk? then p.data else [], p == ReadOk([]) && cap > 0, Rest(r'))
  {
    ReaderLaw(r, cap);
    assert [] + Rest(r) == Rest(r);
  }

  lemma {:induction false} ReadRunRefines(r: Reader, caps: seq<nat>)
    requires ReaderInv(r)
    ensures var (r', bytes, ended) := ReadRun(r, caps);
            ReaderInv(r') && Delivers(Rest(r), bytes, ended, Rest(r'))
    decreases |caps|
  {
    if caps == [] {
      assert [] + Rest(r) == Rest(r);
    } else {
      var (r', p) := Read(r, caps[0]);
      ReadDelivers(r, caps[0]);
      var (r'', more, ended) := ReadRun(r', caps[1..]);
      ReadRunRefines(r', caps[1..]);
      DeliversThen(Rest(r), if p.ReadOk? then p.data else [], p == ReadOk([]) && caps[0] > 0, Rest(r'), more, ended, Rest(r''));
    }
  }

  /**
   After any run of calls, failed ones included, the wire completed by the unsent tail is
   the encoding of the committed chunks and decodes to their data. That is exactly what was
   answered Ok if and only if no framed write failed on the first offer of its frame. There
   is one chunk for every write answered Ok, and the first eight chunks are framed.
   */
  lemma WireDecodes(sink: Sink, pads: seq<Pad>, ops: seq<WriteOp>)
    requires SinkOut(sink) == []
    ensures var r := WriteRun(PaddedOut(sink, FreshEncoder(pads)), ops);
            && r.w.PaddedOut?
            && var e := r.w.enc;
               var wire := SinkOut(r.w.sink) + e.pending;
               && Fits(0, e.log) && wire == Encode(0, e.log)
               && e.frames == Min(PADDING_FRAMES, |e.log|)
               && |e.log| == r.writes + Untold(e.log)
               && (!r.failed ==> !r.slipped && |e.log| == r.writes)
               && Decode(0, wire) == Data(e.log)
               && (Decode(0, wire) == r.accepted <==> !r.slipped)
  {
    var w0 := PaddedOut(sink, FreshEncoder(pads));
    WriteRunRefines(w0, ops);
    var e := WriteRun(w0, ops).w.enc;
    DecodeEncode(0, e.log);
    AckedIsDataIff(e.log);
  }

  /** Reading a wire delivers a prefix of what it decodes to, and all of it once the end was seen. */
  lemma ReadsWire(src: Source, caps: seq<nat>)
    ensures var (_, bytes, ended) := ReadRun(PaddedIn(src, FreshDecoder), caps);
            && bytes <= Decode(0, SourceRest(src))
            && (ended ==> bytes == Decode(0, SourceRest(src)))
  {
    var r := PaddedIn(src, FreshDecoder);
    assert [] + SourceRest(src) == SourceRest(src);
    ReadRunRefines(r, caps);
    var (r', bytes, ended) := ReadRun(r, caps);
    DeliversPrefix(Rest(r), bytes, ended, Rest(r'));
  }

  lemma DeliversPrefix(rest: seq<Byte>, bytes: seq<Byte>, ended: bool, rest': seq<Byte>)
    requires Delivers(rest, bytes, ended, rest')
    ensures bytes <= rest && (ended ==> bytes == rest)
  {
    assert rest' == [] ==> bytes + rest' == bytes;
  }

  /**
   Whatever part of the wire has arrived, the reader has delivered a prefix of the committed
   data, which is a prefix of what the writer accepted if nothing slipped.
   */
  lemma DeliveredIsPrefix(sink: Sink, pads: seq<Pad>, ops: seq<WriteOp>, src: Source, caps: seq<nat>)
    requires SinkOut(sink) == []
    requires var r := WriteRun(PaddedOut(sink, FreshEncoder(pads)), ops);
             SourceRest(src) <= SinkOut(r.w.sink)
    ensures var r := WriteRun(PaddedOut(sink, FreshEncoder(pads)), ops);
            var delivered := ReadRun(PaddedIn(src, FreshDecoder), caps).1;
            r.w.PaddedOut? && delivered <= Data(r.w.enc.log) && (!r.slipped ==> delivered <= r.accepted)
  {
    var r := WriteRun(PaddedOut(sink, FreshEncoder(pads)), ops);
    WireDecodes(sink, pads, ops);
    var arrived, wire := SourceRest(src), SinkOut(r.w.sink) + r.w.enc.pending;
    assert arrived + wire[|arrived|..] == wire;
    DecodeMonotone(0, arrived, wire[|arrived|..]);
    ReadsWire(src, caps);
  }

  /**
   After a successful shutdown, a reader that sees the end has delivered the data of every
   committed chunk, which is exactly what was accepted if and only if nothing slipped.
   */
  lemma ShutdownDeliversAll(sink: Sink, pads: seq<Pad>, ops: seq<WriteOp>, src: Source, caps: seq<nat>)
    requires SinkOut(sink) == []
    requires var w := WriteRun(PaddedOut(sink, FreshEncoder(pads)), ops).w;
             Shutdown(w).1.DoneOk? && SourceRest(src) == SinkOut(Shutdown(w).0.sink)
    requires ReadRun(PaddedIn(src, FreshDecoder), caps).2
    ensures var r := WriteRun(PaddedOut(sink, FreshEncoder(pads)), ops);
            ReadRun(PaddedIn(src, FreshDecoder), caps).1 == r.accepted <==> !r.slipped
  {
    var r := WriteRun(PaddedOut(sink, FreshEncoder(pads)), ops);
    WireDecodes(sink, pads, ops);
    PadShutdownRefines(r.w.sink, r.w.enc);
    var wire := SinkOut(Shutdown(r.w).0.sink);
    assert wire + [] == wire;
    ReadsWire(src, caps);
  }

  const SEVEN: seq<Byte> := [0, 1, 0, 7]

  /** The sink refuses the first offer and takes the frame later. */
  function Flaky(bytes: seq<Byte>, script: seq<Event>, faults: nat, flushed: bool): Sink {
    Sink(Wire(bytes, script), 0, faults, [], flushed)
  }

  lemma SevenRefused()
    ensures PadWrite(Flaky([], [Fail, Go(4), Go(0)], 0, true), FreshEncoder([]), [7])
         == (Flaky([], [Go(4), Go(0)], 1, true), Encoder(1, SEVEN, [], [Chunk([7], [], false)], [], 0), WriteErr)
  {
    var sink, seven: seq<Byte> := Flaky([], [Fail, Go(4), Go(0)], 0, true), [7];
    assert seven[..1] == seven;
    assert Frame(seven, []) == SEVEN;
    assert SEVEN[0..] == SEVEN;
    assert [Fail, Go(4), Go(0)][1..] == [Go(4), Go(0)];
    assert SinkWrite(sink, SEVEN) == (Flaky([], [Go(4), Go(0)], 1, true), WriteErr);
    var none, one: seq<Chunk> := [], [Chunk(seven, [], false)];
    assert none + one == one;
  }

  lemma SevenFlushed(log: seq<Chunk>)
    ensures PadFlush(Flaky([], [Go(4), Go(0)], 1, true), Encoder(1, SEVEN, [], log, [], 0))
         == (Flaky(SEVEN, [], 1, true), Encoder(1, [], [], log, [], 0), DoneOk)
  {
    assert SEVEN[..4] == SEVEN && SEVEN[4..] == [] && [] + SEVEN == SEVEN;
    assert [Go(4), Go(0)][1..] == [Go(0)] && [Go(0)][1..] == [];
    assert SinkWrite(Flaky([], [Go(4), Go(0)], 1, true), SEVEN) == (Flaky(SEVEN, [Go(0)], 1, false), WriteOk(4));
    assert Drain(Flaky([], [Go(4), Go(0)], 1, true), SEVEN) == (Flaky(SEVEN, [Go(0)], 1, false), [], DoneOk);
  }

  lemma SevenDecodes()
    ensures Decode(0, SEVEN) == [7]
  {
    var seven: seq<Byte> := [7];
    assert seven[..1] == seven && SEVEN[3..] == seven;
    assert U16(0, 1) == 1;
  }

  lemma TwoCalls(w: Writer, a: WriteOp, b: WriteOp)
    ensures var first := WriteStep(w, a);
            var second := WriteStep(first.w, b);
            var r := WriteRun(w, [a, b]);
            r.w == second.w && r.accepted == first.accepted + second.accepted && r.slipped == (first.slipped || second.slipped)
  {
    var first := WriteStep(w, a);
    var second := WriteStep(first.w, b);
    assert [a, b][1..] == [b] && [b][1..] == [];
    assert WriteRun(second.w, []) == Written(second.w, [], 0, false, false);
    assert second.accepted + [] == second.accepted;
    assert WriteRun(first.w, [b]) == Then(second, WriteRun(second.w, []));
    assert WriteRun(w, [a, b]) == Then(first, WriteRun(first.w, [b]));
  }

  /** A write that is answered with an error, and whose byte a later flush sends all the same. */
  lemma SentAfterError() returns (sink: Sink, ops: seq<WriteOp>)
    ensures SinkOut(sink) == []
    ensures var r := WriteRun(PaddedOut(sink, FreshEncoder([])), ops);
            r.accepted == [] && r.slipped && Decode(0, SinkOut(r.w.sink)) == [7]
  {
    sink, ops := Flaky([], [Fail, Go(4), Go(0)], 0, true), [OpWrite([7]), OpFlush];
    SevenRefused();
    SevenFlushed([Chunk([7], [], false)]);
    SevenDecodes();
    TwoCalls(PaddedOut(sink, FreshEncoder([])), OpWrite([7]), OpFlush);
  }
}
