/**
 The stream halves the relay copies between: a reader and a writer, each either the
 bare endpoint or the padding transport around it. All four obey the laws of `Polls`.
 */
module Halves {
  import opened Polls
  import opened Endpoints
  import opened Decoding
  import opened Encoding

  datatype Reader = PlainIn(src: Source) | PaddedIn(src: Source, dec: Decoder)

  predicate ReaderInv(r: Reader) {
    r.PaddedIn? ==> DecoderInv(r.dec)
  }

  /** The bytes that reading to the end would deliver to the caller. */
  function Rest(r: Reader): seq<Byte> {
    match r
    case PlainIn(src) => SourceRest(src)
    case PaddedIn(src, dec) => DecodeFrom(dec, SourceRest(src))
  }

  function ReaderView(r: Reader): ReadView {
    ReadView(Rest(r), r.src.stalls, r.src.fails, r.src.kind.H3In?)
  }

  function Read(r: Reader, cap: nat): (Reader, ReadPoll)
    requires ReaderInv(r)
  {
    match r
    case PlainIn(src) =>
      var (src', p) := SourceRead(src, cap);
      (PlainIn(src'), p)
    case PaddedIn(src, dec) =>
      var (src', dec', p) := PadRead(src, dec, cap);
      (PaddedIn(src', dec'), p)
  }

  lemma ReaderLaw(r: Reader, cap: nat)
    requires ReaderInv(r)
    ensures var (r', p) := Read(r, cap);
            && ReaderInv(r')
            && r'.PaddedIn? == r.PaddedIn?
            && ReadLaw(ReaderView(r), cap, ReaderView(r'), p)
  {
    match r
    case PlainIn(src) => SourceLaw(src, cap);
    case PaddedIn(src, dec) => PadReadRefines(src, dec, cap);
  }

  datatype Writer = PlainOut(sink: Sink) | PaddedOut(sink: Sink, enc: Encoder)

  ghost predicate WriterInv(w: Writer) {
    w.PaddedOut? ==> EncoderInv(w.sink, w.enc)
  }

  /** What the writer has accepted from its caller, and what became of its shutdowns. */
  function WriterView(w: Writer): WriteView {
    match w
    case PlainOut(sink) => SinkView(sink)
    case PaddedOut(sink, enc) => EncoderView(sink, enc)
  }

  function Write(w: Writer, buf: seq<Byte>): (res: (Writer, WritePoll))
    ensures res.1.WriteOk? ==> res.1.n <= |buf|
  {
    match w
    case PlainOut(sink) =>
      var (sink', p) := SinkWrite(sink, buf);
      (PlainOut(sink'), p)
    case PaddedOut(sink, enc) =>
      var (sink', enc', p) := PadWrite(sink, enc, buf);
      (PaddedOut(sink', enc'), p)
  }

  function Flush(w: Writer): (Writer, DonePoll) {
    match w
    case PlainOut(sink) =>
      var (sink', p) := SinkFlush(sink);
      (PlainOut(sink'), p)
    case PaddedOut(sink, enc) =>
      var (sink', enc', p) := PadFlush(sink, enc);
      (PaddedOut(sink', enc'), p)
  }

  function Shutdown(w: Writer): (Writer, DonePoll) {
    match w
    case PlainOut(sink) =>
      var (sink', p) := SinkShutdown(sink);
      (PlainOut(sink'), p)
    case PaddedOut(sink, enc) =>
      var (sink', enc', p) := PadShutdown(sink, enc);
      (PaddedOut(sink', enc'), p)
  }

  lemma WriterWriteLaw(w: Writer, buf: seq<Byte>)
    requires WriterInv(w)
    ensures var (w', p) := Write(w, buf);
            && WriterInv(w')
            && w'.PaddedOut? == w.PaddedOut?
            && WriteLaw(WriterView(w), buf, WriterView(w'), p)
  {
    match w
    case PlainOut(sink) => SinkWriteLaw(sink, buf);
    case PaddedOut(sink, enc) => PadWriteRefines(sink, enc, buf);
  }

  lemma WriterFlushLaw(w: Writer)
    requires WriterInv(w)
    ensures var (w', p) := Flush(w);
            && WriterInv(w')
            && w'.PaddedOut? == w.PaddedOut?
            && FlushLaw(WriterView(w), WriterView(w'), p)
  {
    match w
    case PlainOut(sink) => SinkFlushLaw(sink);
    case PaddedOut(sink, enc) => PadFlushRefines(sink, enc);
  }

  lemma WriterShutdownLaw(w: Writer)
    requires WriterInv(w)
    ensures var (w', p) := Shutdown(w);
            && WriterInv(w')
            && w'.PaddedOut? == w.PaddedOut?
            && ShutLaw(WriterView(w), WriterView(w'), p)
  {
    match w
    case PlainOut(sink) => SinkShutdownLaw(sink);
    case PaddedOut(sink, enc) => PadShutdownRefines(sink, enc);
  }
}
