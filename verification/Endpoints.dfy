/**
 The two halves of an inner stream `T`, as the padding transport and the relay see
 them: a source of bytes and a sink for bytes. Either half is a socket driven by an
 arbitrary script of events, or the corresponding half of an HTTP/3 stream.

 A script covers every way of making partial progress: short reads and writes,
 Pending at any byte, zero-length writes and errors. A script that has run out
 answers Pending.
 */
module Endpoints {
  import opened Polls
  import opened H3Stream

  datatype SourceKind =
    | Socket(incoming: seq<Byte>, script: seq<Event>)
    | H3In(reader: ReaderState)

  datatype Source = Source(kind: SourceKind, stalls: nat, fails: nat)

  function Next(script: seq<Event>): Event {
    if script == [] then Block else script[0]
  }

  function Later(script: seq<Event>): seq<Event> {
    if script == [] then [] else script[1..]
  }

  /** Bytes that reading the source to its end would still deliver. */
  function SourceRest(s: Source): seq<Byte> {
    match s.kind
    case Socket(incoming, _) => incoming
    case H3In(reader) => ReaderRest(reader)
  }

  function SourceView(s: Source): ReadView {
    ReadView(SourceRest(s), s.stalls, s.fails, s.kind.H3In?)
  }

  /** A socket read moves between one byte and whatever fits; end of stream is seen once all bytes are gone. */
  function KindRead(k: SourceKind, cap: nat): (res: (SourceKind, ReadPoll))
    ensures res.1.ReadOk? ==> |res.1.data| <= cap
  {
    match k
    case H3In(reader) =>
      var (reader', p) := ReaderPoll(reader, cap);
      (H3In(reader'), p)
    case Socket(incoming, script) =>
      match Next(script)
      case Block => (Socket(incoming, Later(script)), ReadPending)
      case Fail => (Socket(incoming, Later(script)), ReadErr)
      case Go(m) =>
        var room := Min(cap, |incoming|);
        var n := if m == 0 then Min(1, room) else Min(m, room);
        (Socket(incoming[n..], Later(script)), ReadOk(incoming[..n]))
  }

  function SourceRead(s: Source, cap: nat): (res: (Source, ReadPoll))
    ensures res.1.ReadOk? ==> |res.1.data| <= cap
  {
    var (k, p) := KindRead(s.kind, cap);
    (Source(k, s.stalls + if p.ReadPending? then 1 else 0, s.fails + if p.ReadErr? then 1 else 0), p)
  }

  lemma SourceLaw(s: Source, cap: nat)
    ensures var (s', p) := SourceRead(s, cap);
            ReadLaw(SourceView(s), cap, SourceView(s'), p)
  {
    match s.kind
    case Socket(_, _) =>
    case H3In(reader) =>
      ReaderRefines(reader, cap);
  }

  datatype SinkKind =
    | Wire(bytes: seq<Byte>, script: seq<Event>)
    | H3Out(writer: WriterState)

  /** `flushed` is history: a flush has completed since the last byte was taken. */
  datatype Sink = Sink(kind: SinkKind, stalls: nat, faults: nat, shuts: seq<bool>, flushed: bool)

  /** Bytes the sink has accepted, in order. */
  function SinkOut(s: Sink): seq<Byte> {
    match s.kind
    case Wire(bytes, _) => bytes
    case H3Out(writer) => BodyBytes(writer.sent)
  }

  /** Only HTTP/3 has FIN frames; a sink keeps nothing back and never hides a commitment. */
  function SinkTail(s: Sink): Tail {
    match s.kind
    case Wire(_, _) => Tail(0, false, true, false, 0, false, s.flushed)
    case H3Out(writer) => Tail(Fins(writer.sent), Sealed(writer.sent), true, Steady(writer.permits), 0, true, s.flushed)
  }

  function SinkView(s: Sink): WriteView {
    WriteView(SinkOut(s), s.stalls, s.faults, s.shuts, SinkTail(s))
  }

  function KindWrite(k: SinkKind, buf: seq<Byte>): (res: (SinkKind, WritePoll))
    ensures res.1.WriteOk? ==> res.1.n <= |buf|
  {
    match k
    case H3Out(writer) =>
      var (writer', p) := WriterPoll(writer, buf);
      (H3Out(writer'), p)
    case Wire(bytes, script) =>
      match Next(script)
      case Block => (Wire(bytes, Later(script)), WritePending)
      case Fail => (Wire(bytes, Later(script)), WriteErr)
      case Go(m) =>
        var n := Min(m, |buf|);
        (Wire(bytes + buf[..n], Later(script)), WriteOk(n))
  }

  /** A zero-length answer to a non-empty write is a fault of the sink, like an error. */
  function SinkWrite(s: Sink, buf: seq<Byte>): (res: (Sink, WritePoll))
    ensures res.1.WriteOk? ==> res.1.n <= |buf|
  {
    var (k, p) := KindWrite(s.kind, buf);
    var faulty := p.WriteErr? || (p == WriteOk(0) && buf != []);
    (Sink(k, s.stalls + if p.WritePending? then 1 else 0, s.faults + if faulty then 1 else 0, s.shuts,
          s.flushed && !(p.WriteOk? && p.n > 0)), p)
  }

  /** An HTTP/3 writer has nothing of its own to flush. */
  function KindFlush(k: SinkKind): (SinkKind, DonePoll) {
    match k
    case H3Out(_) => (k, DoneOk)
    case Wire(bytes, script) =>
      (Wire(bytes, Later(script)),
       match Next(script) case Block => DonePending case Fail => DoneErr case Go(_) => DoneOk)
  }

  function SinkFlush(s: Sink): (Sink, DonePoll) {
    var (k, p) := KindFlush(s.kind);
    (Sink(k, s.stalls + if p.DonePending? then 1 else 0, s.faults + if p.DoneErr? then 1 else 0, s.shuts,
          s.flushed || p.DoneOk?), p)
  }

  function KindShutdown(k: SinkKind): (SinkKind, DonePoll) {
    match k
    case H3Out(writer) =>
      var (writer', p) := WriterShutdown(writer);
      (H3Out(writer'), p)
    case Wire(_, _) => KindFlush(k)
  }

  function SinkShutdown(s: Sink): (Sink, DonePoll) {
    var (k, p) := KindShutdown(s.kind);
    (Sink(k, s.stalls + if p.DonePending? then 1 else 0, s.faults + if p.DoneErr? then 1 else 0,
          if p.DonePending? then s.shuts else s.shuts + [p.DoneOk?], s.flushed), p)
  }

  lemma SinkWriteLaw(s: Sink, buf: seq<Byte>)
    ensures var (s', p) := SinkWrite(s, buf);
            WriteLaw(SinkView(s), buf, SinkView(s'), p)
  {
    match s.kind
    case Wire(_, _) =>
    case H3Out(writer) =>
      WriterRefines(writer, buf);
      assert buf[..|buf|] == buf;
  }

  lemma SinkFlushLaw(s: Sink)
    ensures var (s', p) := SinkFlush(s);
            FlushLaw(SinkView(s), SinkView(s'), p) && (s.kind.H3Out? ==> p == DoneOk && s'.kind == s.kind)
  {
  }

  lemma SinkShutdownLaw(s: Sink)
    ensures var (s', p) := SinkShutdown(s);
            ShutLaw(SinkView(s), SinkView(s'), p)
  {
    match s.kind
    case Wire(_, _) =>
    case H3Out(writer) =>
      WriterShutdownRefines(writer);
  }
}
