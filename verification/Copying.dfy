/**
 One direction of the relay: `DirectionalBuffer::poll_copy`, which writes what it
 holds, tops its buffer up when the writer blocks, forwards end of stream as a
 shutdown, and reads more.
 */
module Copying {
  import opened Polls
  import opened Endpoints
  import opened Halves

  datatype Dir = Dir(buf: seq<Byte>, pos: nat, cap: nat, amt: nat,
                     readDone: bool, shutdownDone: bool, suppress: bool)

  predicate DirInv(d: Dir) {
    && d.pos <= d.cap <= |d.buf|
    && (d.shutdownDone ==> d.readDone && d.pos == d.cap)
  }

  /** A direction before its first poll. */
  function NewDir(size: nat, suppress: bool): Dir {
    Dir(seq(size, _ => 0), 0, 0, 0, false, false, suppress)
  }

  /** Bytes read but not yet accepted by the writer. */
  function Held(d: Dir): seq<Byte>
    requires DirInv(d)
  {
    d.buf[d.pos..d.cap]
  }

  datatype Copy = Copy(d: Dir, r: Reader, w: Writer, p: DonePoll)

  function Filled(d: Dir, at: nat, data: seq<Byte>): Dir
    requires at + |data| <= |d.buf|
  {
    d.(buf := d.buf[..at] + data + d.buf[at + |data|..], cap := at + |data|)
  }

  /** What the answer of an opportunistic read does to the buffer. Its errors are taken for end of stream. */
  function Topped(d: Dir, p: ReadPoll): Dir
    requires p.ReadOk? ==> d.cap + |p.data| <= |d.buf|
  {
    match p
    case ReadPending => d
    case ReadErr => d.(readDone := true)
    case ReadOk(data) => if data == [] then d.(readDone := true) else Filled(d, d.cap, data)
  }

  /** The opportunistic read while the writer is blocked. */
  function TopUp(d: Dir, r: Reader): (Dir, Reader)
    requires DirInv(d) && ReaderInv(r)
  {
    if d.readDone || d.cap >= |d.buf| then (d, r)
    else
      var (r', p) := Read(r, |d.buf| - d.cap);
      ReaderLaw(r, |d.buf| - d.cap);
      (Topped(d, p), r')
  }

  function Sent(d: Dir, n: nat): Dir {
    d.(pos := d.pos + n, amt := d.amt + n)
  }

  /** One turn of the write loop: the new state, and the answer if the poll ends here. */
  function WriteTurn(d: Dir, r: Reader, w: Writer): (Dir, Reader, Writer, Option<DonePoll>)
    requires DirInv(d) && ReaderInv(r) && d.pos < d.cap
  {
    var (w', p) := Write(w, Held(d));
    if p.WriteErr? || p == WriteOk(0) then (d, r, w', Some(DoneErr))
    else if p.WritePending? then
      var (d', r') := TopUp(d, r);
      (d', r', w', Some(DonePending))
    else (Sent(d, p.n), r, w', None)
  }

  function CopyLoop(d: Dir, r: Reader, w: Writer): Copy
    requires DirInv(d) && ReaderInv(r) && !d.shutdownDone
    decreases |Rest(r)|, if d.readDone then 0 else 1, d.cap - d.pos, 1
  {
    if d.pos < d.cap then
      var (d', r', w', stop) := WriteTurn(d, r, w);
      if stop.Some? then Copy(d', r', w', stop.value) else CopyLoop(d', r', w')
    else
      var (w', f) := Flush(w);
      if f.DoneErr? then Copy(d, r, w', DoneErr) else AfterFlush(d, r, w')
  }

  /** Forwarding end of stream; the result of a completed shutdown is dropped. */
  function Finish(d: Dir, r: Reader, w: Writer): Copy {
    if d.suppress then Copy(d.(shutdownDone := true), r, w, DoneOk)
    else
      var (w', p) := Shutdown(w);
      if p.DonePending? then Copy(d, r, w', DonePending)
      else Copy(d.(shutdownDone := true), r, w', DoneOk)
  }

  /** The part of a turn after the flush. */
  function AfterFlush(d: Dir, r: Reader, w: Writer): Copy
    requires DirInv(d) && ReaderInv(r) && !d.shutdownDone && d.pos == d.cap
    decreases |Rest(r)|, if d.readDone then 0 else 1, 0, 0
  {
    if d.readDone then Finish(d, r, w)
    else
      var (r', p) := Read(r, |d.buf|);
      ReaderLaw(r, |d.buf|);
      match p
      case ReadPending => Copy(d, r', w, DonePending)
      case ReadErr => Copy(d, r', w, DoneErr)
      case ReadOk(data) =>
        if data == [] then CopyLoop(d.(readDone := true), r', w)
        else CopyLoop(Filled(d.(pos := 0), 0, data), r', w)
  }

  function PollCopy(d: Dir, r: Reader, w: Writer): Copy
    requires DirInv(d) && ReaderInv(r)
  {
    if d.shutdownDone then Copy(d, r, w, DoneOk) else CopyLoop(d, r, w)
  }

  /** Everything this direction has carried, holds, and will carry. */
  function Total(d: Dir, rv: ReadView, wv: WriteView): seq<Byte>
    requires DirInv(d)
  {
    wv.out + Held(d) + rv.rest
  }

  /**
   No byte is lost, duplicated or reordered between reader, buffer and writer; `amt`
   counts the accepted bytes; the reader is left alone after end of stream; and end
   of stream is only believed when the reader had nothing left, unless it failed.
   */
  ghost predicate Carries(d: Dir, rv: ReadView, wv: WriteView, d': Dir, rv': ReadView, wv': WriteView)
    requires DirInv(d)
  {
    && DirInv(d')
    && |d'.buf| == |d.buf| && d'.suppress == d.suppress
    && Total(d', rv', wv') == Total(d, rv, wv)
    && wv.out <= wv'.out
    && d'.amt - d.amt == |wv'.out| - |wv.out|
    && rv.stalls <= rv'.stalls && rv.fails <= rv'.fails
    && wv.stalls <= wv'.stalls && wv.faults <= wv'.faults
    && rv'.reliable == rv.reliable && (rv.reliable ==> rv'.fails == rv.fails)
    && (wv.tail.steady ==> wv'.tail.steady) && wv'.tail.framed == wv.tail.framed
    && (d.readDone ==> d'.readDone && rv' == rv)
    && (d'.readDone && !d.readDone && |d.buf| > 0 && rv'.fails == rv.fails ==> rv'.rest == [])
  }

  /** Neither a shutdown nor a FIN happened between the two views. */
  predicate StillOpen(wv: WriteView, wv': WriteView) {
    wv'.shuts == wv.shuts && wv'.tail.fins == wv.tail.fins
  }

  /** One shutdown completed between the two views; if it went well, everything had left and FIN came last. */
  predicate ClosedOnce(wv: WriteView, wv': WriteView) {
    && |wv'.shuts| == |wv.shuts| + 1
    && wv'.shuts[..|wv.shuts|] == wv.shuts
    && if wv'.shuts[|wv.shuts|] then
         && wv'.tail.clean
         && ((wv'.tail.sealed && wv'.tail.fins == wv.tail.fins + 1) || (!wv.tail.steady && wv'.tail.fins == wv.tail.fins))
       else wv'.tail.fins == wv.tail.fins
  }

  /** Shutdown completes only with the direction drained, at most once, and never when suppressed. */
  predicate ShutsOnce(d: Dir, wv: WriteView, d': Dir, wv': WriteView) {
    if d.shutdownDone || !d'.shutdownDone || d.suppress then StillOpen(wv, wv') else ClosedOnce(wv, wv')
  }

  /**
   Pending means that the awaited stream kept the waker: the writer while bytes are held
   or the end of stream is being forwarded, the reader otherwise. An error means that one
   of them failed. Only two failures do not end the poll with an error: a read error met
   while the writer was blocked, which ends the reading, and an error of the last shutdown.
   A direction that holds nothing has flushed, or tried to and left a waker.
   */
  ghost predicate Honest(d: Dir, rv: ReadView, wv: WriteView, d': Dir, rv': ReadView, wv': WriteView, p: DonePoll) {
    && (!p.DoneErr? ==> wv'.tail.untold == wv.tail.untold)
    && (!p.DoneErr? && rv.fails < rv'.fails ==> d'.readDone && p.DonePending? && d'.pos < d'.cap)
    && (!p.DoneErr? && wv.faults < wv'.faults ==> d'.shutdownDone && wv'.shuts == wv.shuts + [false])
    && (!d.shutdownDone && !p.DoneErr? && d'.pos == d'.cap ==> wv'.tail.flushed || wv.stalls < wv'.stalls)
    && match p
    case DoneOk => d'.shutdownDone
    case DonePending =>
      && !d'.shutdownDone
      && if d'.pos < d'.cap || d'.readDone then wv.stalls < wv'.stalls else rv.stalls < rv'.stalls
    case DoneErr => !d'.shutdownDone && ((rv.fails < rv'.fails && !d'.readDone) || wv.faults < wv'.faults)
  }

  /** A failure that has to end the poll: of a read that was awaited, or of anything but the last shutdown. */
  predicate Broke(rv: ReadView, wv: WriteView, d': Dir, rv': ReadView, wv': WriteView) {
    (rv.fails < rv'.fails && !d'.readDone) || (wv.faults < wv'.faults && !d'.shutdownDone)
  }

  ghost predicate CopyLaw(d: Dir, rv: ReadView, wv: WriteView, d': Dir, rv': ReadView, wv': WriteView, p: DonePoll)
    requires DirInv(d)
  {
    && Carries(d, rv, wv, d', rv', wv')
    && ShutsOnce(d, wv, d', wv')
    && Honest(d, rv, wv, d', rv', wv', p)
  }

  lemma CarriesRefl(d: Dir, rv: ReadView, wv: WriteView)
    requires DirInv(d)
    ensures Carries(d, rv, wv, d, rv, wv)
  {
  }

  /** An inner step of the loop followed by the rest of the loop. */
  lemma CarriesThen(d: Dir, rv: ReadView, wv: WriteView, d': Dir, rv': ReadView, wv': WriteView,
                    d'': Dir, rv'': ReadView, wv'': WriteView, p: DonePoll)
    requires DirInv(d) && !d.shutdownDone
    requires Carries(d, rv, wv, d', rv', wv') && !d'.shutdownDone
    requires StillOpen(wv, wv') && wv'.tail.untold == wv.tail.untold && rv'.fails == rv.fails && wv'.faults == wv.faults
    requires CopyLaw(d', rv', wv', d'', rv'', wv'', p)
    ensures CopyLaw(d, rv, wv, d'', rv'', wv'', p)
  {
  }

  /** Moving a prefix of h to the end of a changes nothing of their concatenation. */
  lemma MoveAcross(a: seq<Byte>, h: seq<Byte>, n: nat)
    requires n <= |h|
    ensures (a + h[..n]) + h[n..] == a + h
  {
    assert h == h[..n] + h[n..];
  }

  lemma WriteCarries(d: Dir, rv: ReadView, wv: WriteView, wv': WriteView, p: WritePoll)
    requires DirInv(d) && d.pos < d.cap && WriteLaw(wv, Held(d), wv', p)
    ensures Carries(d, rv, wv, if p.WriteOk? then Sent(d, p.n) else d, rv, wv')
  {
    if p.WriteOk? {
      assert Held(Sent(d, p.n)) == Held(d)[p.n..];
      MoveAcross(wv.out, Held(d), p.n);
    }
  }

  /** A read of data into the buffer behind what it already holds. */
  lemma ReadCarries(d: Dir, rv: ReadView, wv: WriteView, rv': ReadView, data: seq<Byte>)
    requires DirInv(d) && !d.readDone && data != [] && ReadLaw(rv, |d.buf| - d.cap, rv', ReadOk(data))
    ensures Carries(d, rv, wv, Filled(d, d.cap, data), rv', wv)
  {
    var d' := Filled(d, d.cap, data);
    assert Held(d') == Held(d) + data;
    assert Held(d') + rv'.rest == Held(d) + rv.rest;
    assert Total(d', rv', wv) == wv.out + (Held(d') + rv'.rest);
  }

  /** A read into the emptied buffer. */
  lemma RefillCarries(d: Dir, rv: ReadView, wv: WriteView, rv': ReadView, data: seq<Byte>)
    requires DirInv(d) && !d.readDone && d.pos == d.cap && ReadLaw(rv, |d.buf|, rv', ReadOk(data))
    ensures Carries(d, rv, wv, if data == [] then d.(readDone := true) else Filled(d.(pos := 0), 0, data), rv', wv)
  {
    if data != [] {
      ReadCarries(d.(pos := 0, cap := 0), rv, wv, rv', data);
      assert Held(d) == Held(d.(pos := 0, cap := 0));
      assert Filled(d.(pos := 0), 0, data) == Filled(d.(pos := 0, cap := 0), 0, data);
    }
  }

  lemma ToppedCarries(d: Dir, rv: ReadView, wv: WriteView, rv': ReadView, p: ReadPoll)
    requires DirInv(d) && !d.readDone && d.cap < |d.buf| && ReadLaw(rv, |d.buf| - d.cap, rv', p)
    ensures Carries(d, rv, wv, Topped(d, p), rv', wv)
  {
    if p.ReadOk? && p.data != [] {
      ReadCarries(d, rv, wv, rv', p.data);
    }
  }

  lemma ReadAheadCarries(d: Dir, r: Reader, wv: WriteView)
    requires DirInv(d) && ReaderInv(r) && !d.readDone && d.cap < |d.buf|
    ensures var (r', p) := Read(r, |d.buf| - d.cap);
            && ReaderInv(r') && r'.PaddedIn? == r.PaddedIn?
            && (p.ReadOk? ==> d.cap + |p.data| <= |d.buf|)
            && TopUp(d, r) == (Topped(d, p), r') && Topped(d, p).shutdownDone == d.shutdownDone
            && Carries(d, ReaderView(r), wv, Topped(d, p), ReaderView(r'), wv)
  {
    var (r', p) := Read(r, |d.buf| - d.cap);
    ReaderLaw(r, |d.buf| - d.cap);
    ToppedCarries(d, ReaderView(r), wv, ReaderView(r'), p);
  }

  lemma TopUpCarries(d: Dir, r: Reader, wv: WriteView)
    requires DirInv(d) && ReaderInv(r) && !d.shutdownDone
    ensures var (d', r') := TopUp(d, r);
            && ReaderInv(r') && r'.PaddedIn? == r.PaddedIn? && !d'.shutdownDone
            && Carries(d, ReaderView(r), wv, d', ReaderView(r'), wv)
            && (d.readDone ==> r' == r)
  {
    if d.readDone || d.cap >= |d.buf| {
      assert TopUp(d, r) == (d, r);
      CarriesRefl(d, ReaderView(r), wv);
    } else {
      ReadAheadCarries(d, r, wv);
    }
  }

  /** The read while blocked gives nothing away of what is held, and only a failure of it counts as one. */
  lemma TopUpHolds(d: Dir, r: Reader)
    requires DirInv(d) && ReaderInv(r) && d.pos < d.cap
    ensures var (d', r') := TopUp(d, r);
            d'.pos < d'.cap && (r.src.fails < r'.src.fails ==> d'.readDone)
  {
    if !d.readDone && d.cap < |d.buf| {
      ReaderLaw(r, |d.buf| - d.cap);
    }
  }

  lemma BlockedLaw(d: Dir, rv: ReadView, wv: WriteView, wv': WriteView, d': Dir, rv': ReadView)
    requires DirInv(d) && !d.shutdownDone && !d'.shutdownDone && d.pos < d.cap
    requires WriteLaw(wv, Held(d), wv', WritePending)
    requires Carries(d, rv, wv', d', rv', wv') && d'.pos < d'.cap && (rv.fails < rv'.fails ==> d'.readDone)
    ensures CopyLaw(d, rv, wv, d', rv', wv', DonePending)
  {
  }

  lemma RefusedLaw(d: Dir, rv: ReadView, wv: WriteView, wv': WriteView, p: WritePoll)
    requires DirInv(d) && !d.shutdownDone && d.pos < d.cap
    requires WriteLaw(wv, Held(d), wv', p) && (p.WriteErr? || p == WriteOk(0))
    ensures CopyLaw(d, rv, wv, d, rv, wv', DoneErr)
  {
    assert Held(d) != [];
  }

  lemma CompletesLaw(d: Dir, rv: ReadView, wv: WriteView, f: DonePoll, wv': WriteView, p: DonePoll, wv'': WriteView)
    requires DirInv(d) && !d.shutdownDone && d.readDone && d.pos == d.cap && !d.suppress
    requires FlushLaw(wv, wv', f) && !f.DoneErr? && ShutLaw(wv', wv'', p)
    ensures if p.DonePending? then CopyLaw(d, rv, wv, d, rv, wv'', DonePending)
            else CopyLaw(d, rv, wv, d.(shutdownDone := true), rv, wv'', DoneOk)
  {
  }

  /** Forwarding end of stream, after the flush. */
  lemma FinishLaw(d: Dir, r: Reader, w: Writer)
    requires DirInv(d) && WriterInv(w) && !d.shutdownDone && d.readDone && d.pos == d.cap && !Flush(w).1.DoneErr?
    ensures Lawful(d, r, w, Finish(d, r, Flush(w).0))
  {
    var (w', f) := Flush(w);
    WriterFlushLaw(w);
    if !d.suppress {
      var (w'', p) := Shutdown(w');
      WriterShutdownLaw(w');
      CompletesLaw(d, ReaderView(r), WriterView(w), f, WriterView(w'), p, WriterView(w''));
    }
  }

  /** A flush in front of a step that leaves the writer alone. */
  lemma FlushCarries(d: Dir, rv: ReadView, wv: WriteView, f: DonePoll, wv': WriteView, d': Dir, rv': ReadView)
    requires DirInv(d) && FlushLaw(wv, wv', f) && Carries(d, rv, wv', d', rv', wv')
    ensures Carries(d, rv, wv, d', rv', wv')
  {
  }

  /** The read that follows the flush was not answered with data. */
  lemma WaitsLaw(d: Dir, rv: ReadView, wv: WriteView, f: DonePoll, wv': WriteView, rv': ReadView, p: ReadPoll)
    requires DirInv(d) && !d.shutdownDone && !d.readDone && d.pos == d.cap
    requires FlushLaw(wv, wv', f) && !f.DoneErr? && ReadLaw(rv, |d.buf|, rv', p) && !p.ReadOk?
    ensures CopyLaw(d, rv, wv, d, rv', wv', if p.ReadErr? then DoneErr else DonePending)
  {
  }

  /** What one call of `poll_copy` guarantees about the new direction, reader and writer. */
  ghost predicate Lawful(d: Dir, r: Reader, w: Writer, c: Copy)
    requires DirInv(d)
  {
    && (ReaderInv(r) ==> ReaderInv(c.r)) && WriterInv(c.w)
    && c.r.PaddedIn? == r.PaddedIn? && c.w.PaddedOut? == w.PaddedOut?
    && (d.readDone ==> c.r == r)
    && CopyLaw(d, ReaderView(r), WriterView(w), c.d, ReaderView(c.r), WriterView(c.w), c.p)
  }

  lemma LawfulThen(d: Dir, r: Reader, w: Writer, d': Dir, r': Reader, w': Writer, c: Copy)
    requires DirInv(d) && !d.shutdownDone && ReaderInv(r')
    requires Carries(d, ReaderView(r), WriterView(w), d', ReaderView(r'), WriterView(w'))
    requires StillOpen(WriterView(w), WriterView(w')) && !d'.shutdownDone
    requires WriterView(w').tail.untold == WriterView(w).tail.untold && r'.src.fails == r.src.fails
    requires WriterView(w').faults == WriterView(w).faults
    requires r'.PaddedIn? == r.PaddedIn? && w'.PaddedOut? == w.PaddedOut? && (d.readDone ==> r' == r)
    requires Lawful(d', r', w', c)
    ensures Lawful(d, r, w, c)
  {
    CarriesThen(d, ReaderView(r), WriterView(w), d', ReaderView(r'), WriterView(w'),
                c.d, ReaderView(c.r), WriterView(c.w), c.p);
  }

  /** A turn of the write loop that goes on. */
  lemma WriteSent(d: Dir, r: Reader, w: Writer)
    requires DirInv(d) && ReaderInv(r) && WriterInv(w) && !d.shutdownDone && d.pos < d.cap
    requires WriteTurn(d, r, w).3.None?
    ensures var (d', r', w', _) := WriteTurn(d, r, w);
            && r' == r && WriterInv(w') && w'.PaddedOut? == w.PaddedOut?
            && Carries(d, ReaderView(r), WriterView(w), d', ReaderView(r'), WriterView(w'))
            && StillOpen(WriterView(w), WriterView(w')) && WriterView(w').tail.untold == WriterView(w).tail.untold
            && WriterView(w').faults == WriterView(w).faults
            && !d'.shutdownDone && d.pos < d'.pos && d'.cap == d.cap && d'.readDone == d.readDone
  {
    var (w', p) := Write(w, Held(d));
    WriterWriteLaw(w, Held(d));
    WriteCarries(d, ReaderView(r), WriterView(w), WriterView(w'), p);
  }

  /** A turn of the write loop that ends the poll. */
  lemma WriteStops(d: Dir, r: Reader, w: Writer)
    requires DirInv(d) && ReaderInv(r) && WriterInv(w) && !d.shutdownDone && d.pos < d.cap
    requires WriteTurn(d, r, w).3.Some?
    ensures var (d', r', w', stop) := WriteTurn(d, r, w); Lawful(d, r, w, Copy(d', r', w', stop.value))
  {
    var (w', p) := Write(w, Held(d));
    WriterWriteLaw(w, Held(d));
    if p.WritePending? {
      TopUpCarries(d, r, WriterView(w'));
      TopUpHolds(d, r);
      var (d', r') := TopUp(d, r);
      BlockedLaw(d, ReaderView(r), WriterView(w), WriterView(w'), d', ReaderView(r'));
    } else {
      RefusedLaw(d, ReaderView(r), WriterView(w), WriterView(w'), p);
    }
  }

  /** The loop of `poll_copy` keeps all of the above, for every reader and writer and every schedule. */
  lemma {:induction false} CopyLoopLaw(d: Dir, r: Reader, w: Writer)
    requires DirInv(d) && ReaderInv(r) && WriterInv(w) && !d.shutdownDone
    ensures Lawful(d, r, w, CopyLoop(d, r, w))
    decreases |Rest(r)|, if d.readDone then 0 else 1, d.cap - d.pos, 1
  {
    if d.pos < d.cap {
      var (d', r', w', stop) := WriteTurn(d, r, w);
      if stop.Some? {
        WriteStops(d, r, w);
      } else {
        WriteSent(d, r, w);
        CopyLoopLaw(d', r', w');
        LawfulThen(d, r, w, d', r', w', CopyLoop(d', r', w'));
      }
    } else {
      FlushThen(d, r, w);
    }
  }

  lemma {:induction false} FlushThen(d: Dir, r: Reader, w: Writer)
    requires DirInv(d) && ReaderInv(r) && WriterInv(w) && !d.shutdownDone && d.pos == d.cap
    ensures Lawful(d, r, w, CopyLoop(d, r, w))
    decreases |Rest(r)|, if d.readDone then 0 else 1, 0, 0, 1
  {
    var (w', f) := Flush(w);
    WriterFlushLaw(w);
    if !f.DoneErr? {
      if d.readDone {
        FinishLaw(d, r, w);
      } else {
        ReadOn(d, r, w);
      }
    }
  }

  /** What the answer of the awaited read does to the emptied buffer. */
  function Refilled(d: Dir, data: seq<Byte>): Dir
    requires |data| <= |d.buf|
  {
    if data == [] then d.(readDone := true) else Filled(d.(pos := 0), 0, data)
  }

  /** The flush and the awaited read, when the read is answered with data or the end. */
  lemma ReadsMore(d: Dir, r: Reader, w: Writer)
    requires DirInv(d) && ReaderInv(r) && WriterInv(w) && !d.shutdownDone && !d.readDone && d.pos == d.cap
    requires !Flush(w).1.DoneErr? && Read(r, |d.buf|).1.ReadOk?
    ensures var w' := Flush(w).0;
            var (r', p) := Read(r, |d.buf|);
            && WriterInv(w') && w'.PaddedOut? == w.PaddedOut? && ReaderInv(r') && r'.PaddedIn? == r.PaddedIn?
            && |p.data| <= |d.buf| && !Refilled(d, p.data).shutdownDone
            && Carries(d, ReaderView(r), WriterView(w), Refilled(d, p.data), ReaderView(r'), WriterView(w'))
            && StillOpen(WriterView(w), WriterView(w')) && WriterView(w').tail.untold == WriterView(w).tail.untold
            && WriterView(w').faults == WriterView(w).faults && r'.src.fails == r.src.fails
            && AfterFlush(d, r, w') == CopyLoop(Refilled(d, p.data), r', w')
            && (p.data != [] ==> |Rest(r')| < |Rest(r)|) && (p.data == [] ==> |Rest(r')| == |Rest(r)|)
  {
    var (w', f) := Flush(w);
    WriterFlushLaw(w);
    var (r', p) := Read(r, |d.buf|);
    ReaderLaw(r, |d.buf|);
    RefillCarries(d, ReaderView(r), WriterView(w'), ReaderView(r'), p.data);
    FlushCarries(d, ReaderView(r), WriterView(w), f, WriterView(w'), Refilled(d, p.data), ReaderView(r'));
  }

  /** The flush and the awaited read, when the read is not answered with data. */
  lemma ReadWaits(d: Dir, r: Reader, w: Writer)
    requires DirInv(d) && ReaderInv(r) && WriterInv(w) && !d.shutdownDone && !d.readDone && d.pos == d.cap
    requires !Flush(w).1.DoneErr? && !Read(r, |d.buf|).1.ReadOk?
    ensures Lawful(d, r, w, AfterFlush(d, r, Flush(w).0))
  {
    var (w', f) := Flush(w);
    WriterFlushLaw(w);
    var (r', p) := Read(r, |d.buf|);
    ReaderLaw(r, |d.buf|);
    WaitsLaw(d, ReaderView(r), WriterView(w), f, WriterView(w'), ReaderView(r'), p);
  }

  lemma {:induction false} ReadOn(d: Dir, r: Reader, w: Writer)
    requires DirInv(d) && ReaderInv(r) && WriterInv(w) && !d.shutdownDone && !d.readDone && d.pos == d.cap
    requires !Flush(w).1.DoneErr?
    ensures Lawful(d, r, w, AfterFlush(d, r, Flush(w).0))
    decreases |Rest(r)|, if d.readDone then 0 else 1, 0, 0, 0
  {
    var w' := Flush(w).0;
    var (r', p) := Read(r, |d.buf|);
    if p.ReadOk? {
      ReadsMore(d, r, w);
      var d' := Refilled(d, p.data);
      CopyLoopLaw(d', r', w');
      LawfulThen(d, r, w, d', r', w', CopyLoop(d', r', w'));
    } else {
      ReadWaits(d, r, w);
    }
  }

  /**
   One poll of a direction: conservation, exact counting, shutdown once and only when
   drained, no Pending without a waker, an error exactly if a failure has to end the poll;
   and once finished the poll touches nothing.
   */
  lemma PollCopyLaw(d: Dir, r: Reader, w: Writer)
    requires DirInv(d) && ReaderInv(r) && WriterInv(w)
    ensures Lawful(d, r, w, PollCopy(d, r, w))
    ensures d.shutdownDone ==> PollCopy(d, r, w) == Copy(d, r, w, DoneOk)
    ensures var c := PollCopy(d, r, w);
            c.p.DoneErr? <==> Broke(ReaderView(r), WriterView(w), c.d, ReaderView(c.r), WriterView(c.w))
  {
    if !d.shutdownDone {
      CopyLoopLaw(d, r, w);
    }
  }

  /** The read while the writer is blocked takes the stream for ended too early exactly when it was answered with an error. */
  lemma EndedTooEarlyIff(d: Dir, r: Reader)
    requires DirInv(d) && ReaderInv(r) && !d.readDone && d.cap < |d.buf|
    ensures var (d', r') := TopUp(d, r);
            d'.readDone && Rest(r') != [] <==> Read(r, |d.buf| - d.cap).1.ReadErr? && Rest(r) != []
  {
    var (r', p) := Read(r, |d.buf| - d.cap);
    ReaderLaw(r, |d.buf| - d.cap);
    ToppedEndsIff(d, ReaderView(r), ReaderView(r'), p);
  }

  lemma ToppedEndsIff(d: Dir, rv: ReadView, rv': ReadView, p: ReadPoll)
    requires DirInv(d) && !d.readDone && d.cap < |d.buf| && ReadLaw(rv, |d.buf| - d.cap, rv', p)
    ensures Topped(d, p).readDone && rv'.rest != [] <==> p.ReadErr? && rv.rest != []
  {
    if p == ReadOk([]) {
      assert rv.rest == [] + rv'.rest;
    }
  }

  /**
   A read error met while the writer is blocked is taken for end of stream: the
   direction finishes with Ok although the reader still had bytes to deliver.
   */
  lemma SwallowedReadError() returns (r: Reader, w: Writer)
    ensures ReaderInv(r) && WriterInv(w) && Rest(r) == [1, 2, 3] && WriterView(w).out == []
    ensures var c := PollCopy(NewDir(2, false), r, w);
            && c.p == DonePending && c.r.src.fails == 1
            && DirInv(c.d) && ReaderInv(c.r)
            && var c' := PollCopy(c.d, c.r, c.w);
               c'.p == DoneOk && WriterView(c'.w).out == [1] && Rest(c'.r) == [2, 3]
  {
    r := PlainIn(Source(Socket([1, 2, 3], [Go(1), Fail]), 0, 0));
    w := PlainOut(Sink(Wire([], [Go(0), Block, Go(1), Go(0), Go(0)]), 0, 0, [], true));
    var d := NewDir(2, false);
    var w1 := PlainOut(Sink(Wire([], [Block, Go(1), Go(0), Go(0)]), 0, 0, [], true));
    assert Flush(w) == (w1, DoneOk);
    var r1 := PlainIn(Source(Socket([2, 3], [Fail]), 0, 0));
    assert [1, 2, 3][..1] == [1] && [1, 2, 3][1..] == [2, 3];
    assert Read(r, 2) == (r1, ReadOk([1]));
    var d1 := Filled(d, 0, [1]);
    assert CopyLoop(d, r, w) == CopyLoop(d1, r1, w1);
    var w2 := PlainOut(Sink(Wire([], [Go(1), Go(0), Go(0)]), 1, 0, [], true));
    assert Write(w1, Held(d1)) == (w2, WritePending);
    var r2 := PlainIn(Source(Socket([2, 3], []), 0, 1));
    var d2 := d1.(readDone := true);
    assert TopUp(d1, r1) == (d2, r2);
    assert PollCopy(d, r, w) == Copy(d2, r2, w2, DonePending);
    assert Held(d2) == [1];
    var w3 := PlainOut(Sink(Wire([1], [Go(0), Go(0)]), 1, 0, [], false));
    assert [1][..1] == [1];
    assert Write(w2, [1]) == (w3, WriteOk(1));
    var w4 := PlainOut(Sink(Wire([1], [Go(0)]), 1, 0, [], true));
    assert Flush(w3) == (w4, DoneOk);
    assert CopyLoop(d2, r2, w2) == CopyLoop(Sent(d2, 1), r2, w3);
  }
}
