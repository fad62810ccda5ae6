/**
 HTTP/3 stream adapters: `H3StreamReader` over the inbound frame channel and
 `H3StreamWriter` over the outbound one.

 The channels are environment scripts. Inbound, `queue` lists everything the driver
 will ever put on the channel, with `Quiet` wherever a poll finds nothing yet; once
 the queue is used up the channel is either closed or silent for ever. Outbound,
 `permits` lists the answers of `poll_reserve` (and of the `send_item` after it).
 */
module H3Stream {
  import opened Polls

  datatype Arrival = Quiet | Body(data: seq<Byte>, fin: bool) | Datagram(payload: seq<Byte>)

  datatype ReaderState = ReaderState(queue: seq<Arrival>, closed: bool, buf: seq<Byte>, fin: bool)

  /** The body bytes of a frame sequence up to and including the first frame that carries FIN. */
  function BodyUntilFin(queue: seq<Arrival>): seq<Byte> {
    if queue == [] then []
    else match queue[0]
      case Body(data, fin) => if fin then data else data + BodyUntilFin(queue[1..])
      case _ => BodyUntilFin(queue[1..])
  }

  /** What a reader still owes its caller: buffered bytes, then queued bytes unless FIN was seen. */
  function ReaderRest(r: ReaderState): seq<Byte> {
    r.buf + if r.fin then [] else BodyUntilFin(r.queue)
  }

  function ReaderPoll(r: ReaderState, cap: nat): (res: (ReaderState, ReadPoll))
    ensures res.1.ReadOk? ==> |res.1.data| <= cap
    decreases |r.queue|
  {
    if r.buf != [] then
      var n := Min(|r.buf|, cap);
      (r.(buf := r.buf[n..]), ReadOk(r.buf[..n]))
    else if r.fin then (r, ReadOk([]))
    else if r.queue == [] then (r, if r.closed then ReadOk([]) else ReadPending)
    else
      var r' := r.(queue := r.queue[1..]);
      match r.queue[0]
      case Quiet => (r', ReadPending)
      case Datagram(_) => ReaderPoll(r', cap)
      case Body(data, fin) => ReaderPoll(r'.(buf := data, fin := fin), cap)
  }

  /**
   One poll delivers the next bytes of the body and nothing else: empty bodies and
   datagrams are passed over without surfacing as end of stream, and end of stream
   is only reported when FIN was seen or the channel was closed.
   */
  lemma {:induction false} ReaderRefines(r: ReaderState, cap: nat)
    ensures var (r', p) := ReaderPoll(r, cap);
            match p
            case ReadErr => false
            case ReadPending => ReaderRest(r') == ReaderRest(r) && !r'.fin && r'.buf == []
            case ReadOk(data) =>
              && ReaderRest(r) == data + ReaderRest(r')
              && (data == [] && cap > 0 ==>
                    ReaderRest(r) == [] && r'.buf == [] && (r'.fin || (r'.queue == [] && r'.closed)))
    decreases |r.queue|
  {
    if r.buf == [] && !r.fin && r.queue != [] {
      var r' := r.(queue := r.queue[1..]);
      match r.queue[0]
      case Quiet =>
      case Datagram(_) =>
        ReaderRefines(r', cap);
      case Body(data, fin) =>
        ReaderRefines(r'.(buf := data, fin := fin), cap);
        assert ReaderRest(r) == ReaderRest(r'.(buf := data, fin := fin));
    } else if r.buf != [] {
      var n := Min(|r.buf|, cap);
      assert r.buf == r.buf[..n] + r.buf[n..];
    }
  }

  /** Once FIN was seen the channel is never read again, so nothing after FIN can be delivered. */
  lemma ReaderStopsAtFin(r: ReaderState, cap: nat)
    requires r.fin
    ensures ReaderPoll(r, cap).0.queue == r.queue
    ensures ReaderRest(r) == r.buf
  {
    assert r.buf + [] == r.buf;
  }

  /** A frame that a poll passes over: a datagram, or a body that brings neither bytes nor FIN. */
  predicate Idle(a: Arrival) {
    a.Datagram? || (a.Body? && a.data == [] && !a.fin)
  }

  /** How many frames at the head of the queue are passed over. */
  function IdleFrames(queue: seq<Arrival>): (n: nat)
    ensures n <= |queue|
    ensures forall i :: 0 <= i < n ==> Idle(queue[i])
    ensures n < |queue| ==> !Idle(queue[n])
  {
    if queue != [] && Idle(queue[0]) then 1 + IdleFrames(queue[1..]) else 0
  }

  /** Buffered bytes are handed out first, as many as fit, without a look at the channel. */
  lemma ReaderHandsOut(r: ReaderState, cap: nat)
    requires r.buf != []
    ensures var (r', p) := ReaderPoll(r, cap);
            p.ReadOk? && |p.data| == Min(|r.buf|, cap) && p.data + r'.buf == r.buf && r'.queue == r.queue && r'.fin == r.fin
  {
    var n := Min(|r.buf|, cap);
    assert r.buf[..n] + r.buf[n..] == r.buf;
  }

  /** The answer p, and the state r' left behind, of a poll that found the frames `rest` once it had passed over idle ones. */
  ghost predicate Took(rest: seq<Arrival>, closed: bool, cap: nat, r': ReaderState, p: ReadPoll) {
    if rest == [] then r'.queue == [] && p == if closed then ReadOk([]) else ReadPending
    else
      && r'.queue == rest[1..]
      && match rest[0]
         case Quiet => p == ReadPending && !r'.fin
         case Body(data, fin) =>
           && r'.fin == fin
           && p.ReadOk? && |p.data| == Min(|data|, cap) && p.data + r'.buf == data
         case Datagram(_) => false
  }

  /**
   What a poll with nothing buffered takes from the channel and answers: the idle frames,
   and then one more. Pending means exactly that there is no more yet, and end of stream
   that FIN came without bytes or the channel is closed and empty.
   */
  lemma {:induction false} ReaderTakes(r: ReaderState, cap: nat)
    requires r.buf == [] && !r.fin
    ensures var (r', p) := ReaderPoll(r, cap);
            Took(r.queue[IdleFrames(r.queue)..], r.closed, cap, r', p)
    decreases |r.queue|
  {
    if r.queue == [] {
      assert r.queue[0..] == [];
    } else if Idle(r.queue[0]) {
      PassesOver(r, cap);
      ReaderTakes(r.(queue := r.queue[1..]), cap);
    } else {
      assert r.queue[0..] == r.queue;
      if r.queue[0].Body? {
        TakesBody(r, cap);
      }
    }
  }

  /** An idle frame changes nothing but the queue. */
  lemma PassesOver(r: ReaderState, cap: nat)
    requires r.buf == [] && !r.fin && r.queue != [] && Idle(r.queue[0])
    ensures ReaderPoll(r, cap) == ReaderPoll(r.(queue := r.queue[1..]), cap)
    ensures r.queue[IdleFrames(r.queue)..] == r.queue[1..][IdleFrames(r.queue[1..])..]
  {
    var r' := r.(queue := r.queue[1..]);
    if r.queue[0].Body? {
      assert r'.(buf := [], fin := false) == r';
    }
    var n := IdleFrames(r.queue[1..]);
    assert IdleFrames(r.queue) == 1 + n;
    assert r.queue[1 + n..] == r.queue[1..][n..];
  }

  lemma TakesBody(r: ReaderState, cap: nat)
    requires r.buf == [] && !r.fin && r.queue != [] && r.queue[0].Body? && !Idle(r.queue[0])
    ensures var (r', p) := ReaderPoll(r, cap);
            var data := r.queue[0].data;
            && r'.queue == r.queue[1..] && r'.fin == r.queue[0].fin
            && p.ReadOk? && |p.data| == Min(|data|, cap) && p.data + r'.buf == data
  {
    var r' := r.(queue := r.queue[1..], buf := r.queue[0].data, fin := r.queue[0].fin);
    assert ReaderPoll(r, cap) == ReaderPoll(r', cap);
    if r'.buf != [] {
      ReaderHandsOut(r', cap);
    }
  }

  class H3StreamReader {
    var recv: seq<Arrival>
    var closed: bool
    var buf: Option<seq<Byte>>
    var fin: bool

    function View(): ReaderState
      reads this
    {
      ReaderState(recv, closed, if buf.Some? then buf.value else [], fin)
    }

    constructor (recv: seq<Arrival>, closed: bool)
      ensures View() == ReaderState(recv, closed, [], false)
    {
      this.recv, this.closed, this.buf, this.fin := recv, closed, None, false;
    }

    method PollRead(cap: nat) returns (p: ReadPoll)
      modifies this
      ensures (View(), p) == ReaderPoll(old(View()), cap)
    {
      while true
        invariant ReaderPoll(View(), cap) == ReaderPoll(old(View()), cap)
        decreases |recv|
      {
        if buf.Some? {
          var b := buf.value;
          if b != [] {
            var n := Min(|b|, cap);
            buf := Some(b[n..]);
            if b[n..] == [] {
              buf := None;
            }
            return ReadOk(b[..n]);
          }
          buf := None;
        }
        if fin {
          return ReadOk([]);
        }
        if recv == [] {
          return if closed then ReadOk([]) else ReadPending;
        }
        var next := recv[0];
        recv := recv[1..];
        match next {
          case Quiet =>
            return ReadPending;
          case Datagram(_) =>
          case Body(data, last) =>
            if last {
              fin := true;
            }
            if data != [] {
              buf := Some(data);
            }
        }
      }
    }
  }

  datatype OutFrame = Headers | OutBody(data: seq<Byte>, fin: bool)

  /** Answer of `poll_reserve`; when granted, whether the `send_item` that follows is accepted. */
  datatype Permit = Busy | Hangup | Granted(accepted: bool)

  datatype WriterState = WriterState(sent: seq<OutFrame>, permits: seq<Permit>)

  function NextPermit(w: WriterState): Permit {
    if w.permits == [] then Busy else w.permits[0]
  }

  function Used(w: WriterState): WriterState {
    w.(permits := if w.permits == [] then [] else w.permits[1..])
  }

  /** The body bytes enqueued so far, across all frames. */
  function BodyBytes(sent: seq<OutFrame>): seq<Byte> {
    if sent == [] then []
    else
      var last := sent[|sent| - 1];
      BodyBytes(sent[..|sent| - 1]) + if last.OutBody? then last.data else []
  }

  /** How many frames carry FIN. */
  function Fins(sent: seq<OutFrame>): nat {
    if sent == [] then 0
    else
      var last := sent[|sent| - 1];
      Fins(sent[..|sent| - 1]) + if last.OutBody? && last.fin then 1 else 0
  }

  /** The last frame sent carries FIN. */
  predicate Sealed(sent: seq<OutFrame>) {
    sent != [] && sent[|sent| - 1].OutBody? && sent[|sent| - 1].fin
  }

  /** Every slot that will be granted will also take its frame. */
  predicate Steady(permits: seq<Permit>) {
    forall i :: 0 <= i < |permits| ==> permits[i] != Granted(false)
  }

  function WriterPoll(w: WriterState, buf: seq<Byte>): (res: (WriterState, WritePoll))
    ensures res.1.WriteOk? ==> res.1.n <= |buf|
  {
    match NextPermit(w)
    case Busy => (Used(w), WritePending)
    case Hangup => (Used(w), WriteErr)
    case Granted(accepted) =>
      if accepted then (Used(w).(sent := w.sent + [OutBody(buf, false)]), WriteOk(|buf|))
      else (Used(w), WriteErr)
  }

  function WriterShutdown(w: WriterState): (WriterState, DonePoll) {
    match NextPermit(w)
    case Busy => (Used(w), DonePending)
    case Hangup => (Used(w), DoneErr)
    case Granted(accepted) =>
      (if accepted then Used(w).(sent := w.sent + [OutBody([], true)]) else Used(w), DoneOk)
  }

  lemma SentSnoc(sent: seq<OutFrame>, f: OutFrame)
    ensures BodyBytes(sent + [f]) == BodyBytes(sent) + if f.OutBody? then f.data else []
    ensures Fins(sent + [f]) == Fins(sent) + if f.OutBody? && f.fin then 1 else 0
  {
    assert (sent + [f])[..|sent|] == sent;
  }

  lemma FinSnoc(sent: seq<OutFrame>)
    ensures var sent' := sent + [OutBody([], true)];
            BodyBytes(sent') == BodyBytes(sent) && Fins(sent') == Fins(sent) + 1 && Sealed(sent')
  {
    SentSnoc(sent, OutBody([], true));
  }

  lemma UsedIsSteady(w: WriterState)
    requires Steady(w.permits)
    ensures Steady(Used(w).permits) && NextPermit(w) != Granted(false)
  {
  }

  /**
   A write is all or nothing, is one frame, and never carries FIN. It is Pending exactly if
   the channel has no room, and an error exactly if it is closed or refuses the frame.
   */
  lemma WriterRefines(w: WriterState, buf: seq<Byte>)
    ensures var (w', p) := WriterPoll(w, buf);
            && (p.WritePending? <==> NextPermit(w) == Busy)
            && (p.WriteOk? <==> NextPermit(w) == Granted(true))
            && w'.sent == (if p.WriteOk? then w.sent + [OutBody(buf, false)] else w.sent)
            && w'.permits == Used(w).permits
            && Fins(w'.sent) == Fins(w.sent)
            && (Steady(w.permits) ==> Steady(w'.permits))
            && match p
               case WriteOk(n) => n == |buf| && BodyBytes(w'.sent) == BodyBytes(w.sent) + buf
               case _ => w'.sent == w.sent
  {
    SentSnoc(w.sent, OutBody(buf, false));
    if Steady(w.permits) {
      UsedIsSteady(w);
    }
  }

  /**
   A shutdown answered Ok adds no body bytes. It adds the FIN frame exactly when the
   granted slot accepts the item: the adapter drops the result of `send_item`, so a
   refused item is still reported as Ok.
   */
  lemma WriterShutdownRefines(w: WriterState)
    ensures var (w', p) := WriterShutdown(w);
            && (p.DonePending? <==> NextPermit(w) == Busy)
            && (p.DoneErr? <==> NextPermit(w) == Hangup)
            && w'.sent == (if NextPermit(w) == Granted(true) then w.sent + [OutBody([], true)] else w.sent)
            && w'.permits == Used(w).permits
            && BodyBytes(w'.sent) == BodyBytes(w.sent)
            && (Steady(w.permits) ==> Steady(w'.permits) && NextPermit(w) != Granted(false))
            && (p.DoneOk? && NextPermit(w) == Granted(true) ==> Sealed(w'.sent))
            && (p.DoneOk? ==>
                  Fins(w'.sent) == Fins(w.sent) + if NextPermit(w) == Granted(true) then 1 else 0)
  {
    FinSnoc(w.sent);
    if Steady(w.permits) {
      UsedIsSteady(w);
    }
  }

  /** A slot that refuses its frame: the shutdown is answered Ok, and no FIN was sent. */
  lemma RefusedFinIsOk(sent: seq<OutFrame>, later: seq<Permit>)
    ensures var (w', p) := WriterShutdown(WriterState(sent, [Granted(false)] + later));
            p == DoneOk && w'.sent == sent && Fins(w'.sent) == Fins(sent)
  {
  }

  class H3StreamWriter {
    var sent: seq<OutFrame>
    var permits: seq<Permit>

    function View(): WriterState
      reads this
    {
      WriterState(sent, permits)
    }

    constructor (sent: seq<OutFrame>, permits: seq<Permit>)
      ensures View() == WriterState(sent, permits)
    {
      this.sent, this.permits := sent, permits;
    }

    method PollReserve() returns (p: Permit)
      modifies this
      ensures p == NextPermit(old(View())) && View() == Used(old(View()))
    {
      p := Busy;
      if permits != [] {
        p := permits[0];
        permits := permits[1..];
      }
    }

    method PollWrite(buf: seq<Byte>) returns (p: WritePoll)
      modifies this
      ensures (View(), p) == WriterPoll(old(View()), buf)
    {
      var permit := PollReserve();
      if permit == Busy {
        return WritePending;
      }
      if permit == Hangup || !permit.accepted {
        return WriteErr;
      }
      sent := sent + [OutBody(buf, false)];
      return WriteOk(|buf|);
    }

    /** What was enqueued has left this adapter already. */
    method PollFlush() returns (p: DonePoll)
      ensures p == DoneOk
    {
      return DoneOk;
    }

    method PollShutdown() returns (p: DonePoll)
      modifies this
      ensures (View(), p) == WriterShutdown(old(View()))
    {
      var permit := PollReserve();
      if permit == Busy {
        return DonePending;
      }
      if permit == Hangup {
        return DoneErr;
      }
      if permit.accepted {
        sent := sent + [OutBody([], true)];
      }
      return DoneOk;
    }
  }
}
