/**
 `NaivePaddedTransport`: the padding protocol around an inner stream, field by field
 as the source keeps it. Each poll method is proved equal to the corresponding pure
 poll function, whose properties are the lemmas of `Decoding` and `Encoding`.
 */
module PaddedTransport {
  import opened Polls
  import opened Framing
  import opened Endpoints
  import opened Decoding
  import opened Encoding

  class NaivePaddedTransport {
    var innerRead: Source
    var innerWrite: Sink

    var readFramesDone: nat
    const readHdr: array<Byte>
    var readHdrPos: nat
    var readDataRem: nat
    var readSkipRem: nat
    var readPendingSkip: nat

    var writeFramesDone: nat
    var writePending: Option<seq<Byte>>
    var writePendingOff: nat

    var pads: seq<Pad>
    ghost var log: seq<Chunk>
    ghost var shuts: seq<bool>
    ghost var spared: nat

    ghost predicate Shape()
      reads this
    {
      && readHdr.Length == 3
      && readHdrPos <= 3
      && (writePending.Some? ==> writePendingOff < |writePending.value|)
      && (writePending.None? ==> writePendingOff == 0)
    }

    ghost predicate Valid()
      reads this, readHdr
    {
      && Shape()
      && DecoderInv(Dec())
    }

    ghost function Dec(): Decoder
      requires Shape()
      reads this, readHdr
    {
      Decoder(readFramesDone, readHdr[..readHdrPos], readDataRem, readSkipRem, readPendingSkip)
    }

    ghost function Pending(): seq<Byte>
      requires Shape()
      reads this
    {
      if writePending.Some? then writePending.value[writePendingOff..] else []
    }

    ghost function Enc(): Encoder
      requires Shape()
      reads this
    {
      Encoder(writeFramesDone, Pending(), pads, log, shuts, spared)
    }

    constructor (read: Source, write: Sink, pads: seq<Pad>)
      ensures Valid() && fresh(readHdr)
      ensures innerRead == read && Dec() == FreshDecoder
      ensures innerWrite == write && Enc() == FreshEncoder(pads)
    {
      innerRead, innerWrite := read, write;
      readFramesDone, readHdrPos, readDataRem, readSkipRem, readPendingSkip := 0, 0, 0, 0, 0;
      readHdr := new Byte[3](_ => 0);
      writeFramesDone, writePending, writePendingOff := 0, None, 0;
      this.pads, log, shuts, spared := pads, [], [], 0;
    }

    method PollRead(cap: nat) returns (p: ReadPoll)
      requires Valid()
      modifies this`innerRead, this`readFramesDone, this`readHdrPos, this`readDataRem, this`readSkipRem,
               this`readPendingSkip, readHdr
      ensures Valid()
      ensures (innerRead, Dec(), p) == PadRead(old(innerRead), old(Dec()), cap)
    {
      ghost var target := PadRead(innerRead, Dec(), cap);
      while true
        invariant Valid()
        invariant PadRead(innerRead, Dec(), cap) == target
        decreases PADDING_FRAMES - readFramesDone, readSkipRem, 3 - readHdrPos
      {
        if readDataRem > 0 {
          p := DeliverData(cap);
          return;
        }
        if readSkipRem > 0 {
          var done := SkipPadding(cap, target);
          if done.Some? {
            return done.value;
          }
          continue;
        }
        if readFramesDone >= PADDING_FRAMES {
          var (src, r) := SourceRead(innerRead, cap);
          innerRead := src;
          return r;
        }
        var stop := ReadHeader(cap);
        if stop.Some? {
          return stop.value;
        }
        ParseHeader();
      }
    }

    /** Phase 1: deliver data of the current frame, at most up to its end. */
    method DeliverData(cap: nat) returns (p: ReadPoll)
      requires Valid() && readDataRem > 0
      modifies this`innerRead, this`readDataRem, this`readSkipRem, this`readPendingSkip
      ensures Valid()
      ensures (innerRead, Dec(), p) == PadRead(old(innerRead), old(Dec()), cap)
    {
      if cap == 0 {
        return ReadOk([]);
      }
      var (src, r) := SourceRead(innerRead, Min(cap, readDataRem));
      innerRead := src;
      if !r.ReadOk? || r.data == [] {
        return r;
      }
      readDataRem := readDataRem - |r.data|;
      if readDataRem == 0 {
        readSkipRem := readPendingSkip;
        readPendingSkip := 0;
      }
      return r;
    }

    /** Phase 2: discard padding of the previous frame. */
    method SkipPadding(cap: nat, ghost target: (Source, Decoder, ReadPoll)) returns (stop: Option<ReadPoll>)
      requires Valid() && readDataRem == 0 && readSkipRem > 0
      requires PadRead(innerRead, Dec(), cap) == target
      modifies this`innerRead, this`readSkipRem
      ensures Valid()
      ensures stop.Some? ==> (innerRead, Dec(), stop.value) == target
      ensures stop.None? ==> readSkipRem < old(readSkipRem) && PadRead(innerRead, Dec(), cap) == target
    {
      PadReadTurn(innerRead, Dec(), cap);
      var (src, r) := SourceRead(innerRead, Min(readSkipRem, 256));
      innerRead := src;
      if !r.ReadOk? || r.data == [] {
        return Some(r);
      }
      readSkipRem := readSkipRem - |r.data|;
      return None;
    }

    method ParseHeader()
      requires Shape() && readHdrPos == 3
      requires readDataRem == 0 && readSkipRem == 0 && readPendingSkip == 0
      modifies this`readFramesDone, this`readHdrPos, this`readDataRem, this`readSkipRem, this`readPendingSkip
      ensures Shape() && readFramesDone == old(readFramesDone) + 1
      ensures Dec() == Parsed(old(readFramesDone), readHdr[..3])
    {
      var size := U16(readHdr[0], readHdr[1]);
      readHdrPos := 0;
      readFramesDone := readFramesDone + 1;
      readDataRem := size;
      readPendingSkip := readHdr[2];
      if size == 0 {
        readSkipRem := readHdr[2];
        readPendingSkip := 0;
        readDataRem := 0;
      }
    }

    /** The decoder state once the header bytes read so far are taken into account. */
    ghost function HeaderDec(): Decoder
      requires Shape()
      reads this, readHdr
    {
      if readHdrPos < 3 then Dec() else Parsed(readFramesDone, readHdr[..3])
    }

    method KeepHeader(data: seq<Byte>)
      requires Shape() && readHdrPos + |data| <= 3
      modifies this`readHdrPos, readHdr
      ensures Shape() && readHdrPos == old(readHdrPos) + |data|
      ensures readHdr[..readHdrPos] == old(readHdr[..readHdrPos]) + data
    {
      forall i | 0 <= i < |data| {
        readHdr[readHdrPos + i] := data[i];
      }
      readHdrPos := readHdrPos + |data|;
    }

    /** One read of header bytes: some arrive, or the poll ends with the answer. */
    method ReadSomeHeader(cap: nat) returns (stop: Option<ReadPoll>)
      requires Valid() && readDataRem == 0 && readSkipRem == 0 && readFramesDone < PADDING_FRAMES
      modifies this`innerRead, this`readHdrPos, readHdr
      ensures Shape() && DecoderInv(HeaderDec())
      ensures stop.Some? ==> Valid() && (innerRead, Dec(), stop.value) == PadRead(old(innerRead), old(Dec()), cap)
      ensures stop.None? ==>
                && old(readHdrPos) < readHdrPos
                && PadRead(innerRead, HeaderDec(), cap) == PadRead(old(innerRead), old(Dec()), cap)
    {
      ghost var d := Dec();
      PadReadTurn(innerRead, d, cap);
      var (src, r) := SourceRead(innerRead, 3 - readHdrPos);
      innerRead := src;
      if !r.ReadOk? || r.data == [] {
        return Some(r);
      }
      KeepHeader(r.data);
      assert HeaderDec() == Advance(d, r.data);
      return None;
    }

    /** The header loop: fills the three bytes, or stops with the answer of the poll. */
    method ReadHeader(cap: nat) returns (stop: Option<ReadPoll>)
      requires Valid() && readDataRem == 0 && readSkipRem == 0 && readFramesDone < PADDING_FRAMES
      modifies this`innerRead, this`readHdrPos, readHdr
      ensures Shape() && DecoderInv(HeaderDec())
      ensures stop.Some? ==> Valid() && (innerRead, Dec(), stop.value) == PadRead(old(innerRead), old(Dec()), cap)
      ensures stop.None? ==>
                readHdrPos == 3 && PadRead(innerRead, HeaderDec(), cap) == PadRead(old(innerRead), old(Dec()), cap)
    {
      while readHdrPos < 3
        invariant Shape() && DecoderInv(HeaderDec())
        invariant PadRead(innerRead, HeaderDec(), cap) == PadRead(old(innerRead), old(Dec()), cap)
      {
        stop := ReadSomeHeader(cap);
        if stop.Some? {
          return;
        }
      }
      stop := None;
    }

    /** Writes the unsent tail of the current frame until it is gone or the sink stops taking it. */
    method DrainPending() returns (q: DonePoll)
      requires Shape()
      modifies this`innerWrite, this`writePending, this`writePendingOff
      ensures Shape()
      ensures (innerWrite, Pending(), q) == Drain(old(innerWrite), old(Pending()))
      ensures q.DoneOk? ==> writePending.None?
    {
      while writePending.Some?
        invariant Shape()
        invariant Drain(innerWrite, Pending()) == Drain(old(innerWrite), old(Pending()))
        decreases |Pending()|
      {
        var pending := writePending.value;
        var (sink, r) := SinkWrite(innerWrite, pending[writePendingOff..]);
        innerWrite := sink;
        match r {
          case WritePending =>
            return DonePending;
          case WriteErr =>
            return DoneErr;
          case WriteOk(n) =>
            if n == 0 {
              return DoneErr;
            }
            ghost var tail := pending[writePendingOff..][n..];
            writePendingOff := writePendingOff + n;
            if writePendingOff >= |pending| {
              writePending := None;
              writePendingOff := 0;
            }
            assert Pending() == tail;
        }
      }
      return DoneOk;
    }

    method PollWrite(buf: seq<Byte>) returns (p: WritePoll)
      requires Shape()
      modifies this`innerWrite, this`writeFramesDone, this`writePending, this`writePendingOff, this`pads, this`log, this`spared
      ensures Shape()
      ensures (innerWrite, Enc(), p) == PadWrite(old(innerWrite), old(Enc()), buf)
    {
      var q := DrainPending();
      if q == DonePending {
        return WritePending;
      }
      if q == DoneErr {
        return WriteErr;
      }
      if writeFramesDone >= PADDING_FRAMES {
        var (sink, r) := SinkWrite(innerWrite, buf);
        innerWrite := sink;
        if r.WriteOk? {
          log := log + [Chunk(buf[..r.n], [], true)];
        }
        return r;
      }
      p := SendFrame(buf);
    }

    method SendFrame(buf: seq<Byte>) returns (p: WritePoll)
      requires Shape() && writePending.None?
      modifies this`innerWrite, this`writeFramesDone, this`writePending, this`writePendingOff, this`pads, this`log, this`spared
      ensures Shape()
      ensures (innerWrite, Enc(), p) == WriteFrame(old(innerWrite), old(Enc()), buf)
    {
      var n := Min(|buf|, MAX_PADDED_PAYLOAD);
      var pad := NextPad(pads);
      pads := LaterPads(pads);
      var frame := Frame(buf[..n], pad);
      writePending := Some(frame);
      writePendingOff := 0;
      writeFramesDone := writeFramesDone + 1;
      var (sink, r) := SinkWrite(innerWrite, frame);
      innerWrite := sink;
      log := log + [Chunk(buf[..n], pad, !r.WriteErr?)];
      spared := spared + if r == WriteOk(0) then 1 else 0;
      assert frame[0..] == frame;
      if r.WriteErr? {
        return WriteErr;
      }
      if r.WriteOk? && r.n > 0 {
        writePendingOff := r.n;
        if r.n >= |frame| {
          writePending := None;
          writePendingOff := 0;
        }
      }
      assert Pending() == frame[if r.WriteOk? then r.n else 0..];
      return WriteOk(n);
    }

    method PollFlush() returns (p: DonePoll)
      requires Shape()
      modifies this`innerWrite, this`writePending, this`writePendingOff
      ensures Shape()
      ensures (innerWrite, Enc(), p) == PadFlush(old(innerWrite), old(Enc()))
    {
      p := DrainPending();
      if p == DoneOk {
        var (sink, r) := SinkFlush(innerWrite);
        innerWrite := sink;
        p := r;
      }
    }

    method PollShutdown() returns (p: DonePoll)
      requires Shape()
      modifies this`innerWrite, this`writePending, this`writePendingOff, this`shuts
      ensures Shape()
      ensures (innerWrite, Enc(), p) == PadShutdown(old(innerWrite), old(Enc()))
    {
      p := PollFlush();
      if p == DoneOk {
        var (sink, r) := SinkShutdown(innerWrite);
        innerWrite := sink;
        p := r;
      }
      if p != DonePending {
        shuts := shuts + [p.DoneOk?];
      }
    }
  }
}
