/**
 The reading direction of the padding transport: a decoder that can be suspended at
 any byte of a header, of the data or of the padding, over any source.
 */
module Decoding {
  import opened Polls
  import opened Framing
  import opened Endpoints

  /**
   `hdr` is the part of a frame header read so far; `dataRem` data bytes of the
   current frame are still to be delivered, after which `pendingSkip` padding bytes
   become the `skipRem` bytes to discard.
   */
  datatype Decoder = Decoder(frames: nat, hdr: seq<Byte>, dataRem: nat, skipRem: nat, pendingSkip: nat)

  const FreshDecoder := Decoder(0, [], 0, 0, 0)

  predicate DecoderInv(d: Decoder) {
    && d.frames <= PADDING_FRAMES
    && |d.hdr| < 3
    && (d.hdr != [] ==> d.frames < PADDING_FRAMES && d.dataRem == 0 && d.skipRem == 0)
    && (d.dataRem > 0 ==> d.skipRem == 0)
    && (d.pendingSkip > 0 ==> d.dataRem > 0)
    && d.dataRem <= MAX_PADDED_PAYLOAD
    && d.skipRem <= 255
    && d.pendingSkip <= 255
  }

  /** What the decoder will deliver from the wire w. */
  function DecodeFrom(d: Decoder, w: seq<Byte>): seq<Byte> {
    if d.dataRem > 0 then DecodeData(d.frames, d.dataRem, d.pendingSkip, w)
    else if d.skipRem > 0 then DecodeSkip(d.frames, d.skipRem, w)
    else Decode(d.frames, d.hdr + w)
  }

  function AfterData(d: Decoder, n: nat): Decoder
    requires n <= d.dataRem
  {
    if n == d.dataRem then d.(dataRem := 0, skipRem := d.pendingSkip, pendingSkip := 0)
    else d.(dataRem := d.dataRem - n)
  }

  /** The state after a complete header; a frame without data goes straight to its padding. */
  function Parsed(frames: nat, hdr: seq<Byte>): Decoder
    requires |hdr| == 3
  {
    var size := U16(hdr[0], hdr[1]);
    if size == 0 then Decoder(frames + 1, [], 0, hdr[2], 0)
    else Decoder(frames + 1, [], size, 0, hdr[2])
  }

  /** How many bytes are asked of the source next when no data is due. */
  function Unseen(d: Decoder): nat
    requires DecoderInv(d)
  {
    if d.skipRem > 0 then Min(d.skipRem, 256) else 3 - |d.hdr|
  }

  /** The state after reading padding or header bytes c. */
  function Advance(d: Decoder, c: seq<Byte>): Decoder
    requires DecoderInv(d) && |c| <= Unseen(d)
  {
    var hdr := d.hdr + c;
    if d.skipRem > 0 then d.(skipRem := d.skipRem - |c|)
    else if |hdr| < 3 then d.(hdr := hdr)
    else Parsed(d.frames, hdr)
  }

  /**
   `poll_read` of the padding transport. Each turn either answers or uses up
   padding or header bytes, so it ends by (frames left, padding left, header left).
   */
  function PadRead(src: Source, d: Decoder, cap: nat): (Source, Decoder, ReadPoll)
    requires DecoderInv(d)
    decreases PADDING_FRAMES - d.frames, d.skipRem, 3 - |d.hdr|
  {
    if d.dataRem > 0 then
      if cap == 0 then (src, d, ReadOk([]))
      else
        var (src', p) := SourceRead(src, Min(cap, d.dataRem));
        (src', if p.ReadOk? then AfterData(d, |p.data|) else d, p)
    else if d.skipRem == 0 && d.frames >= PADDING_FRAMES then
      var (src', p) := SourceRead(src, cap);
      (src', d, p)
    else
      var (src', p) := SourceRead(src, Unseen(d));
      if p.ReadOk? && p.data != [] then PadRead(src', Advance(d, p.data), cap)
      else (src', d, p)
  }

  function PadView(src: Source, d: Decoder): ReadView {
    ReadView(DecodeFrom(d, SourceRest(src)), src.stalls, src.fails, src.kind.H3In?)
  }

  lemma NothingFromNothing(d: Decoder)
    requires DecoderInv(d)
    ensures DecodeFrom(d, []) == []
  {
    assert d.hdr + [] == d.hdr;
  }

  /** A chunk that stops short of the frame's data leaves a shorter frame to decode. */
  lemma DataPart(k: nat, n: nat, m: nat, c: seq<Byte>, w: seq<Byte>)
    requires |c| < n < |c + w|
    ensures DecodeData(k, n, m, c + w) == c + DecodeData(k, n - |c|, m, w)
  {
    var r := n - |c|;
    assert (c + w)[..n] == c + w[..r] && (c + w)[n..] == w[r..];
    assert c + w[..r] + DecodeSkip(k, m, w[r..]) == c + (w[..r] + DecodeSkip(k, m, w[r..]));
  }

  /** A chunk that is all of the frame's data leaves the padding. */
  lemma DataWhole(k: nat, m: nat, c: seq<Byte>, w: seq<Byte>)
    requires c != [] && w != []
    ensures DecodeData(k, |c|, m, c + w) == c + DecodeSkip(k, m, w)
  {
    assert (c + w)[..|c|] == c && (c + w)[|c|..] == w;
  }

  lemma DataStep(d: Decoder, c: seq<Byte>, w: seq<Byte>)
    requires DecoderInv(d) && 0 < |c| <= d.dataRem
    ensures DecodeFrom(d, c + w) == c + DecodeFrom(AfterData(d, |c|), w)
  {
    var k, n, m := d.frames, d.dataRem, d.pendingSkip;
    if w == [] {
      NothingFromNothing(AfterData(d, |c|));
      assert c + w == c;
    } else if |c| == n {
      assert [] + w == w;
      DataWhole(k, m, c, w);
      ZeroData(k, m, w);
    } else if |c + w| > n {
      DataPart(k, n, m, c, w);
    }
  }

  lemma SkipStep(d: Decoder, c: seq<Byte>, w: seq<Byte>)
    requires DecoderInv(d) && 0 < |c| <= d.skipRem
    ensures DecodeFrom(d, c + w) == DecodeFrom(d.(skipRem := d.skipRem - |c|), w)
  {
    SkipPart(d.frames, d.skipRem, c, w);
    var d' := d.(skipRem := d.skipRem - |c|);
    assert DecodeFrom(d, c + w) == DecodeSkip(d.frames, d.skipRem, c + w);
    if d'.skipRem == 0 {
      BoundaryFrom(d', w);
      ZeroData(d.frames, 0, w);
    }
  }

  lemma BoundaryFrom(d: Decoder, w: seq<Byte>)
    requires d.dataRem == 0 && d.skipRem == 0 && d.hdr == []
    ensures DecodeFrom(d, w) == Decode(d.frames, w)
  {
    assert d.hdr + w == w;
  }

  /** A chunk of padding leaves less padding to skip. */
  lemma SkipPart(k: nat, m: nat, c: seq<Byte>, w: seq<Byte>)
    requires |c| <= m
    ensures DecodeSkip(k, m, c + w) == DecodeSkip(k, m - |c|, w)
  {
    if |c + w| > m {
      assert (c + w)[m..] == w[m - |c|..];
    }
  }

  lemma ZeroData(k: nat, m: nat, w: seq<Byte>)
    ensures DecodeData(k, 0, m, w) == DecodeSkip(k, m, w)
    ensures DecodeSkip(k, 0, w) == Decode(k, w)
  {
    assert w[..0] == [] && w[0..] == w;
  }

  lemma HeaderStep(d: Decoder, c: seq<Byte>, w: seq<Byte>)
    requires d.dataRem == 0 && d.skipRem == 0
    ensures DecodeFrom(d, c + w) == DecodeFrom(d.(hdr := d.hdr + c), w)
  {
    assert d.hdr + (c + w) == d.hdr + c + w;
  }

  lemma ParseStep(frames: nat, hdr: seq<Byte>, w: seq<Byte>)
    requires frames < PADDING_FRAMES && |hdr| == 3
    ensures Decode(frames, hdr + w) == DecodeFrom(Parsed(frames, hdr), w)
  {
    var size, d := U16(hdr[0], hdr[1]), Parsed(frames, hdr);
    assert (hdr + w)[3..] == w;
    assert Decode(frames, hdr + w) == DecodeData(frames + 1, size, hdr[2], w);
    if size == 0 {
      ZeroData(frames + 1, hdr[2], w);
      if hdr[2] == 0 {
        BoundaryFrom(d, w);
      }
    }
  }

  lemma AdvanceStep(d: Decoder, c: seq<Byte>, w: seq<Byte>)
    requires DecoderInv(d) && d.dataRem == 0 && (d.skipRem > 0 || d.frames < PADDING_FRAMES)
    requires 0 < |c| <= Unseen(d)
    ensures DecoderInv(Advance(d, c))
    ensures DecodeFrom(d, c + w) == DecodeFrom(Advance(d, c), w)
  {
    if d.skipRem > 0 {
      SkipStep(d, c, w);
    } else {
      HeaderStep(d, c, w);
      if |d.hdr + c| == 3 {
        ParseStep(d.frames, d.hdr + c, w);
      }
    }
  }

  /** One turn over padding or header bytes, as the loop of `poll_read` takes it. */
  lemma PadReadTurn(src: Source, d: Decoder, cap: nat)
    requires DecoderInv(d) && d.dataRem == 0 && (d.skipRem > 0 || d.frames < PADDING_FRAMES)
    ensures var (src', p) := SourceRead(src, Unseen(d));
            if p.ReadOk? && p.data != [] then
              DecoderInv(Advance(d, p.data)) && PadRead(src, d, cap) == PadRead(src', Advance(d, p.data), cap)
            else PadRead(src, d, cap) == (src', d, p)
  {
    var p := SourceRead(src, Unseen(d)).1;
    if p.ReadOk? && p.data != [] {
      AdvanceStep(d, p.data, []);
    }
  }

  /** `data` is what directly precedes `after` on the wire `before`. */
  predicate DeliveredLast(before: seq<Byte>, after: seq<Byte>, data: seq<Byte>) {
    && |data| + |after| <= |before|
    && before[|before| - |after| - |data|..] == data + after
  }

  ghost predicate Faithful(src: Source, d: Decoder, cap: nat, r: (Source, Decoder, ReadPoll)) {
    && DecoderInv(r.1)
    && ReadLaw(PadView(src, d), cap, PadView(r.0, r.1), r.2)
    && (r.2.ReadOk? ==> DeliveredLast(SourceRest(src), SourceRest(r.0), r.2.data))
    && (r.2 == ReadOk([]) && cap > 0 ==> SourceRest(r.0) == [])
  }

  /** A turn that uses up the bytes c without delivering anything. */
  lemma SilentTurn(src: Source, d: Decoder, c: seq<Byte>, src': Source, d': Decoder, cap: nat,
                   r: (Source, Decoder, ReadPoll))
    requires SourceRest(src) == c + SourceRest(src')
    requires PadView(src, d) == PadView(src', d')
    requires Faithful(src', d', cap, r)
    ensures Faithful(src, d, cap, r)
  {
    if r.2.ReadOk? {
      DeliveredLater(c, SourceRest(src'), SourceRest(r.0), r.2.data);
    }
  }

  /** Bytes in front of the wire do not matter to what is delivered from its end. */
  lemma DeliveredLater(c: seq<Byte>, before: seq<Byte>, after: seq<Byte>, data: seq<Byte>)
    requires DeliveredLast(before, after, data)
    ensures DeliveredLast(c + before, after, data)
  {
    var n := |before| - |after| - |data|;
    assert (c + before)[|c| + n..] == before[n..];
  }

  /** A poll of the source that moves nothing and ends the turn. */
  lemma IdleTurn(src: Source, d: Decoder, ask: nat, cap: nat)
    requires DecoderInv(d) && ask > 0
    requires var p := SourceRead(src, ask).1; !(p.ReadOk? && p.data != [])
    ensures var (src', p) := SourceRead(src, ask); Faithful(src, d, cap, (src', d, p))
  {
    SourceLaw(src, ask);
    NothingFromNothing(d);
  }

  lemma DataTurn(src: Source, d: Decoder, cap: nat)
    requires DecoderInv(d) && d.dataRem > 0 && cap > 0
    requires var p := SourceRead(src, Min(cap, d.dataRem)).1; p.ReadOk? && p.data != []
    ensures var (src', p) := SourceRead(src, Min(cap, d.dataRem));
            Faithful(src, d, cap, (src', AfterData(d, |p.data|), p))
  {
    var (src', p) := SourceRead(src, Min(cap, d.dataRem));
    SourceLaw(src, Min(cap, d.dataRem));
    DataStep(d, p.data, SourceRest(src'));
  }

  lemma RawTurn(src: Source, d: Decoder, cap: nat)
    requires DecoderInv(d) && d.dataRem == 0 && d.skipRem == 0 && d.frames >= PADDING_FRAMES
    ensures var (src', p) := SourceRead(src, cap); Faithful(src, d, cap, (src', d, p))
  {
    var (src', p) := SourceRead(src, cap);
    SourceLaw(src, cap);
    assert d.hdr + SourceRest(src) == SourceRest(src);
    assert d.hdr + SourceRest(src') == SourceRest(src');
  }

  /** Where the decoder stands once it has used up the padding and headers it could read. */
  function Settle(src: Source, d: Decoder): (Source, Decoder)
    requires DecoderInv(d)
    decreases PADDING_FRAMES - d.frames, d.skipRem, 3 - |d.hdr|
  {
    if d.dataRem > 0 || (d.skipRem == 0 && d.frames >= PADDING_FRAMES) then (src, d)
    else
      var (src', p) := SourceRead(src, Unseen(d));
      if p.ReadOk? && p.data != [] then Settle(src', Advance(d, p.data)) else (src, d)
  }

  /**
   No answer crosses a frame boundary: what is delivered is part of the data of the one
   frame the decoder stands in, or it is raw. It is all that the source gives when asked for
   as much as that frame and the caller's buffer allow.
   */
  lemma {:induction false} WithinOneFrame(src: Source, d: Decoder, cap: nat)
    requires DecoderInv(d)
    ensures var (src', d') := Settle(src, d);
            var (_, after, p) := PadRead(src, d, cap);
            DecoderInv(d') && (p.ReadOk? && p.data != [] ==>
              if d'.dataRem > 0 then
                |p.data| <= d'.dataRem && after == AfterData(d', |p.data|) && p == SourceRead(src', Min(cap, d'.dataRem)).1
              else d'.skipRem == 0 && d'.frames >= PADDING_FRAMES && after == d' && p == SourceRead(src', cap).1)
    decreases PADDING_FRAMES - d.frames, d.skipRem, 3 - |d.hdr|
  {
    if d.dataRem == 0 && (d.skipRem > 0 || d.frames < PADDING_FRAMES) {
      var (src', p) := SourceRead(src, Unseen(d));
      if p.ReadOk? && p.data != [] {
        AdvanceStep(d, p.data, []);
        WithinOneFrame(src', Advance(d, p.data), cap);
      }
    }
  }

  /**
   Under every schedule of partial progress the decoder delivers what the batch
   decoder would: delivered bytes followed by what is still to be decoded is
   invariant. No header or padding byte reaches the caller's buffer, an empty
   answer means that the source itself has ended, and a Pending answer means that
   the source kept the waker.
   */
  lemma {:induction false} PadReadRefines(src: Source, d: Decoder, cap: nat)
    requires DecoderInv(d)
    ensures Faithful(src, d, cap, PadRead(src, d, cap))
    decreases PADDING_FRAMES - d.frames, d.skipRem, 3 - |d.hdr|
  {
    if d.dataRem > 0 {
      var p := SourceRead(src, Min(cap, d.dataRem)).1;
      if cap > 0 && p.ReadOk? && p.data != [] {
        DataTurn(src, d, cap);
      } else if cap > 0 {
        IdleTurn(src, d, Min(cap, d.dataRem), cap);
      }
    } else if d.skipRem == 0 && d.frames >= PADDING_FRAMES {
      RawTurn(src, d, cap);
    } else {
      var (src', p) := SourceRead(src, Unseen(d));
      if p.ReadOk? && p.data != [] {
        SourceLaw(src, Unseen(d));
        AdvanceStep(d, p.data, SourceRest(src'));
        PadReadRefines(src', Advance(d, p.data), cap);
        SilentTurn(src, d, p.data, src', Advance(d, p.data), cap, PadRead(src, d, cap));
      } else {
        IdleTurn(src, d, Unseen(d), cap);
      }
    }
  }
}
