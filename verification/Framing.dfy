/**
 The naive padding protocol as a batch codec. The first eight chunks of a direction
 travel as frames, a two-byte big-endian data length, a one-byte padding length, the
 data and the padding; everything after that travels raw.

 `Encode` and `Decode` know nothing of polls, buffers or partial progress. They are
 the reference that the resumable transport is compared with.
 */
module Framing {
  import opened Polls

  const PADDING_FRAMES: nat := 8
  const MAX_PADDED_PAYLOAD: nat := 65535

  type Pad = p: seq<Byte> | |p| <= 255

  /** One accepted write: its data, the padding chosen for it, and whether the caller was told Ok. */
  datatype Chunk = Chunk(data: seq<Byte>, pad: Pad, acked: bool)

  function Frame(data: seq<Byte>, pad: Pad): (f: seq<Byte>)
    requires |data| <= MAX_PADDED_PAYLOAD
    ensures |f| == 3 + |data| + |pad|
  {
    [|data| / 256, |data| % 256, |pad|] + data + pad
  }

  /** What the chunk with index k looks like on the wire. */
  function Piece(k: nat, c: Chunk): seq<Byte>
    requires k < PADDING_FRAMES ==> |c.data| <= MAX_PADDED_PAYLOAD
  {
    if k < PADDING_FRAMES then Frame(c.data, c.pad) else c.data
  }

  /** Only a framed chunk is limited to what its two-byte length can say. */
  predicate Fits(k: nat, log: seq<Chunk>) {
    forall i :: 0 <= i < |log| && k + i < PADDING_FRAMES ==> |log[i].data| <= MAX_PADDED_PAYLOAD
  }

  function Encode(k: nat, log: seq<Chunk>): seq<Byte>
    requires Fits(k, log)
    decreases |log|
  {
    if log == [] then [] else Piece(k, log[0]) + Encode(k + 1, log[1..])
  }

  /** The data of all chunks. */
  function Data(log: seq<Chunk>): seq<Byte> {
    if log == [] then [] else log[0].data + Data(log[1..])
  }

  /** The data of the chunks whose write was answered Ok. */
  function Acked(log: seq<Chunk>): seq<Byte> {
    if log == [] then [] else (if log[0].acked then log[0].data else []) + Acked(log[1..])
  }

  /** How many chunks went out although their write was answered with an error. */
  function Untold(log: seq<Chunk>): nat {
    if log == [] then 0 else (if log[0].acked then 0 else 1) + Untold(log[1..])
  }

  /** Decoding at a frame boundary after k frames. A truncated wire yields the data that is there. */
  function Decode(k: nat, w: seq<Byte>): seq<Byte>
    decreases |w|, 0
  {
    if k >= PADDING_FRAMES then w
    else if |w| < 3 then []
    else DecodeData(k + 1, U16(w[0], w[1]), w[2], w[3..])
  }

  /** Decoding with n data bytes of the current frame to come, and then m padding bytes. */
  function DecodeData(k: nat, n: nat, m: nat, w: seq<Byte>): seq<Byte>
    decreases |w|, 2
  {
    if |w| <= n then w else w[..n] + DecodeSkip(k, m, w[n..])
  }

  /** Decoding with m padding bytes to come. */
  function DecodeSkip(k: nat, m: nat, w: seq<Byte>): seq<Byte>
    decreases |w|, 1
  {
    if |w| <= m then [] else Decode(k, w[m..])
  }

  lemma FitsSnoc(k: nat, log: seq<Chunk>, c: Chunk)
    requires Fits(k, log)
    requires k + |log| < PADDING_FRAMES ==> |c.data| <= MAX_PADDED_PAYLOAD
    ensures Fits(k, log + [c])
  {
  }

  lemma EncodeOne(k: nat, c: Chunk)
    requires k < PADDING_FRAMES ==> |c.data| <= MAX_PADDED_PAYLOAD
    ensures Fits(k, [c]) && Encode(k, [c]) == Piece(k, c) == [] + Piece(k, c)
  {
    assert [c][1..] == [] && Encode(k + 1, []) == [];
    assert Piece(k, c) + [] == Piece(k, c);
  }

  lemma {:induction false} EncodeSnoc(k: nat, log: seq<Chunk>, c: Chunk)
    requires Fits(k, log) && Fits(k, log + [c])
    requires k + |log| < PADDING_FRAMES ==> |c.data| <= MAX_PADDED_PAYLOAD
    ensures Encode(k, log + [c]) == Encode(k, log) + Piece(k + |log|, c)
    decreases |log|
  {
    if log == [] {
      assert log + [c] == [c];
      EncodeOne(k, c);
    } else {
      var all, rest := log + [c], log[1..] + [c];
      FitsSnoc(k + 1, log[1..], c);
      EncodeSnoc(k + 1, log[1..], c);
      assert all[1..] == rest && all[0] == log[0];
      EncodeFirst(k, log);
      EncodeFirst(k, all);
      Regroup(Piece(k, log[0]), Encode(k + 1, log[1..]), Piece(k + |log|, c),
              Encode(k, log), Encode(k + 1, rest), Encode(k, all));
    }
  }

  /** What the next chunk adds to the wire: one of the first eight its header, data and padding, a later one just its data. */
  lemma NextOnWire(log: seq<Chunk>, c: Chunk)
    requires Fits(0, log) && (|log| < 8 ==> |c.data| <= 65535)
    ensures Fits(0, log + [c])
    ensures |log| >= 8 ==> Encode(0, log + [c]) == Encode(0, log) + c.data
    ensures |log| < 8 ==>
              exists hi: Byte, lo: Byte, n: Byte ::
                && hi * 256 + lo == |c.data| && n == |c.pad|
                && Encode(0, log + [c]) == Encode(0, log) + ([hi, lo, n] + c.data + c.pad)
  {
    FitsSnoc(0, log, c);
    EncodeSnoc(0, log, c);
    if |log| < 8 {
      var hi, lo, n := Header(c);
      assert Piece(|log|, c) == [hi, lo, n] + c.data + c.pad;
    }
  }

  lemma Header(c: Chunk) returns (hi: Byte, lo: Byte, n: Byte)
    requires |c.data| <= 65535
    ensures hi * 256 + lo == |c.data| && n == |c.pad| && Frame(c.data, c.pad) == [hi, lo, n] + c.data + c.pad
  {
    hi, lo, n := |c.data| / 256, |c.data| % 256, |c.pad|;
  }

  lemma EncodeFirst(k: nat, log: seq<Chunk>)
    requires Fits(k, log) && log != []
    ensures Fits(k + 1, log[1..]) && Encode(k, log) == Piece(k, log[0]) + Encode(k + 1, log[1..])
  {
  }

  lemma Regroup(a: seq<Byte>, b: seq<Byte>, c: seq<Byte>, ab: seq<Byte>, bc: seq<Byte>, abc: seq<Byte>)
    requires ab == a + b && bc == b + c && abc == a + bc
    ensures abc == ab + c
  {
  }

  lemma Reassociate(a: seq<Byte>, b: seq<Byte>, c: seq<Byte>)
    ensures a + (b + c) == a + b + c
  {
  }

  lemma {:induction false} AckedSnoc(log: seq<Chunk>, c: Chunk)
    ensures Acked(log + [c]) == Acked(log) + if c.acked then c.data else []
    ensures Untold(log + [c]) == Untold(log) + if c.acked then 0 else 1
    decreases |log|
  {
    if log == [] {
      assert log + [c] == [c] && [c][1..] == [];
    } else {
      assert (log + [c])[1..] == log[1..] + [c];
      AckedSnoc(log[1..], c);
      Reassociate(if log[0].acked then log[0].data else [], Acked(log[1..]), if c.acked then c.data else []);
    }
  }

  lemma {:induction false} AllAcked(log: seq<Chunk>)
    requires Untold(log) == 0
    ensures Acked(log) == Data(log)
    decreases |log|
  {
    if log != [] {
      AllAcked(log[1..]);
    }
  }

  /** Some chunk with data went out although its write was answered with an error. */
  predicate HasSlip(log: seq<Chunk>) {
    exists i :: 0 <= i < |log| && Slip(log[i])
  }

  predicate Slip(c: Chunk) {
    !c.acked && c.data != []
  }

  lemma SlipSnoc(log: seq<Chunk>, c: Chunk)
    ensures HasSlip(log + [c]) <==> HasSlip(log) || Slip(c)
  {
    var log' := log + [c];
    assert log'[|log|] == c;
    forall i | 0 <= i < |log| ensures log'[i] == log[i] {
    }
  }

  lemma SlipFirst(log: seq<Chunk>)
    requires log != []
    ensures HasSlip(log) <==> Slip(log[0]) || HasSlip(log[1..])
  {
    if HasSlip(log[1..]) {
      var i :| 0 <= i < |log[1..]| && Slip(log[1..][i]);
      assert Slip(log[i + 1]);
    }
    if HasSlip(log) && !Slip(log[0]) {
      var i :| 0 <= i < |log| && Slip(log[i]);
      assert Slip(log[1..][i - 1]);
    }
  }

  lemma {:induction false} AckedIsShorter(log: seq<Chunk>)
    ensures |Acked(log)| <= |Data(log)|
    decreases |log|
  {
    if log != [] {
      AckedIsShorter(log[1..]);
    }
  }

  /** The acknowledged data is all the data exactly if nothing slipped out. */
  lemma {:induction false} AckedIsDataIff(log: seq<Chunk>)
    ensures Acked(log) == Data(log) <==> !HasSlip(log)
    decreases |log|
  {
    if log != [] {
      SlipFirst(log);
      AckedIsDataIff(log[1..]);
      AckedIsShorter(log[1..]);
      if !Slip(log[0]) {
        SamePrefix(log[0].data, Acked(log[1..]), Data(log[1..]));
      }
    }
  }

  lemma SamePrefix(a: seq<Byte>, b: seq<Byte>, c: seq<Byte>)
    ensures a + b == a + c <==> b == c
  {
    assert (a + b)[|a|..] == b && (a + c)[|a|..] == c;
  }

  /** Decoding one frame in front of anything gives its data and then the rest. */
  lemma DecodeFrame(k: nat, data: seq<Byte>, pad: Pad, w: seq<Byte>)
    requires k < PADDING_FRAMES && |data| <= MAX_PADDED_PAYLOAD
    ensures Decode(k, Frame(data, pad) + w) == data + Decode(k + 1, w)
  {
    var f := Frame(data, pad) + w;
    var t := pad + w;
    assert U16(f[0], f[1]) == |data| && f[2] == |pad|;
    assert f[3..] == data + t;
    assert (data + t)[..|data|] == data && (data + t)[|data|..] == t;
    assert DecodeSkip(k + 1, |pad|, t) == Decode(k + 1, w) by {
      assert t[|pad|..] == w;
    }
    assert t == [] ==> Decode(k + 1, w) == [] && data + t == data;
  }

  /** The codec is lossless for every list of chunks and every choice of padding. */
  lemma {:induction false} DecodeEncode(k: nat, log: seq<Chunk>)
    requires Fits(k, log)
    ensures Decode(k, Encode(k, log)) == Data(log)
    decreases |log|
  {
    if log != [] {
      DecodeEncode(k + 1, log[1..]);
      if k < PADDING_FRAMES {
        DecodeFrame(k, log[0].data, log[0].pad, Encode(k + 1, log[1..]));
      }
    }
  }

  /** More wire never changes what was already decoded. */
  lemma {:induction false} DecodeMonotone(k: nat, w: seq<Byte>, v: seq<Byte>)
    ensures Decode(k, w) <= Decode(k, w + v)
    decreases |w|, 0
  {
    if k < PADDING_FRAMES && |w| >= 3 {
      assert (w + v)[3..] == w[3..] + v;
      DecodeDataMonotone(k + 1, U16(w[0], w[1]), w[2], w[3..], v);
    }
  }

  lemma {:induction false} DecodeDataMonotone(k: nat, n: nat, m: nat, w: seq<Byte>, v: seq<Byte>)
    ensures DecodeData(k, n, m, w) <= DecodeData(k, n, m, w + v)
    decreases |w|, 1
  {
    if |w| > n {
      assert (w + v)[..n] == w[..n] && (w + v)[n..] == w[n..] + v;
      if |w[n..]| > m {
        assert (w[n..] + v)[m..] == w[n..][m..] + v;
        DecodeMonotone(k, w[n..][m..], v);
      }
    }
  }
}
