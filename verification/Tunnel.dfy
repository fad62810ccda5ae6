/**
 The whole TCP tunnel over HTTP/3: `H3StreamReader` and `H3StreamWriter`, the padding
 transport around them, and the relay between that and the origin.
 */
module Tunnel {
  import opened Polls
  import opened H3Stream
  import opened Framing
  import opened Endpoints
  import opened Decoding
  import opened Encoding
  import opened Halves
  import opened Copying
  import opened Relay

  /** How the handler starts the relay: the client side padded over a fresh stream, the origin side bare. */
  ghost predicate Started(s: State, queue: seq<Arrival>, closed: bool, sent: seq<OutFrame>, permits: seq<Permit>, pads: seq<Pad>) {
    && Inv(s)
    && s.client == PaddedIn(Source(H3In(ReaderState(queue, closed, [], false)), 0, 0), FreshDecoder)
    && s.toClient == PaddedOut(Sink(H3Out(WriterState(sent, permits)), 0, 0, [], true), FreshEncoder(pads))
    && BodyBytes(sent) == [] && Fins(sent) == 0
    && s.origin.PlainIn? && s.toOrigin.PlainOut?
    && Fresh(s.up) && Fresh(s.down)
    && |s.up.buf| > 0 && |s.down.buf| > 0
    && !s.up.suppress && !s.down.suppress
  }

  lemma ClientRest(s: State, queue: seq<Arrival>, closed: bool, sent: seq<OutFrame>, permits: seq<Permit>, pads: seq<Pad>)
    requires Started(s, queue, closed, sent, permits, pads)
    ensures Rest(s.client) == Decode(0, BodyUntilFin(queue))
  {
    assert [] + BodyUntilFin(queue) == BodyUntilFin(queue);
  }

  /**
   A completed relay has sent the origin exactly the decoded bodies of the inbound
   frames, up to FIN or to the close of the channel. No condition on errors is needed,
   because the HTTP/3 reader never fails.
   */
  lemma UploadIsExact(states: seq<State>, times: seq<nat>,
                      queue: seq<Arrival>, closed: bool, sent: seq<OutFrame>, permits: seq<Permit>, pads: seq<Pad>)
    requires IsRun(states, times) && Started(states[0], queue, closed, sent, permits, pads)
    requires times != [] && Ending(states, times) == Completed
    ensures Out(states[|times|].toOrigin) == Out(states[0].toOrigin) + Decode(0, BodyUntilFin(queue))
  {
    var s, s' := states[0], states[|times|];
    ClientRest(s, queue, closed, sent, permits, pads);
    CompletedMeansDrained(states, times);
    RunLaw(states, times, 0, |times|);
    assert Out(s'.toOrigin) + [] == Out(s'.toOrigin);
  }

  /** At any moment of any run, the origin has received a prefix of the decoded upload. */
  lemma UploadIsPrefix(states: seq<State>, times: seq<nat>,
                       queue: seq<Arrival>, closed: bool, sent: seq<OutFrame>, permits: seq<Permit>, pads: seq<Pad>)
    requires IsRun(states, times) && Started(states[0], queue, closed, sent, permits, pads)
    ensures Out(states[|times|].toOrigin) <= Out(states[0].toOrigin) + Decode(0, BodyUntilFin(queue))
  {
    ClientRest(states[0], queue, closed, sent, permits, pads);
    RunConserves(states, times);
  }

  /**
   When the relay completed and the client-side shutdown went well, the outbound bodies are
   the encoding of the bytes read from the origin, cut into chunks by the relay's writes,
   and FIN was sent once, last, unless the channel refused it. The bytes read are all the
   origin had exactly if no poll swallowed a failure of the origin with bytes left.
   */
  lemma DownloadIsExact(states: seq<State>, times: seq<nat>,
                        queue: seq<Arrival>, closed: bool, sent: seq<OutFrame>, permits: seq<Permit>, pads: seq<Pad>)
    requires IsRun(states, times) && Started(states[0], queue, closed, sent, permits, pads)
    requires times != [] && Ending(states, times) == Completed
    requires WriterView(states[|times|].toClient).shuts == [true]
    ensures var w := states[|times|].toClient;
            && w.PaddedOut? && w.sink.kind.H3Out? && Fits(0, w.enc.log)
            && BodyBytes(w.sink.kind.writer.sent) == Encode(0, w.enc.log)
            && Decode(0, BodyBytes(w.sink.kind.writer.sent)) == Data(w.enc.log)
            && Data(w.enc.log) + Rest(states[|times|].origin) == Rest(states[0].origin)
            && (Data(w.enc.log) == Rest(states[0].origin) <==>
                  forall i :: 0 <= i < |times| ==> !OriginCut(states[i], states[i + 1]))
            && Fins(w.sink.kind.writer.sent) <= 1
            && (Steady(permits) ==> Fins(w.sink.kind.writer.sent) == 1 && Sealed(w.sink.kind.writer.sent))
  {
    var s, s' := states[0], states[|times|];
    CompletedMeansDrained(states, times);
    CompletedShortIff(states, times);
    RunLaw(states, times, 0, |times|);
    RunTellsAll(states, times);
    EndsClean(s, s', permits);
    var w := s'.toClient;
    AllAcked(w.enc.log);
    DecodeEncode(0, w.enc.log);
    assert Out(s.toClient) + Rest(s.origin) == Rest(s.origin);
    WholeIff(Data(w.enc.log), Rest(s'.origin), Rest(s.origin));
  }

  lemma WholeIff(a: seq<Byte>, b: seq<Byte>, whole: seq<Byte>)
    requires a + b == whole
    ensures a == whole <==> b == []
  {
    assert |a + b| == |a| + |b|;
    assert b == [] ==> a + b == a;
  }

  /** At any moment of any run that has not failed, what the client can decode is a prefix of what the origin sends. */
  lemma DownloadIsPrefix(states: seq<State>, times: seq<nat>,
                         queue: seq<Arrival>, closed: bool, sent: seq<OutFrame>, permits: seq<Permit>, pads: seq<Pad>)
    requires IsRun(states, times) && Started(states[0], queue, closed, sent, permits, pads)
    requires times != [] ==> Ending(states, times) != Failed
    ensures var w := states[|times|].toClient;
            && w.PaddedOut? && w.sink.kind.H3Out?
            && Decode(0, BodyBytes(w.sink.kind.writer.sent)) <= Rest(states[0].origin)
  {
    var s, s' := states[0], states[|times|];
    RunConserves(states, times);
    RunLaw(states, times, 0, |times|);
    if times != [] {
      RunTellsAll(states, times);
    }
    var w := s'.toClient;
    assert WriterView(w).tail.framed;
    WireIsPrefix(w.sink, w.enc);
    PrefixOf(Out(w), Held(s'.down), Rest(s'.origin), Rest(s.origin));
  }

  lemma PrefixOf(a: seq<Byte>, b: seq<Byte>, c: seq<Byte>, whole: seq<Byte>)
    requires a + b + c == [] + whole
    ensures a <= whole
  {
    assert [] + whole == whole;
  }

  /** What has reached the wire decodes to a prefix of what was accepted, if nothing was committed unannounced. */
  lemma WireIsPrefix(sink: Sink, e: Encoder)
    requires EncoderInv(sink, e) && Untold(e.log) == 0
    ensures Decode(0, SinkOut(sink)) <= Acked(e.log)
  {
    DecodeMonotone(0, SinkOut(sink), e.pending);
    DecodeEncode(0, e.log);
    AllAcked(e.log);
  }

  lemma EndsClean(s: State, s': State, permits: seq<Permit>)
    requires Inv(s) && RelayLaw(s, s')
    requires s.toClient.PaddedOut? && s.toClient.sink.kind.H3Out? && s.toClient.sink.kind.writer.permits == permits
    requires WriterView(s.toClient).shuts == [] && WriterView(s.toClient).tail.fins == 0
    requires ClosedOnce(WriterView(s.toClient), WriterView(s'.toClient)) && WriterView(s'.toClient).shuts == [true]
    ensures var w := s'.toClient;
            && w.PaddedOut? && w.sink.kind.H3Out? && w.enc.pending == []
            && Fits(0, w.enc.log) && BodyBytes(w.sink.kind.writer.sent) == Encode(0, w.enc.log)
            && Fins(w.sink.kind.writer.sent) <= 1
            && (Steady(permits) ==> Fins(w.sink.kind.writer.sent) == 1 && Sealed(w.sink.kind.writer.sent))
  {
    var w := s'.toClient;
    assert WriterView(w).tail.framed;
    assert SinkOut(w.sink) + [] == SinkOut(w.sink);
  }
}
