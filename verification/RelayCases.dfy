/** Inputs on which the relay finishes without having delivered everything. */
module RelayCases {
  import opened Polls
  import opened Endpoints
  import opened Halves
  import opened Copying
  import opened Relay

  /** An input on which a direction without buffer space finishes with Ok and leaves its reader's bytes behind. */
  lemma EmptyBufferLoses() returns (r: Reader, w: Writer)
    ensures ReaderInv(r) && WriterInv(w) && Rest(r) == [1] && Out(w) == []
    ensures var c := PollCopy(NewDir(0, false), r, w); c.p == DoneOk && Rest(c.r) == [1] && Out(c.w) == []
  {
    r := PlainIn(Source(Socket([1], [Go(1)]), 0, 0));
    w := PlainOut(Sink(Wire([], [Go(0), Go(0), Go(0)]), 0, 0, [], true));
    var d := NewDir(0, false);
    var w1 := PlainOut(Sink(Wire([], [Go(0), Go(0)]), 0, 0, [], true));
    assert Flush(w) == (w1, DoneOk);
    var bytes: seq<Byte> := [1];
    var r1 := PlainIn(Source(Socket(bytes, []), 0, 0));
    assert bytes[..0] == [] && bytes[0..] == bytes;
    assert [Go(1)][1..] == [];
    assert Read(r, 0) == (r1, ReadOk([]));
    assert AfterFlush(d, r, w1) == CopyLoop(d.(readDone := true), r1, w1);
    var w2 := PlainOut(Sink(Wire([], [Go(0)]), 0, 0, [], true));
    assert Flush(w1) == (w2, DoneOk);
  }

  /** An origin that ends at once: its direction finishes within one poll. */
  lemma SilentOrigin() returns (r: Reader, w: Writer)
    ensures ReaderInv(r) && WriterInv(w) && PollCopy(NewDir(2, false), r, w).p == DoneOk
  {
    r := PlainIn(Source(Socket([], [Go(0)]), 0, 0));
    w := PlainOut(Sink(Wire([], [Go(0), Go(0), Go(0)]), 0, 0, [], true));
    var d := NewDir(2, false);
    var w1 := PlainOut(Sink(Wire([], [Go(0), Go(0)]), 0, 0, [], true));
    assert Flush(w) == (w1, DoneOk);
    var r1 := PlainIn(Source(Socket([], []), 0, 0));
    assert Read(r, 2) == (r1, ReadOk([]));
    assert AfterFlush(d, r, w1) == CopyLoop(d.(readDone := true), r1, w1);
    var w2 := PlainOut(Sink(Wire([], [Go(0)]), 0, 0, [], true));
    assert Flush(w1) == (w2, DoneOk);
  }

  /** A run of two polls that ends Completed although the client still had two of its three bytes to send. */
  lemma CompletedShortRun() returns (states: seq<State>, times: seq<nat>)
    ensures IsRun(states, times) && Fresh(states[0].up) && Fresh(states[0].down)
    ensures |states[0].up.buf| > 0 && |states[0].down.buf| > 0
    ensures times != [] && Ending(states, times) == Completed
    ensures Rest(states[0].client) == [1, 2, 3] && Rest(states[|times|].client) == [2, 3]
    ensures Out(states[|times|].toOrigin) == [1]
  {
    var client, toOrigin := SwallowedReadError();
    var origin, toClient := SilentOrigin();
    var s0 := State(client, toClient, origin, toOrigin, NewDir(2, false), NewDir(2, false), 10, 10);
    FirstPoll(s0);
    var s1 := Poll(s0, 0).0;
    SecondPoll(s1);
    var s2 := Poll(s1, 1).0;
    states, times := [s0, s1, s2], [0, 1];
  }

  /** The first poll: one direction finishes, the other waits. */
  lemma FirstPoll(s: State)
    requires Inv(s) && s.deadline == 10 && s.timeout == 10
    requires PollCopy(s.up, s.client, s.toOrigin).p == DonePending
    requires PollCopy(s.down, s.origin, s.toClient).p == DoneOk
    ensures var (s', o) := Poll(s, 0);
            var c := PollCopy(s.up, s.client, s.toOrigin);
            && Inv(s') && o == Running && s'.down.shutdownDone
            && s'.up == c.d && s'.client == c.r && s'.toOrigin == c.w
  {
    PollLaw(s, 0);
    PollCopyLaw(s.up, s.client, s.toOrigin);
    PollCopyLaw(s.down, s.origin, s.toClient);
  }

  /** The second poll: the other direction finishes too. */
  lemma SecondPoll(s: State)
    requires Inv(s) && s.down.shutdownDone && PollCopy(s.up, s.client, s.toOrigin).p == DoneOk
    ensures var (s', o) := Poll(s, 1);
            var c := PollCopy(s.up, s.client, s.toOrigin);
            Inv(s') && o == Completed && s'.client == c.r && s'.toOrigin == c.w
  {
    PollLaw(s, 1);
    PollCopyLaw(s.up, s.client, s.toOrigin);
  }
}
