/** `copy_bidirectional_with_stats`: the relay as the source runs it, over two `DirectionalBuffer`s. */
module RelayTask {
  import opened Polls
  import opened Halves
  import opened Copying
  import opened DirectionalBuffers
  import opened Relay

  /** What the collector holds for the user of this connection. */
  datatype Stats = Stats(upload: nat, download: nat)

  /** The relay before its first poll, created at the instant start. */
  function Initial(client: Reader, toClient: Writer, origin: Reader, toOrigin: Writer,
                   timeout: nat, bufferSize: nat, suppress: bool, start: nat): State {
    State(client, toClient, origin, toOrigin,
          NewDir(bufferSize, suppress), NewDir(bufferSize, false), start + timeout, timeout)
  }

  lemma RunSnoc(states: seq<State>, times: seq<nat>, now: nat)
    requires IsRun(states, times) && (times != [] ==> Ending(states, times) == Running)
    ensures IsRun(states + [Poll(states[|times|], now).0], times + [now])
  {
    PollLaw(states[|times|], now);
    var states', times' := states + [Poll(states[|times|], now).0], times + [now];
    forall i | 0 <= i < |times'| ensures states'[i + 1] == Poll(states'[i], times'[i]).0 {
      if i < |times| {
        assert states'[i] == states[i] && states'[i + 1] == states[i + 1] && times'[i] == times[i];
      }
    }
    forall i | 0 <= i < |times'| - 1 ensures Poll(states'[i], times'[i]).1 == Running {
      assert states'[i] == states[i] && times'[i] == times[i];
    }
  }

  /** The polls so far form a run from s0 to s, and the last one was answered with the outcome. */
  ghost predicate Ran(states: seq<State>, times: seq<nat>, s0: State, s: State, outcome: Outcome) {
    && IsRun(states, times)
    && states[0] == s0
    && states[|times|] == s
    && outcome == if times == [] then Running else Ending(states, times)
  }

  lemma RanSnoc(states: seq<State>, times: seq<nat>, s0: State, s: State, now: nat)
    requires Ran(states, times, s0, s, Running)
    ensures Inv(s)
    ensures var (s', o) := Poll(s, now); Inv(s') && Ran(states + [s'], times + [now], s0, s', o)
  {
    RunSnoc(states, times, now);
    PollLaw(s, now);
    var states', times' := states + [Poll(s, now).0], times + [now];
    assert times'[|times'| - 1] == now && states'[|times'| - 1] == s;
  }

  lemma RanCounts(states: seq<State>, times: seq<nat>, s0: State, s: State, outcome: Outcome)
    requires Ran(states, times, s0, s, outcome) && Fresh(s0.up) && Fresh(s0.down)
    ensures s.up.amt == |Out(s.toOrigin)| - |Out(s0.toOrigin)|
    ensures s.down.amt == |Out(s.toClient)| - |Out(s0.toClient)|
  {
    RunConserves(states, times);
  }

  lemma RanCloses(states: seq<State>, times: seq<nat>, s0: State, s: State)
    requires Ran(states, times, s0, s, Completed) && Fresh(s0.up) && Fresh(s0.down) && |s0.up.buf| > 0 && |s0.down.buf| > 0
    ensures UpDrained(s0, s) && DownDrained(s0, s)
  {
    CompletedMeansDrained(states, times);
  }

  /** The timer of a new relay is set from its start, so the theorem about the idle timeout applies to the task. */
  lemma InitialIsTimed(client: Reader, toClient: Writer, origin: Reader, toOrigin: Writer,
                       timeout: nat, bufferSize: nat, suppress: bool, start: nat,
                       states: seq<State>, times: seq<nat>, s: State, outcome: Outcome)
    requires Ran(states, times, Initial(client, toClient, origin, toOrigin, timeout, bufferSize, suppress, start), s, outcome)
    requires Ordered(start, times) && times != []
    ensures outcome == IdleTimeout ==> start + timeout <= times[|times| - 1] && Quiet(states, times, start)
  {
    if outcome == IdleTimeout {
      EndingOutcome(states, times);
      TimeoutIffQuiet(states, times, start);
    }
  }

  method Credit(stats: Stats, upload: nat, download: nat) returns (stats': Stats)
    ensures stats' == Stats(stats.upload + upload, stats.download + download)
  {
    stats' := stats;
    if upload > 0 {
      stats' := stats'.(upload := stats'.upload + upload);
    }
    if download > 0 {
      stats' := stats'.(download := stats'.download + download);
    }
  }

  /** One run of the poll closure: both directions, then the timer, then the decision. */
  method PollOnce(up: DirectionalBuffer, down: DirectionalBuffer, s: State, now: nat)
    returns (s': State, outcome: Outcome)
    requires up != down && up.buf != down.buf && s.up == up.View() && s.down == down.View()
    requires DirInv(s.up) && DirInv(s.down) && ReaderInv(s.client) && ReaderInv(s.origin)
    modifies up, up.buf, down, down.buf
    ensures (s', outcome) == Poll(s, now)
    ensures s'.up == up.View() && s'.down == down.View()
  {
    var upBefore, downBefore := up.amt, down.amt;
    var client, toOrigin, p := up.PollCopy(s.client, s.toOrigin);
    s' := s.(up := up.View(), client := client, toOrigin := toOrigin);
    assert (s', p) == CopyUp(s);
    if p == DoneErr {
      return s', Failed;
    }
    ghost var s1 := s';
    var origin, toClient, q := down.PollCopy(s.origin, s.toClient);
    s' := s'.(down := down.View(), origin := origin, toClient := toClient);
    assert (s', q) == CopyDown(s1);
    if q == DoneErr {
      return s', Failed;
    }
    if up.amt > upBefore || down.amt > downBefore {
      s' := s'.(deadline := now + s.timeout);
    }
    if up.shutdownDone && down.shutdownDone {
      outcome := Completed;
    } else if now >= s'.deadline {
      outcome := IdleTimeout;
    } else {
      outcome := Running;
    }
  }

  /** Polls at the given instants until the relay ends or the instants run out; the polls form a run. */
  method PollUntilDone(up: DirectionalBuffer, down: DirectionalBuffer, s0: State, times: seq<nat>)
    returns (s: State, outcome: Outcome, polls: nat, ghost states: seq<State>)
    requires up != down && up.buf != down.buf
    requires Inv(s0) && s0.up == up.View() && s0.down == down.View()
    modifies up, up.buf, down, down.buf
    ensures polls <= |times| && (polls < |times| ==> outcome != Running)
    ensures Ran(states, times[..polls], s0, s, outcome)
    ensures s.up == up.View() && s.down == down.View()
  {
    outcome, polls, s := Running, 0, s0;
    states := [s0];
    while polls < |times| && outcome == Running
      invariant polls <= |times| && Inv(s) && Ran(states, times[..polls], s0, s, outcome)
      invariant s.up == up.View() && s.down == down.View()
      decreases |times| - polls
    {
      RanSnoc(states, times[..polls], s0, s, times[polls]);
      s, outcome := PollOnce(up, down, s, times[polls]);
      assert times[..polls + 1] == times[..polls] + [times[polls]];
      states := states + [s];
      polls := polls + 1;
    }
  }

  /**
   Polls the relay at the given instants until it ends. The polls form a run in the
   sense of `Relay`, and however the run ends the collector is credited with exactly
   the bytes each writer accepted.
   */
  method CopyBidirectionalWithStats(client: Reader, toClient: Writer, origin: Reader, toOrigin: Writer,
                                    timeout: nat, bufferSize: nat, suppress: bool,
                                    start: nat, times: seq<nat>, stats: Stats)
    returns (s: State, outcome: Outcome, polls: nat, stats': Stats, ghost states: seq<State>)
    requires ReaderInv(client) && ReaderInv(origin) && WriterInv(toClient) && WriterInv(toOrigin)
    ensures polls <= |times| && (polls < |times| ==> outcome != Running)
    ensures Ran(states, times[..polls],
                Initial(client, toClient, origin, toOrigin, timeout, bufferSize, suppress, start), s, outcome)
    ensures outcome == Running ==> stats' == stats
    ensures outcome != Running ==>
              && stats'.upload == stats.upload + |Out(s.toOrigin)| - |Out(toOrigin)|
              && stats'.download == stats.download + |Out(s.toClient)| - |Out(toClient)|
    ensures outcome == Completed && bufferSize > 0 ==>
              && ClosedOnce(WriterView(toClient), WriterView(s.toClient))
              && if suppress then StillOpen(WriterView(toOrigin), WriterView(s.toOrigin))
                 else ClosedOnce(WriterView(toOrigin), WriterView(s.toOrigin))
  {
    var up := new DirectionalBuffer(bufferSize, suppress);
    var down := new DirectionalBuffer(bufferSize, false);
    var s0 := Initial(client, toClient, origin, toOrigin, timeout, bufferSize, suppress, start);
    s, outcome, polls, states := PollUntilDone(up, down, s0, times);
    RanCounts(states, times[..polls], s0, s, outcome);
    if outcome == Completed && bufferSize > 0 {
      RanCloses(states, times[..polls], s0, s);
    }
    stats' := stats;
    if outcome != Running {
      stats' := Credit(stats, up.amt, down.amt);
    }
  }
}
