/**
 The bidirectional relay as a timed state machine. Each poll copies in both
 directions, rearms the idle timer when a byte moved, and then decides: completed,
 timed out, failed, or still running.

 A run is any sequence of polls at non-decreasing instants. The theorems hold for
 every run over every pair of streams and every schedule of partial progress.
 */
module Relay {
  import opened Polls
  import opened Halves
  import opened Copying

  /** `up` carries client to origin, `down` carries origin to client. */
  datatype State = State(client: Reader, toClient: Writer, origin: Reader, toOrigin: Writer,
                         up: Dir, down: Dir, deadline: nat, timeout: nat)

  datatype Outcome = Running | Completed | IdleTimeout | Failed

  ghost predicate Inv(s: State) {
    && DirInv(s.up) && DirInv(s.down)
    && ReaderInv(s.client) && ReaderInv(s.origin)
    && WriterInv(s.toClient) && WriterInv(s.toOrigin)
  }

  function CopyUp(s: State): (State, DonePoll)
    requires DirInv(s.up) && ReaderInv(s.client)
  {
    var c := PollCopy(s.up, s.client, s.toOrigin);
    (s.(up := c.d, client := c.r, toOrigin := c.w), c.p)
  }

  function CopyDown(s: State): (State, DonePoll)
    requires DirInv(s.down) && ReaderInv(s.origin)
  {
    var c := PollCopy(s.down, s.origin, s.toClient);
    (s.(down := c.d, origin := c.r, toClient := c.w), c.p)
  }

  function Rearm(s: State, moved: bool, now: nat): State {
    if moved then s.(deadline := now + s.timeout) else s
  }

  function Decide(s: State, now: nat): Outcome {
    if s.up.shutdownDone && s.down.shutdownDone then Completed
    else if now >= s.deadline then IdleTimeout
    else Running
  }

  /** One poll of the relay future at the instant now. */
  function Poll(s: State, now: nat): (State, Outcome)
    requires DirInv(s.up) && DirInv(s.down) && ReaderInv(s.client) && ReaderInv(s.origin)
  {
    var (s1, p) := CopyUp(s);
    if p.DoneErr? then (s1, Failed)
    else
      var (s2, q) := CopyDown(s1);
      if q.DoneErr? then (s2, Failed)
      else
        var s3 := Rearm(s2, s2.up.amt > s.up.amt || s2.down.amt > s.down.amt, now);
        (s3, Decide(s3, now))
  }

  /** Bytes that writer has accepted. */
  function Out(w: Writer): seq<Byte> {
    WriterView(w).out
  }

  /** A byte was accepted by either writer between the two states. */
  predicate Moved(s: State, s': State) {
    Out(s'.toOrigin) != Out(s.toOrigin) || Out(s'.toClient) != Out(s.toClient)
  }

  /** What holds between any two states of one direction of a run. */
  ghost predicate DirLaw(d: Dir, rv: ReadView, wv: WriteView, d': Dir, rv': ReadView, wv': WriteView)
    requires DirInv(d)
  {
    && Carries(d, rv, wv, d', rv', wv')
    && ShutsOnce(d, wv, d', wv')
    && (d.shutdownDone ==> d' == d && rv' == rv && wv' == wv)
  }

  ghost predicate UpLaw(s: State, s': State)
    requires DirInv(s.up)
  {
    DirLaw(s.up, ReaderView(s.client), WriterView(s.toOrigin), s'.up, ReaderView(s'.client), WriterView(s'.toOrigin))
  }

  ghost predicate DownLaw(s: State, s': State)
    requires DirInv(s.down)
  {
    DirLaw(s.down, ReaderView(s.origin), WriterView(s.toClient), s'.down, ReaderView(s'.origin), WriterView(s'.toClient))
  }

  ghost predicate SameShape(s: State, s': State) {
    && s'.timeout == s.timeout
    && s'.client.PaddedIn? == s.client.PaddedIn? && s'.toClient.PaddedOut? == s.toClient.PaddedOut?
    && s'.origin.PaddedIn? == s.origin.PaddedIn? && s'.toOrigin.PaddedOut? == s.toOrigin.PaddedOut?
  }

  ghost predicate RelayLaw(s: State, s': State)
    requires Inv(s)
  {
    Inv(s') && SameShape(s, s') && UpLaw(s, s') && DownLaw(s, s')
  }

  lemma DirLawRefl(d: Dir, rv: ReadView, wv: WriteView)
    requires DirInv(d)
    ensures DirLaw(d, rv, wv, d, rv, wv)
  {
  }

  lemma DirLawTrans(d: Dir, rv: ReadView, wv: WriteView, d': Dir, rv': ReadView, wv': WriteView,
                    d'': Dir, rv'': ReadView, wv'': WriteView)
    requires DirInv(d) && DirLaw(d, rv, wv, d', rv', wv') && DirLaw(d', rv', wv', d'', rv'', wv'')
    ensures DirLaw(d, rv, wv, d'', rv'', wv'')
  {
  }

  lemma RelayLawTrans(s: State, s': State, s'': State)
    requires Inv(s) && RelayLaw(s, s') && RelayLaw(s', s'')
    ensures RelayLaw(s, s'')
  {
    DirLawTrans(s.up, ReaderView(s.client), WriterView(s.toOrigin),
                s'.up, ReaderView(s'.client), WriterView(s'.toOrigin),
                s''.up, ReaderView(s''.client), WriterView(s''.toOrigin));
    DirLawTrans(s.down, ReaderView(s.origin), WriterView(s.toClient),
                s'.down, ReaderView(s'.origin), WriterView(s'.toClient),
                s''.down, ReaderView(s''.origin), WriterView(s''.toClient));
  }

  lemma CopyUpLaw(s: State)
    requires Inv(s)
    ensures RelayLaw(s, CopyUp(s).0)
  {
    PollCopyLaw(s.up, s.client, s.toOrigin);
    DirLawRefl(s.down, ReaderView(s.origin), WriterView(s.toClient));
  }

  lemma CopyDownLaw(s: State)
    requires Inv(s)
    ensures RelayLaw(s, CopyDown(s).0)
  {
    PollCopyLaw(s.down, s.origin, s.toClient);
    DirLawRefl(s.up, ReaderView(s.client), WriterView(s.toOrigin));
  }

  lemma CopiesLaw(s: State)
    requires Inv(s)
    ensures Inv(CopyUp(s).0) && RelayLaw(s, CopyDown(CopyUp(s).0).0)
  {
    CopyUpLaw(s);
    CopyDownLaw(CopyUp(s).0);
    RelayLawTrans(s, CopyUp(s).0, CopyDown(CopyUp(s).0).0);
  }

  lemma RearmLaw(s: State, s': State, moved: bool, now: nat)
    requires Inv(s) && RelayLaw(s, s')
    ensures RelayLaw(s, Rearm(s', moved, now))
  {
  }

  /** Conservation, exact counting and shutdown order hold across every poll, however it ends. */
  lemma PollLaw(s: State, now: nat)
    requires Inv(s)
    ensures RelayLaw(s, Poll(s, now).0)
  {
    CopyUpLaw(s);
    var s1 := CopyUp(s).0;
    CopiesLaw(s);
    var s2 := CopyDown(s1).0;
    RearmLaw(s, s2, s2.up.amt > s.up.amt || s2.down.amt > s.down.amt, now);
  }

  /** A byte moved exactly when one of the counters that the timer looks at grew. */
  lemma MovedIsCounted(s: State, s': State)
    requires Inv(s) && RelayLaw(s, s')
    ensures Moved(s, s') <==> s'.up.amt > s.up.amt || s'.down.amt > s.down.amt
    ensures s'.up.amt - s.up.amt == |Out(s'.toOrigin)| - |Out(s.toOrigin)|
    ensures s'.down.amt - s.down.amt == |Out(s'.toClient)| - |Out(s.toClient)|
  {
  }

  /** A run: consecutive states, one poll each, all but the last answered Running. */
  ghost predicate IsRun(states: seq<State>, times: seq<nat>) {
    && |states| == |times| + 1
    && (forall i :: 0 <= i < |states| ==> Inv(states[i]))
    && (forall i :: 0 <= i < |times| ==> states[i + 1] == Poll(states[i], times[i]).0)
    && (forall i :: 0 <= i < |times| - 1 ==> Poll(states[i], times[i]).1 == Running)
  }

  /** How a run of at least one poll ended. */
  function Ending(states: seq<State>, times: seq<nat>): Outcome
    requires |states| == |times| + 1 && times != []
    requires var s := states[|times| - 1];
             DirInv(s.up) && DirInv(s.down) && ReaderInv(s.client) && ReaderInv(s.origin)
  {
    Poll(states[|times| - 1], times[|times| - 1]).1
  }

  /** Consecutive states obey the relay law. */
  ghost predicate Chained(states: seq<State>) {
    && (forall i :: 0 <= i < |states| ==> Inv(states[i]))
    && (forall i :: 0 < i < |states| ==> RelayLaw(states[i - 1], states[i]))
  }

  lemma RunIsChained(states: seq<State>, times: seq<nat>)
    requires IsRun(states, times)
    ensures Chained(states)
  {
    forall i | 0 < i < |states| ensures RelayLaw(states[i - 1], states[i]) {
      PollLaw(states[i - 1], times[i - 1]);
      assert states[i - 1 + 1] == Poll(states[i - 1], times[i - 1]).0;
    }
  }

  lemma {:induction false} ChainLaw(states: seq<State>, i: nat, j: nat)
    requires Chained(states) && i <= j < |states|
    ensures RelayLaw(states[i], states[j])
    decreases j - i
  {
    if i == j {
      DirLawRefl(states[i].up, ReaderView(states[i].client), WriterView(states[i].toOrigin));
      DirLawRefl(states[i].down, ReaderView(states[i].origin), WriterView(states[i].toClient));
    } else {
      ChainLaw(states, i, j - 1);
      RelayLawTrans(states[i], states[j - 1], states[j]);
    }
  }

  /** Between any two states of a run nothing is lost, and nothing happens after a shutdown completed. */
  lemma RunLaw(states: seq<State>, times: seq<nat>, i: nat, j: nat)
    requires IsRun(states, times) && i <= j < |states|
    ensures RelayLaw(states[i], states[j])
  {
    RunIsChained(states, times);
    ChainLaw(states, i, j);
  }

  predicate Fresh(d: Dir) {
    d.pos == 0 && d.cap == 0 && d.amt == 0 && !d.readDone && !d.shutdownDone
  }

  /**
   Every state of every run, however it ends: the counters are exactly the bytes each
   writer accepted since the start, and accepted, held and unread bytes together are
   what the reader had to offer.
   */
  lemma RunConserves(states: seq<State>, times: seq<nat>)
    requires IsRun(states, times) && Fresh(states[0].up) && Fresh(states[0].down)
    ensures var s, s' := states[0], states[|times|];
            && Out(s'.toOrigin) + Held(s'.up) + Rest(s'.client) == Out(s.toOrigin) + Rest(s.client)
            && Out(s'.toClient) + Held(s'.down) + Rest(s'.origin) == Out(s.toClient) + Rest(s.origin)
            && s'.up.amt == |Out(s'.toOrigin)| - |Out(s.toOrigin)|
            && s'.down.amt == |Out(s'.toClient)| - |Out(s.toClient)|
  {
    var s := states[0];
    RunLaw(states, times, 0, |times|);
    assert Out(s.toOrigin) + [] == Out(s.toOrigin);
    assert Out(s.toClient) + [] == Out(s.toClient);
  }

  /**
   A completed run has drained both directions and shut each unsuppressed writer down
   exactly once. Unless a reader failed, it has delivered everything.
   */
  lemma CompletedMeansDrained(states: seq<State>, times: seq<nat>)
    requires IsRun(states, times) && Fresh(states[0].up) && Fresh(states[0].down)
    requires |states[0].up.buf| > 0 && |states[0].down.buf| > 0
    requires times != [] && Ending(states, times) == Completed
    ensures UpDrained(states[0], states[|times|]) && DownDrained(states[0], states[|times|])
  {
    RunLaw(states, times, 0, |times|);
    var s, s' := states[0], states[|times|];
    assert s'.up.shutdownDone && s'.down.shutdownDone;
    DrainedPair(s, s');
  }

  /** All bytes read were accepted, shutdown completed once unless suppressed, and a reader that did not fail is exhausted. */
  ghost predicate UpDrained(s: State, s': State) {
    && Out(s'.toOrigin) + Rest(s'.client) == Out(s.toOrigin) + Rest(s.client)
    && (s'.client.src.fails == s.client.src.fails ==> Rest(s'.client) == [])
    && if s.up.suppress then StillOpen(WriterView(s.toOrigin), WriterView(s'.toOrigin))
       else ClosedOnce(WriterView(s.toOrigin), WriterView(s'.toOrigin))
  }

  ghost predicate DownDrained(s: State, s': State) {
    && Out(s'.toClient) + Rest(s'.origin) == Out(s.toClient) + Rest(s.origin)
    && (s'.origin.src.fails == s.origin.src.fails ==> Rest(s'.origin) == [])
    && if s.down.suppress then StillOpen(WriterView(s.toClient), WriterView(s'.toClient))
       else ClosedOnce(WriterView(s.toClient), WriterView(s'.toClient))
  }

  lemma DrainedDir(d: Dir, rv: ReadView, wv: WriteView, d': Dir, rv': ReadView, wv': WriteView)
    requires DirInv(d) && Fresh(d) && |d.buf| > 0 && DirLaw(d, rv, wv, d', rv', wv') && d'.shutdownDone
    ensures wv'.out + rv'.rest == wv.out + rv.rest
    ensures rv'.fails == rv.fails ==> rv'.rest == []
    ensures if d.suppress then StillOpen(wv, wv') else ClosedOnce(wv, wv')
  {
    assert wv.out + [] == wv.out;
    assert wv'.out + [] == wv'.out;
  }

  lemma DrainedPair(s: State, s': State)
    requires Inv(s) && RelayLaw(s, s') && Fresh(s.up) && Fresh(s.down) && |s.up.buf| > 0 && |s.down.buf| > 0
    requires s'.up.shutdownDone && s'.down.shutdownDone
    ensures UpDrained(s, s') && DownDrained(s, s')
  {
    DrainedDir(s.up, ReaderView(s.client), WriterView(s.toOrigin), s'.up, ReaderView(s'.client), WriterView(s'.toOrigin));
    DrainedDir(s.down, ReaderView(s.origin), WriterView(s.toClient), s'.down, ReaderView(s'.origin), WriterView(s'.toClient));
  }

  /** In this poll a read error was swallowed while the reader still had bytes: nothing else loses data. */
  predicate ClientCut(s: State, s': State) {
    s.client.src.fails < s'.client.src.fails && Rest(s'.client) != []
  }

  predicate OriginCut(s: State, s': State) {
    s.origin.src.fails < s'.origin.src.fails && Rest(s'.origin) != []
  }

  /** Having swallowed an error, a direction reads no more. */
  lemma PollSwallows(s: State, now: nat)
    requires Inv(s) && Poll(s, now).1 != Failed
    ensures var s' := Poll(s, now).0;
            && (s.client.src.fails < s'.client.src.fails ==> s'.up.readDone)
            && (s.origin.src.fails < s'.origin.src.fails ==> s'.down.readDone)
  {
    PollCopyLaw(s.up, s.client, s.toOrigin);
    PollCopyLaw(s.down, s.origin, s.toClient);
  }

  /** A quantity that grew from first to last grew at some step. */
  lemma {:induction false} GrewSomewhere(counts: seq<nat>) returns (i: nat)
    requires counts != [] && counts[0] < counts[|counts| - 1]
    ensures i + 1 < |counts| && counts[i] < counts[i + 1]
    decreases |counts|
  {
    var n := |counts| - 1;
    if counts[n - 1] < counts[n] {
      i := n - 1;
    } else {
      i := GrewSomewhere(counts[..n]);
    }
  }

  /** After a poll that swallowed an error, the reader of that direction is left as it is. */
  lemma SwallowedIsFinal(states: seq<State>, times: seq<nat>, i: nat)
    requires IsRun(states, times) && times != [] && Ending(states, times) != Failed && i < |times|
    ensures states[i].client.src.fails < states[i + 1].client.src.fails ==>
              Rest(states[|times|].client) == Rest(states[i + 1].client)
    ensures states[i].origin.src.fails < states[i + 1].origin.src.fails ==>
              Rest(states[|times|].origin) == Rest(states[i + 1].origin)
  {
    PollSwallows(states[i], times[i]);
    RunLaw(states, times, i + 1, |times|);
  }

  /**
   Exactly when a completed relay has not delivered everything: in some poll the read of
   that direction failed while bytes were left, and the failure was taken for the end.
   */
  lemma CompletedShortIff(states: seq<State>, times: seq<nat>)
    requires IsRun(states, times) && Fresh(states[0].up) && Fresh(states[0].down)
    requires |states[0].up.buf| > 0 && |states[0].down.buf| > 0
    requires times != [] && Ending(states, times) == Completed
    ensures Rest(states[|times|].client) != [] <==> exists i :: 0 <= i < |times| && ClientCut(states[i], states[i + 1])
    ensures Rest(states[|times|].origin) != [] <==> exists i :: 0 <= i < |times| && OriginCut(states[i], states[i + 1])
  {
    forall i | 0 <= i < |times|
      ensures ClientCut(states[i], states[i + 1]) ==> Rest(states[|times|].client) != []
      ensures OriginCut(states[i], states[i + 1]) ==> Rest(states[|times|].origin) != []
    {
      SwallowedIsFinal(states, times, i);
    }
    if Rest(states[|times|].client) != [] {
      var i := ClientWasCut(states, times);
    }
    if Rest(states[|times|].origin) != [] {
      var i := OriginWasCut(states, times);
    }
  }

  lemma ClientWasCut(states: seq<State>, times: seq<nat>) returns (i: nat)
    requires IsRun(states, times) && Fresh(states[0].up) && Fresh(states[0].down)
    requires |states[0].up.buf| > 0 && |states[0].down.buf| > 0
    requires times != [] && Ending(states, times) == Completed && Rest(states[|times|].client) != []
    ensures i < |times| && ClientCut(states[i], states[i + 1])
  {
    CompletedMeansDrained(states, times);
    RunLaw(states, times, 0, |times|);
    var counts := seq(|states|, i requires 0 <= i < |states| => states[i].client.src.fails);
    i := GrewSomewhere(counts);
    SwallowedIsFinal(states, times, i);
  }

  lemma OriginWasCut(states: seq<State>, times: seq<nat>) returns (i: nat)
    requires IsRun(states, times) && Fresh(states[0].up) && Fresh(states[0].down)
    requires |states[0].up.buf| > 0 && |states[0].down.buf| > 0
    requires times != [] && Ending(states, times) == Completed && Rest(states[|times|].origin) != []
    ensures i < |times| && OriginCut(states[i], states[i + 1])
  {
    CompletedMeansDrained(states, times);
    RunLaw(states, times, 0, |times|);
    var counts := seq(|states|, i requires 0 <= i < |states| => states[i].origin.src.fails);
    i := GrewSomewhere(counts);
    SwallowedIsFinal(states, times, i);
  }

  lemma PollTellsAll(s: State, now: nat)
    requires Inv(s) && Poll(s, now).1 != Failed
    ensures SameUntold(s, Poll(s, now).0)
  {
    PollCopyLaw(s.up, s.client, s.toOrigin);
    PollCopyLaw(s.down, s.origin, s.toClient);
  }

  /** The two states agree on how many bytes were committed unannounced. */
  predicate SameUntold(s: State, s': State) {
    && WriterView(s'.toClient).tail.untold == WriterView(s.toClient).tail.untold
    && WriterView(s'.toOrigin).tail.untold == WriterView(s.toOrigin).tail.untold
  }

  lemma {:induction false} UntoldChain(states: seq<State>, k: nat)
    requires k < |states| && forall i :: 0 < i < |states| ==> SameUntold(states[i - 1], states[i])
    ensures SameUntold(states[0], states[k])
  {
    if k > 0 {
      UntoldChain(states, k - 1);
      assert SameUntold(states[k - 1], states[k]);
    }
  }

  /** As long as a run has not failed, no writer committed to bytes without telling the relay. */
  lemma RunTellsAll(states: seq<State>, times: seq<nat>)
    requires IsRun(states, times) && times != [] && Ending(states, times) != Failed
    ensures SameUntold(states[0], states[|times|])
  {
    forall i | 0 < i < |states| ensures SameUntold(states[i - 1], states[i]) {
      assert states[i - 1 + 1] == Poll(states[i - 1], times[i - 1]).0;
      PollTellsAll(states[i - 1], times[i - 1]);
    }
    UntoldChain(states, |times|);
  }

  /**
   Half-close order over whole runs. In every state, a writer has completed a shutdown
   only if its direction saw end of stream, holds nothing and is not suppressed; from
   then on that writer is frozen, so no write and no second shutdown can follow.
   */
  lemma ShutdownIsLast(states: seq<State>, times: seq<nat>, i: nat, j: nat)
    requires IsRun(states, times) && Fresh(states[0].up) && Fresh(states[0].down) && i <= j < |states|
    ensures WriterView(states[i].toOrigin).shuts != WriterView(states[0].toOrigin).shuts ==>
              && states[i].up.readDone && Held(states[i].up) == [] && !states[i].up.suppress
              && |WriterView(states[i].toOrigin).shuts| == |WriterView(states[0].toOrigin).shuts| + 1
              && WriterView(states[j].toOrigin) == WriterView(states[i].toOrigin)
    ensures WriterView(states[i].toClient).shuts != WriterView(states[0].toClient).shuts ==>
              && states[i].down.readDone && Held(states[i].down) == [] && !states[i].down.suppress
              && |WriterView(states[i].toClient).shuts| == |WriterView(states[0].toClient).shuts| + 1
              && WriterView(states[j].toClient) == WriterView(states[i].toClient)
  {
    RunLaw(states, times, 0, i);
    RunLaw(states, times, i, j);
  }

  /** The direction was left waiting for a stream that kept its waker: the writer if there is something to write. */
  predicate Awaits(d: Dir, r: Reader, w: Writer, r': Reader, w': Writer) {
    if d.pos < d.cap || d.readDone then w.sink.stalls < w'.sink.stalls else r.src.stalls < r'.src.stalls
  }

  /**
   A relay that goes on waiting has, for every unfinished direction, left a waker with the
   very stream that direction is waiting for. A flush that was not ready cannot stand in
   for a reader.
   */
  lemma RunningHasWaker(s: State, now: nat)
    requires Inv(s) && Poll(s, now).1 == Running
    ensures var s' := Poll(s, now).0;
            && now < s'.deadline
            && (!s'.up.shutdownDone ==> Awaits(s'.up, s.client, s.toOrigin, s'.client, s'.toOrigin))
            && (!s'.down.shutdownDone ==> Awaits(s'.down, s.origin, s.toClient, s'.origin, s'.toClient))
  {
    PollCopyLaw(s.up, s.client, s.toOrigin);
    PollCopyLaw(s.down, s.origin, s.toClient);
  }

  // ── The idle timer ──────────────────────────────────────────────────────

  predicate Ordered(start: nat, times: seq<nat>) {
    && (times != [] ==> start <= times[0])
    && (forall i, j :: 0 <= i < j < |times| ==> times[i] <= times[j])
  }

  /** No byte has moved within the timeout before the last poll, and the relay is at least that old. */
  predicate Quiet(states: seq<State>, times: seq<nat>, start: nat)
    requires |states| == |times| + 1 && times != []
  {
    var last, timeout := times[|times| - 1], states[0].timeout;
    && start + timeout <= last
    && (forall i :: 0 <= i < |times| && Moved(states[i], states[i + 1]) ==> times[i] + timeout <= last)
  }

  /** Between the two states something failed that has to end the relay. */
  predicate UpBroke(s: State, s': State) {
    Broke(ReaderView(s.client), WriterView(s.toOrigin), s'.up, ReaderView(s'.client), WriterView(s'.toOrigin))
  }

  predicate DownBroke(s: State, s': State) {
    Broke(ReaderView(s.origin), WriterView(s.toClient), s'.down, ReaderView(s'.origin), WriterView(s'.toClient))
  }

  /**
   What each answer of a poll means. It is Failed exactly if a stream failed in a way that
   has to end the relay, and a failed upload leaves the download alone; otherwise it is
   Completed exactly if both directions are finished, and only then is the timer looked at.
   */
  lemma PollOutcome(s: State, now: nat)
    requires Inv(s)
    ensures var (s', o) := Poll(s, now);
            && (o == Failed <==> UpBroke(s, s') || DownBroke(s, s'))
            && (UpBroke(s, s') ==> s'.down == s.down && s'.origin == s.origin && s'.toClient == s.toClient)
            && (o == Failed ==> s'.deadline == s.deadline)
            && (o == Completed <==> o != Failed && s'.up.shutdownDone && s'.down.shutdownDone)
            && (o == IdleTimeout <==> o != Failed && o != Completed && s'.deadline <= now)
  {
    var (s1, p) := CopyUp(s);
    PollCopyLaw(s.up, s.client, s.toOrigin);
    PollCopyLaw(s.down, s.origin, s.toClient);
    if p.DoneErr? {
      assert !DownBroke(s, s1);
    }
  }

  lemma PollDeadline(s: State, now: nat)
    requires Inv(s)
    ensures var (s', o) := Poll(s, now);
            o != Failed ==> s'.deadline == (if Moved(s, s') then now + s.timeout else s.deadline) && s'.timeout == s.timeout
  {
    var (s', o) := Poll(s, now);
    PollLaw(s, now);
    MovedIsCounted(s, s');
  }

  /** A timer that is rearmed at some of the given instants. */
  ghost predicate IsTimer(deadlines: seq<nat>, rearmed: seq<bool>, times: seq<nat>, timeout: nat) {
    && |deadlines| == |times| + 1 && |rearmed| == |times|
    && (forall i :: 0 <= i < |times| ==> deadlines[i + 1] == if rearmed[i] then times[i] + timeout else deadlines[i])
  }

  /** The deadline is one timeout after the last rearming, or after the start. */
  lemma {:induction false} TimerTracks(deadlines: seq<nat>, rearmed: seq<bool>, times: seq<nat>,
                                       start: nat, timeout: nat, k: nat)
    requires IsTimer(deadlines, rearmed, times, timeout) && Ordered(start, times) && k <= |times|
    requires deadlines[0] == start + timeout
    ensures start + timeout <= deadlines[k]
    ensures k > 0 ==> deadlines[k] <= times[k - 1] + timeout
    ensures forall i :: 0 <= i < k && rearmed[i] ==> times[i] + timeout <= deadlines[k]
    ensures deadlines[k] == start + timeout || exists i :: 0 <= i < k && rearmed[i] && deadlines[k] == times[i] + timeout
  {
    if k > 0 {
      TimerTracks(deadlines, rearmed, times, start, timeout, k - 1);
      assert deadlines[k - 1 + 1] == deadlines[k];
    }
  }

  /** The poll from states[i] to states[i + 1] rearmed the timer exactly if it moved a byte. */
  ghost predicate RearmedByProgress(states: seq<State>, times: seq<nat>, i: nat)
    requires i < |times| && |states| == |times| + 1
  {
    states[i + 1].deadline ==
    if Moved(states[i], states[i + 1]) then times[i] + states[0].timeout else states[i].deadline
  }

  lemma RunDeadline(states: seq<State>, times: seq<nat>, i: nat)
    requires IsRun(states, times) && i < |times| && Ending(states, times) != Failed
    ensures RearmedByProgress(states, times, i)
  {
    RunLaw(states, times, 0, i);
    PollDeadline(states[i], times[i]);
  }

  /** Which polls moved a byte. */
  function MovedFlags(states: seq<State>): (flags: seq<bool>)
    requires states != []
    ensures |flags| == |states| - 1
    ensures forall i :: 0 <= i < |flags| ==> flags[i] == Moved(states[i], states[i + 1])
    decreases |states|
  {
    var n := |states| - 1;
    if n == 0 then [] else MovedFlags(states[..n]) + [Moved(states[n - 1], states[n])]
  }

  lemma TimerOf(states: seq<State>, times: seq<nat>, rearmed: seq<bool>) returns (deadlines: seq<nat>)
    requires |states| == |times| + 1 && |rearmed| == |times|
    requires forall i :: 0 <= i < |times| ==>
               states[i + 1].deadline == if rearmed[i] then times[i] + states[0].timeout else states[i].deadline
    ensures IsTimer(deadlines, rearmed, times, states[0].timeout)
    ensures deadlines[0] == states[0].deadline && deadlines[|times|] == states[|times|].deadline
  {
    deadlines := seq(|states|, i requires 0 <= i < |states| => states[i].deadline);
  }

  lemma RunTimer(states: seq<State>, times: seq<nat>) returns (deadlines: seq<nat>, rearmed: seq<bool>)
    requires IsRun(states, times)
    requires times != [] && Ending(states, times) != Failed
    ensures IsTimer(deadlines, rearmed, times, states[0].timeout)
    ensures forall i :: 0 <= i < |times| ==> rearmed[i] == Moved(states[i], states[i + 1])
    ensures deadlines[0] == states[0].deadline && deadlines[|times|] == states[|times|].deadline
  {
    rearmed := MovedFlags(states);
    forall i | 0 <= i < |times|
      ensures states[i + 1].deadline == if rearmed[i] then times[i] + states[0].timeout else states[i].deadline
    {
      RunDeadline(states, times, i);
    }
    deadlines := TimerOf(states, times, rearmed);
  }

  /**
   Unless a stream broke in the last poll, the idle timeout ends a run exactly when no byte
   moved in either direction for a full timeout and completion did not come first. It does not matter whether a
   side is half-closed, and completion at the same instant wins.
   */
  lemma TimeoutIffQuiet(states: seq<State>, times: seq<nat>, start: nat)
    requires IsRun(states, times) && Ordered(start, times) && times != []
    requires states[0].deadline == start + states[0].timeout
    requires !UpBroke(states[|times| - 1], states[|times|]) && !DownBroke(states[|times| - 1], states[|times|])
    ensures Ending(states, times) == IdleTimeout <==>
              && Quiet(states, times, start)
              && !(states[|times|].up.shutdownDone && states[|times|].down.shutdownDone)
  {
    var n, timeout := |times|, states[0].timeout;
    EndingOutcome(states, times);
    var deadlines, rearmed := RunTimer(states, times);
    TimerTracks(deadlines, rearmed, times, start, timeout, n);
    assert Ending(states, times) == Decide(states[n], times[n - 1]);
    QuietIffDue(states, times, start, deadlines, rearmed);
  }

  /** A run ends Failed exactly if a stream broke in its last poll. */
  lemma EndingOutcome(states: seq<State>, times: seq<nat>)
    requires IsRun(states, times) && times != []
    ensures var s, s' := states[|times| - 1], states[|times|];
            Ending(states, times) == Failed <==> UpBroke(s, s') || DownBroke(s, s')
  {
    var n := |times|;
    assert states[n - 1 + 1] == Poll(states[n - 1], times[n - 1]).0;
    PollOutcome(states[n - 1], times[n - 1]);
  }

  lemma QuietIffDue(states: seq<State>, times: seq<nat>, start: nat, deadlines: seq<nat>, rearmed: seq<bool>)
    requires |states| == |times| + 1 && times != [] && |rearmed| == |times| && |deadlines| == |times| + 1
    requires forall i :: 0 <= i < |times| ==> rearmed[i] == Moved(states[i], states[i + 1])
    requires start + states[0].timeout <= deadlines[|times|]
    requires forall i :: 0 <= i < |times| && rearmed[i] ==> times[i] + states[0].timeout <= deadlines[|times|]
    requires || deadlines[|times|] == start + states[0].timeout
             || exists i :: 0 <= i < |times| && rearmed[i] && deadlines[|times|] == times[i] + states[0].timeout
    ensures Quiet(states, times, start) <==> deadlines[|times|] <= times[|times| - 1]
  {
    var n, timeout := |times|, states[0].timeout;
    if Quiet(states, times, start) && deadlines[n] != start + timeout {
      var i :| 0 <= i < n && rearmed[i] && deadlines[n] == times[i] + timeout;
      assert Moved(states[i], states[i + 1]);
    }
  }

  /** With a timeout of at least one tick, a poll that moved a byte never ends in a timeout. */
  lemma ProgressPreventsTimeout(states: seq<State>, times: seq<nat>, start: nat)
    requires IsRun(states, times) && Ordered(start, times) && times != []
    requires states[0].deadline == start + states[0].timeout && states[0].timeout > 0
    requires exists i :: 0 <= i < |times| && Moved(states[i], states[i + 1])
                         && times[|times| - 1] < times[i] + states[0].timeout
    ensures Ending(states, times) != IdleTimeout
  {
    if Ending(states, times) == IdleTimeout {
      EndingOutcome(states, times);
      TimeoutIffQuiet(states, times, start);
      assert false;
    }
  }

  /** Without buffer space a direction takes its first empty read for end of stream, so it carries nothing at all. */
  lemma EmptyBufferCarriesNothing(d: Dir, r: Reader, w: Writer)
    requires DirInv(d) && |d.buf| == 0 && ReaderInv(r) && WriterInv(w)
    ensures var c := PollCopy(d, r, w); Out(c.w) == Out(w) && Rest(c.r) == Rest(r)
  {
    if !d.shutdownDone {
      EmptyBufferLoop(d, r, w);
    }
  }

  lemma {:induction false} EmptyBufferLoop(d: Dir, r: Reader, w: Writer)
    requires DirInv(d) && |d.buf| == 0 && ReaderInv(r) && WriterInv(w) && !d.shutdownDone
    ensures var c := CopyLoop(d, r, w); Out(c.w) == Out(w) && Rest(c.r) == Rest(r)
    decreases !d.readDone
  {
    WriterFlushLaw(w);
    var (w', f) := Flush(w);
    if d.readDone {
      WriterShutdownLaw(w');
    } else {
      ReaderLaw(r, 0);
      var (r', p) := Read(r, 0);
      if !f.DoneErr? && p.ReadOk? {
        EmptyBufferLoop(d.(readDone := true), r', w');
      }
    }
  }

  /** A direction without buffer space has neither delivered nor read a byte. */
  predicate Untouched(s: State, s': State) {
    && |s'.up.buf| == |s.up.buf| && |s'.down.buf| == |s.down.buf|
    && (|s.up.buf| == 0 ==> Out(s'.toOrigin) == Out(s.toOrigin) && Rest(s'.client) == Rest(s.client))
    && (|s.down.buf| == 0 ==> Out(s'.toClient) == Out(s.toClient) && Rest(s'.origin) == Rest(s.origin))
  }

  lemma EmptyBufferPoll(s: State, now: nat)
    requires Inv(s)
    ensures Untouched(s, Poll(s, now).0)
  {
    PollLaw(s, now);
    if |s.up.buf| == 0 {
      EmptyBufferCarriesNothing(s.up, s.client, s.toOrigin);
    }
    if |s.down.buf| == 0 {
      EmptyBufferCarriesNothing(s.down, s.origin, s.toClient);
    }
  }

  lemma {:induction false} EmptyBufferChain(states: seq<State>, k: nat)
    requires k < |states| && forall i :: 0 < i < |states| ==> Untouched(states[i - 1], states[i])
    ensures Untouched(states[0], states[k])
  {
    if k > 0 {
      EmptyBufferChain(states, k - 1);
      assert Untouched(states[k - 1], states[k]);
    }
  }

  /** Over whole runs: a direction without buffer space has delivered everything exactly if there was nothing to deliver. */
  lemma EmptyBufferRun(states: seq<State>, times: seq<nat>)
    requires IsRun(states, times)
    ensures var s, s' := states[0], states[|times|];
            && Untouched(s, s')
            && (|s.up.buf| == 0 ==> (Out(s'.toOrigin) == Out(s.toOrigin) + Rest(s.client) <==> Rest(s.client) == []))
            && (|s.down.buf| == 0 ==> (Out(s'.toClient) == Out(s.toClient) + Rest(s.origin) <==> Rest(s.origin) == []))
  {
    forall i | 0 < i < |states| ensures Untouched(states[i - 1], states[i]) {
      EmptyBufferPoll(states[i - 1], times[i - 1]);
      assert states[i - 1 + 1] == Poll(states[i - 1], times[i - 1]).0;
    }
    EmptyBufferChain(states, |times|);
  }
}
