/**
 The two loops of `handle_uot_stream` as interleaved state machines. The input loop
 ends on a read, resolve or send error; the output loop ends on a receive or write
 error; either ends when it sees one of the two tokens. The output loop does not look
 at the tokens while it writes a packet, and shuts the write half down once it has left
 its loop.
 */
module UotLoops {
  import opened Polls
  import opened UotCodec

  datatype Input = Reading | InputDone

  datatype Output = Receiving | Writing(packet: Packet) | Closing | OutputDone

  /** `wire` is what the client was sent, `frag` the part of it that belongs to an unfinished packet. */
  datatype State = State(cancel: bool, inner: bool, input: Input, output: Output,
                         wire: seq<Byte>, frag: seq<Byte>, sent: seq<Packet>, shutdowns: nat)

  const Start := State(false, false, Reading, Receiving, [], [], [], 0)

  datatype Action =
    | Kick
    | InputTurn
    | InputFails
    | InputSeesCancel
    | InputSeesInner
    | Receive(packet: Packet)
    | ReceiveFails
    | WriteSome(n: nat)
    | WriteFails
    | OutputSeesCancel
    | OutputSeesInner
    | ShutDown

  /** The socket's side of the stream: whether it is connected, and what counts as a valid name. */
  datatype Mode = Mode(connected: bool, utf8: seq<Byte> -> bool)

  /** The receive buffer of 65535 bytes bounds a datagram, so its length survives the cast to sixteen bits. */
  predicate Receivable(m: Mode, p: Packet) {
    ValidPacket(m.connected, m.utf8, p)
  }

  predicate Enabled(m: Mode, s: State, a: Action) {
    match a
    case Kick => true
    case InputTurn => s.input == Reading
    case InputFails => s.input == Reading
    case InputSeesCancel => s.input == Reading && s.cancel
    case InputSeesInner => s.input == Reading && s.inner
    case Receive(p) => s.output == Receiving && Receivable(m, p)
    case ReceiveFails => s.output == Receiving
    case WriteSome(n) =>
      s.output.Writing? && Receivable(m, s.output.packet) && 0 < n <= |WritePacket(s.output.packet)| - |s.frag|
    case WriteFails => s.output.Writing?
    case OutputSeesCancel => s.output == Receiving && s.cancel
    case OutputSeesInner => s.output == Receiving && s.inner
    case ShutDown => s.output == Closing
  }

  /** The next n bytes of the packet have been accepted. */
  function Wrote(s: State, bytes: seq<Byte>, n: nat): State
    requires s.output.Writing? && |s.frag| + n <= |bytes|
  {
    var k := |s.frag|;
    var s' := s.(wire := s.wire + bytes[k..k + n], frag := s.frag + bytes[k..k + n]);
    if k + n == |bytes| then s'.(output := Receiving, frag := [], sent := s.sent + [s.output.packet]) else s'
  }

  function Apply(m: Mode, s: State, a: Action): State
    requires Enabled(m, s, a)
  {
    match a
    case Kick => s.(cancel := true)
    case InputTurn => s
    case InputFails => s.(input := InputDone, inner := true)
    case InputSeesCancel => s.(input := InputDone, inner := true)
    case InputSeesInner => s.(input := InputDone)
    case Receive(p) => s.(output := Writing(p))
    case ReceiveFails => s.(output := Closing, inner := true)
    case WriteSome(n) => Wrote(s, WritePacket(s.output.packet), n)
    case WriteFails => s.(output := Closing, inner := true)
    case OutputSeesCancel => s.(output := Closing, inner := true)
    case OutputSeesInner => s.(output := Closing)
    case ShutDown => s.(output := OutputDone, shutdowns := s.shutdowns + 1)
  }

  /** The bytes begin the encoding of some packet, but do not complete it. */
  ghost predicate Unfinished(m: Mode, frag: seq<Byte>) {
    exists p :: Receivable(m, p) && frag < WritePacket(p)
  }

  ghost predicate Inv(m: Mode, s: State) {
    && (s.inner <==> s.input == InputDone || s.output == Closing || s.output == OutputDone)
    && s.shutdowns == (if s.output == OutputDone then 1 else 0)
    && ValidPackets(m.connected, m.utf8, s.sent)
    && s.wire == WritePackets(m.connected, m.utf8, s.sent) + s.frag
    && (s.output.Writing? ==> Receivable(m, s.output.packet) && s.frag < WritePacket(s.output.packet))
    && (s.output == Receiving ==> s.frag == [])
    && (s.frag == [] || Unfinished(m, s.frag))
  }

  lemma WroteAppends(s: State, before: seq<Byte>, bytes: seq<Byte>, n: nat)
    requires s.output.Writing? && s.frag < bytes && 0 < n && |s.frag| + n <= |bytes|
    requires s.wire == before + s.frag
    ensures var s' := Wrote(s, bytes, n);
            if |s.frag| + n == |bytes| then s'.wire == before + bytes
            else s'.wire == before + s'.frag && s'.frag < bytes && s'.frag != []
  {
    var k := |s.frag|;
    assert s.frag + bytes[k..k + n] == bytes[..k + n];
    assert s.wire + bytes[k..k + n] == before + bytes[..k + n];
  }

  lemma WriteKeepsInv(m: Mode, s: State, n: nat)
    requires Inv(m, s) && Enabled(m, s, WriteSome(n))
    ensures Inv(m, Wrote(s, WritePacket(s.output.packet), n))
  {
    var p := s.output.packet;
    var before := WritePackets(m.connected, m.utf8, s.sent);
    WroteAppends(s, before, WritePacket(p), n);
    WritePacketsSnoc(m.connected, m.utf8, s.sent, p);
    PlusNothing(before + WritePacket(p));
  }

  lemma PlusNothing(s: seq<Byte>)
    ensures s + [] == s
  {
  }

  lemma StepKeepsInv(m: Mode, s: State, a: Action)
    requires Inv(m, s) && Enabled(m, s, a)
    ensures Inv(m, Apply(m, s, a))
  {
    if a.WriteSome? {
      WriteKeepsInv(m, s, a.n);
    } else if a.Receive? {
      assert |WritePacket(a.packet)| >= 2;
      assert [] < WritePacket(a.packet);
    }
  }

  ghost predicate IsRun(m: Mode, states: seq<State>, actions: seq<Action>) {
    && |states| == |actions| + 1
    && states[0] == Start
    && (forall i :: 0 <= i < |actions| ==> Enabled(m, states[i], actions[i]) && states[i + 1] == Apply(m, states[i], actions[i]))
  }

  /** Every reachable state: the inner token is cancelled exactly if one of the loops has ended, and the write half is shut down at most once. */
  lemma {:induction false} AlwaysInv(m: Mode, states: seq<State>, actions: seq<Action>, i: nat)
    requires IsRun(m, states, actions) && i < |states|
    ensures Inv(m, states[i])
  {
    if i > 0 {
      AlwaysInv(m, states, actions, i - 1);
      assert states[i - 1 + 1] == Apply(m, states[i - 1], actions[i - 1]);
      StepKeepsInv(m, states[i - 1], actions[i - 1]);
    } else {
      assert WritePackets(m.connected, m.utf8, []) + [] == [];
    }
  }

  /** An unfinished packet never parses as a packet. */
  lemma UnfinishedDoesNotParse(m: Mode, frag: seq<Byte>)
    requires frag == [] || Unfinished(m, frag)
    ensures !ReadPacket(m.connected, m.utf8, frag).Parsed?
  {
    if frag != [] {
      var p :| Receivable(m, p) && frag < WritePacket(p);
      PrefixFree(m.connected, m.utf8, p, frag);
    }
  }

  /**
   At every moment of every run, cancelled, failed or not, the client can parse exactly
   the packets whose writing finished, in order. When no packet is being written and no
   write failed, nothing is left over.
   */
  lemma ClientSeesWholePackets(m: Mode, states: seq<State>, actions: seq<Action>, i: nat)
    requires IsRun(m, states, actions) && i < |states|
    ensures var s := states[i];
            && ReadPackets(m.connected, m.utf8, s.wire) == (s.sent, s.frag)
            && (!s.output.Writing? && (forall j :: 0 <= j < i ==> actions[j] != WriteFails) ==> s.frag == [])
  {
    AlwaysInv(m, states, actions, i);
    var s := states[i];
    UnfinishedDoesNotParse(m, s.frag);
    PacketsRoundTrip(m.connected, m.utf8, s.sent, s.frag);
    if forall j :: 0 <= j < i ==> actions[j] != WriteFails {
      NoFragmentWithoutFailure(m, states, actions, i);
    }
  }

  lemma {:induction false} NoFragmentWithoutFailure(m: Mode, states: seq<State>, actions: seq<Action>, i: nat)
    requires IsRun(m, states, actions) && i < |states|
    requires forall j :: 0 <= j < i ==> actions[j] != WriteFails
    ensures !states[i].output.Writing? ==> states[i].frag == []
  {
    if i > 0 {
      NoFragmentWithoutFailure(m, states, actions, i - 1);
      AlwaysInv(m, states, actions, i - 1);
      assert states[i - 1 + 1] == Apply(m, states[i - 1], actions[i - 1]);
      assert actions[i - 1] != WriteFails;
    }
  }

  /** The packets received so far, in order. */
  function Received(actions: seq<Action>): seq<Packet> {
    if actions == [] then []
    else
      var last := actions[|actions| - 1];
      Received(actions[..|actions| - 1]) + if last.Receive? then [last.packet] else []
  }

  lemma ReceivedSnoc(actions: seq<Action>, i: nat)
    requires i < |actions|
    ensures Received(actions[..i + 1]) == Received(actions[..i]) + if actions[i].Receive? then [actions[i].packet] else []
  {
    assert actions[..i + 1][..i] == actions[..i];
  }

  /** The packets sent are those received, in order, up to one that is being written or was cut off by a failure. */
  lemma {:induction false} SendsWhatItReceives(m: Mode, states: seq<State>, actions: seq<Action>, i: nat)
    requires IsRun(m, states, actions) && i < |states|
    ensures var s, got := states[i], Received(actions[..i]);
            match s.output
            case Receiving => s.sent == got
            case Writing(p) => s.sent + [p] == got
            case _ => s.sent <= got && (s.sent == got || ((exists j :: 0 <= j < i && actions[j] == WriteFails) && |got| == |s.sent| + 1))
  {
    if i > 0 {
      SendsWhatItReceives(m, states, actions, i - 1);
      assert Enabled(m, states[i - 1], actions[i - 1]) && states[i - 1 + 1] == Apply(m, states[i - 1], actions[i - 1]);
      ReceivedSnoc(actions, i - 1);
    }
  }

  /** What makes the loops stop: a kick, or a failure of either. */
  predicate Stops(a: Action) {
    a == Kick || a == InputFails || a == ReceiveFails || a == WriteFails
  }

  /** No loop leaves, and no token is cancelled, without a kick or a failure before it. */
  lemma {:induction false} StopsForAReason(m: Mode, states: seq<State>, actions: seq<Action>, i: nat)
    requires IsRun(m, states, actions) && i < |states|
    requires forall j :: 0 <= j < i ==> !Stops(actions[j])
    ensures !states[i].cancel && !states[i].inner && states[i].input == Reading
    ensures states[i].output == Receiving || states[i].output.Writing?
  {
    if i > 0 {
      StopsForAReason(m, states, actions, i - 1);
      assert Enabled(m, states[i - 1], actions[i - 1]) && states[i - 1 + 1] == Apply(m, states[i - 1], actions[i - 1]);
    }
  }

  /** Once the write half was shut down nothing more is written and it is not shut down again. */
  lemma {:induction false} NothingAfterShutdown(m: Mode, states: seq<State>, actions: seq<Action>, i: nat, j: nat)
    requires IsRun(m, states, actions) && i <= j < |states| && states[i].shutdowns > 0
    ensures states[j].shutdowns == 1 && states[j].output == OutputDone && states[j].wire == states[i].wire
    decreases j
  {
    AlwaysInv(m, states, actions, i);
    if i < j {
      NothingAfterShutdown(m, states, actions, i, j - 1);
      assert states[j - 1 + 1] == Apply(m, states[j - 1], actions[j - 1]);
    }
  }

  /** When both loops have been joined, the write half was shut down exactly once and both had been signalled. */
  lemma JoinedMeansShutDown(m: Mode, states: seq<State>, actions: seq<Action>, i: nat)
    requires IsRun(m, states, actions) && i < |states|
    requires states[i].input == InputDone && states[i].output == OutputDone
    ensures states[i].shutdowns == 1 && states[i].inner
  {
    AlwaysInv(m, states, actions, i);
  }

  /** How far the loops are from being joined. */
  function Left(m: Mode, s: State): nat
    requires s.output.Writing? ==> Receivable(m, s.output.packet) && |s.frag| <= |WritePacket(s.output.packet)|
  {
    (if s.input == Reading then 1 else 0) +
    match s.output
    case OutputDone => 0
    case Closing => 1
    case Receiving => 2
    case Writing(p) => 3 + |WritePacket(p)| - |s.frag|
  }

  /** After either loop has ended or the connection was kicked, some enabled step always brings the join closer. */
  lemma CanAlwaysFinish(m: Mode, s: State) returns (a: Action)
    requires Inv(m, s) && (s.inner || s.cancel)
    requires !(s.input == InputDone && s.output == OutputDone)
    ensures Enabled(m, s, a) && Inv(m, Apply(m, s, a)) && Left(m, Apply(m, s, a)) < Left(m, s)
  {
    if s.input == Reading {
      a := if s.inner then InputSeesInner else InputSeesCancel;
    } else if s.output == Receiving {
      a := if s.inner then OutputSeesInner else OutputSeesCancel;
    } else if s.output == Closing {
      a := ShutDown;
    } else {
      a := WriteSome(|WritePacket(s.output.packet)| - |s.frag|);
    }
    StepKeepsInv(m, s, a);
  }
}
