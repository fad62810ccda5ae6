/**
 The vocabulary of a non-blocking byte stream, and the laws that every layer of
 the tunnel obeys towards the layer above it.

 A stream half is seen through a view. A reading half owes its caller the bytes
 `rest`; a writing half has taken responsibility for the bytes `out`. Every time a
 half answers Pending it has kept the caller's waker, and `stalls` counts those
 answers. Failures of the outside world are counted by `fails` and `faults`.

 The same law is proved of a scripted socket, of an HTTP/3 stream and of the
 padding transport on top of either, so a layer never needs to know what it wraps.
 */
module Polls {

  type Byte = b: nat | b < 256

  datatype Option<+T> = None | Some(value: T)

  /** Result of `poll_read`: the bytes put into the caller's buffer. No bytes means end of stream. */
  datatype ReadPoll = ReadPending | ReadOk(data: seq<Byte>) | ReadErr

  /** Result of `poll_write`: how many bytes of the buffer were accepted. */
  datatype WritePoll = WritePending | WriteOk(n: nat) | WriteErr

  /** Result of `poll_flush`, `poll_shutdown` and `poll_copy`. */
  datatype DonePoll = DonePending | DoneOk | DoneErr

  /** What the outside world does at one poll: nothing yet, up to n bytes of progress, or an error. */
  datatype Event = Block | Go(n: nat) | Fail

  /** `reliable` marks a source that has no way to fail. */
  datatype ReadView = ReadView(rest: seq<Byte>, stalls: nat, fails: nat, reliable: bool)

  /** `shuts` lists the outcomes of the shutdowns completed so far. */
  datatype WriteView = WriteView(out: seq<Byte>, stalls: nat, faults: int, shuts: seq<bool>, tail: Tail)

  /**
   How a writing half stands at its end: the FIN marks it sent and whether one is the
   last thing sent (`sealed`), whether all it took has left it (`clean`), whether the
   channel below never refuses a FIN it made room for (`steady`), and how many writes
   it committed to although the caller was told of an error (`untold`). `framed` marks
   a half whose endpoint sends frames rather than plain bytes. `flushed` says that a flush
   of everything it took has completed.
   */
  datatype Tail = Tail(fins: nat, sealed: bool, clean: bool, steady: bool, untold: nat, framed: bool, flushed: bool)

  /**
   Bytes are delivered in order, once, and never beyond the caller's buffer. An
   empty answer into a non-empty buffer means that nothing is left. Pending is
   answered exactly when a waker was kept, an error exactly when the world failed.
   */
  ghost predicate ReadLaw(v: ReadView, cap: nat, v': ReadView, p: ReadPoll) {
    match p
    case ReadPending => v' == v.(stalls := v.stalls + 1)
    case ReadErr => v' == v.(fails := v.fails + 1) && !v.reliable
    case ReadOk(data) =>
      && |data| <= cap
      && v.rest == data + v'.rest
      && v'.stalls == v.stalls
      && v'.fails == v.fails
      && v'.reliable == v.reliable
      && (data == [] && cap > 0 ==> v.rest == [])
  }

  /**
   The accepted bytes are a prefix of the buffer and are appended, in order, to what was
   accepted before. A fault is an error answer, or no byte accepted of a non-empty buffer.
   */
  ghost predicate WriteLaw(v: WriteView, buf: seq<Byte>, v': WriteView, p: WritePoll) {
    && v.stalls <= v'.stalls
    && v'.faults == v.faults + (if p.WriteErr? || (p == WriteOk(0) && buf != []) then 1 else 0)
    && v'.shuts == v.shuts
    && v'.tail.fins == v.tail.fins
    && (v.tail.steady ==> v'.tail.steady)
    && v'.tail.framed == v.tail.framed
    && (!p.WriteErr? ==> v'.tail.untold == v.tail.untold)
    && match p
       case WritePending => v'.out == v.out && v.stalls < v'.stalls
       case WriteErr => v'.out == v.out
       case WriteOk(n) => n <= |buf| && v'.out == v.out + buf[..n]
  }

  ghost predicate FlushLaw(v: WriteView, v': WriteView, p: DonePoll) {
    && v.stalls <= v'.stalls
    && v'.faults == v.faults + (if p.DoneErr? then 1 else 0)
    && v'.shuts == v.shuts
    && v'.out == v.out
    && v'.tail.fins == v.tail.fins
    && v'.tail.untold == v.tail.untold
    && (v.tail.steady ==> v'.tail.steady)
    && v'.tail.framed == v.tail.framed
    && (p.DonePending? ==> v.stalls < v'.stalls)
    && (p.DoneOk? ==> v'.tail.flushed)
  }

  /**
   A shutdown that completes, well or badly, is recorded once; one that is Pending is
   not. Completing well means that nothing was left behind, and that one FIN was sent
   last, unless the channel refused it.
   */
  ghost predicate ShutLaw(v: WriteView, v': WriteView, p: DonePoll) {
    && v.stalls <= v'.stalls
    && v'.faults == v.faults + (if p.DoneErr? then 1 else 0)
    && v'.out == v.out
    && (v.tail.flushed ==> v'.tail.flushed)
    && v'.tail.untold == v.tail.untold
    && (v.tail.steady ==> v'.tail.steady)
    && v'.tail.framed == v.tail.framed
    && match p
       case DonePending => v'.shuts == v.shuts && v'.tail.fins == v.tail.fins && v.stalls < v'.stalls
       case DoneErr => v'.shuts == v.shuts + [false] && v'.tail.fins == v.tail.fins
       case DoneOk =>
         && v'.shuts == v.shuts + [true]
         && v'.tail.clean
         && ((v'.tail.sealed && v'.tail.fins == v.tail.fins + 1) || (!v.tail.steady && v'.tail.fins == v.tail.fins))
  }

  /** A big-endian two-byte number. */
  function U16(hi: Byte, lo: Byte): nat {
    var h: nat := hi;
    h * 256 + lo
  }

  function Min(a: nat, b: nat): nat {
    if a < b then a else b
  }
}
