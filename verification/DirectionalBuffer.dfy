/** `DirectionalBuffer`: the in-place buffer of one relay direction, with `poll_copy` as the source runs it. */
module DirectionalBuffers {
  import opened Polls
  import opened Halves
  import opened Copying

  class DirectionalBuffer {
    const buf: array<Byte>
    var pos: nat
    var cap: nat
    var amt: nat
    var readDone: bool
    var shutdownDone: bool
    const suppressShutdown: bool

    function View(): Dir
      reads this, buf
    {
      Dir(buf[..], pos, cap, amt, readDone, shutdownDone, suppressShutdown)
    }

    ghost predicate Valid()
      reads this, buf
    {
      DirInv(View())
    }

    constructor (size: nat, suppress: bool)
      ensures Valid() && fresh(buf)
      ensures View() == NewDir(size, suppress)
    {
      buf := new Byte[size](_ => 0);
      pos, cap, amt := 0, 0, 0;
      readDone, shutdownDone, suppressShutdown := false, false, suppress;
    }

    /** Puts data into the buffer at the given offset. */
    method Fill(at: nat, data: seq<Byte>)
      requires at + |data| <= buf.Length
      modifies this`cap, buf
      ensures View() == Filled(old(View()), at, data)
    {
      forall i | 0 <= i < |data| {
        buf[at + i] := data[i];
      }
      cap := at + |data|;
      assert buf[..at] == old(buf[..at]);
      assert buf[at..at + |data|] == data;
      assert buf[at + |data|..] == old(buf[at + |data|..]);
    }

    method ReadAhead(reader: Reader) returns (reader': Reader)
      requires Valid() && ReaderInv(reader)
      modifies this`cap, this`readDone, buf
      ensures (View(), reader') == TopUp(old(View()), reader)
    {
      reader' := reader;
      if !readDone && cap < buf.Length {
        var (r, p) := Read(reader, buf.Length - cap);
        ReaderLaw(reader, buf.Length - cap);
        reader' := r;
        match p {
          case ReadPending =>
          case ReadErr =>
            readDone := true;
          case ReadOk(data) =>
            if data == [] {
              readDone := true;
            } else {
              Fill(cap, data);
            }
        }
      }
    }

    /** One turn of the write loop: some held bytes are accepted, or the poll ends with the answer. */
    method WriteOnce(reader: Reader, writer: Writer) returns (reader': Reader, writer': Writer, stop: Option<DonePoll>)
      requires Valid() && ReaderInv(reader) && pos < cap
      modifies this`pos, this`cap, this`amt, this`readDone, buf
      ensures (View(), reader', writer', stop) == WriteTurn(old(View()), reader, writer)
    {
      assert buf[pos..cap] == Held(View());
      var (w, p) := Write(writer, buf[pos..cap]);
      if p.WriteErr? || p == WriteOk(0) {
        return reader, w, Some(DoneErr);
      }
      if p.WritePending? {
        reader' := ReadAhead(reader);
        return reader', w, Some(DonePending);
      }
      pos := pos + p.n;
      amt := amt + p.n;
      return reader, w, None;
    }

    /** The write loop: on exit either everything held was accepted, or the poll ends with the answer. */
    method WriteHeld(reader: Reader, writer: Writer) returns (reader': Reader, writer': Writer, stop: Option<DonePoll>)
      requires Valid() && ReaderInv(reader) && !shutdownDone
      modifies this`pos, this`cap, this`amt, this`readDone, buf
      ensures stop.Some? ==>
                Copy(View(), reader', writer', stop.value) == CopyLoop(old(View()), reader, writer)
      ensures stop.None? ==>
                && Valid() && pos == cap && reader' == reader && readDone == old(readDone)
                && CopyLoop(View(), reader, writer') == CopyLoop(old(View()), reader, writer)
    {
      reader', writer', stop := reader, writer, None;
      while pos < cap
        invariant Valid() && stop.None? && reader' == reader && readDone == old(readDone)
        invariant CopyLoop(View(), reader, writer') == CopyLoop(old(View()), reader, writer)
      {
        reader', writer', stop := WriteOnce(reader', writer');
        if stop.Some? {
          return;
        }
      }
    }

    /** End of stream: the writer is shut down unless that is suppressed, and whatever it answers is final. */
    method ForwardEnd(ghost reader: Reader, writer: Writer) returns (writer': Writer, p: DonePoll)
      modifies this`shutdownDone
      ensures Copy(View(), reader, writer', p) == Finish(old(View()), reader, writer)
    {
      writer' := writer;
      if !suppressShutdown {
        var (w, s) := Shutdown(writer);
        writer' := w;
        if s == DonePending {
          return writer', DonePending;
        }
      }
      shutdownDone := true;
      return writer', DoneOk;
    }

    method PollCopy(reader: Reader, writer: Writer) returns (reader': Reader, writer': Writer, p: DonePoll)
      requires Valid() && ReaderInv(reader)
      modifies this, buf
      ensures Copy(View(), reader', writer', p) == Copying.PollCopy(old(View()), reader, writer)
    {
      reader', writer' := reader, writer;
      if shutdownDone {
        return reader', writer', DoneOk;
      }
      ghost var target := CopyLoop(View(), reader, writer);
      while true
        invariant Valid() && ReaderInv(reader') && !shutdownDone
        invariant CopyLoop(View(), reader', writer') == target
        decreases |Rest(reader')|, if readDone then 0 else 1
      {
        var stop;
        reader', writer', stop := WriteHeld(reader', writer');
        if stop.Some? {
          return reader', writer', stop.value;
        }
        var (w, f) := Flush(writer');
        writer' := w;
        if f == DoneErr {
          return reader', writer', DoneErr;
        }
        if readDone {
          writer', p := ForwardEnd(reader', writer');
          return;
        }
        var (r, q) := Read(reader', buf.Length);
        ReaderLaw(reader', buf.Length);
        reader' := r;
        match q {
          case ReadPending =>
            return reader', writer', DonePending;
          case ReadErr =>
            return reader', writer', DoneErr;
          case ReadOk(data) =>
            if data == [] {
              readDone := true;
            } else {
              pos := 0;
              Fill(0, data);
            }
        }
      }
    }
  }
}
