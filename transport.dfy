/** The serial port the driver talks through (the driver's PortFD), as an
    object: the scripted answers and write outcomes it still holds, and the
    log of what was done to it. Each method is one tty library call. */
module Transport {
  import opened Serial

  class Port {
    var replies: seq<Reply>
    var writeResults: seq<bool>
    var log: seq<Event>

    function State(): Link
      reads this
    {
      Link(replies, writeResults, log)
    }

    constructor (replies: seq<Reply>, writeResults: seq<bool>)
      ensures State() == Link(replies, writeResults, [])
    {
      this.replies := replies;
      this.writeResults := writeResults;
      this.log := [];
    }

    method Flush()
      modifies this
      ensures State() == FlushPort(old(State()))
    {
      log := log + [Flushed];
    }

    method Write(data: seq<Byte>) returns (ok: bool)
      modifies this
      ensures WriteResult(ok, State()) == WritePort(old(State()), data)
    {
      ok := writeResults != [] && writeResults[0];
      writeResults := Rest(writeResults);
      log := log + [Wrote(data, ok)];
    }

    method Read(n: nat) returns (data: Option<seq<Byte>>)
      modifies this
      ensures ReadResult(data, State()) == ReadPort(old(State()), n)
    {
      data := TakeCount(Pending(State()), n);
      replies := Rest(replies);
      log := log + [ReadBytes(n, data.Some?)];
    }

    method ReadSection(stop: Byte) returns (data: Option<seq<Byte>>)
      modifies this
      ensures ReadResult(data, State()) == ReadSectionPort(old(State()), stop)
    {
      data := TakeSection(Pending(State()), stop);
      replies := Rest(replies);
      log := log + [ReadUntil(stop, data.Some?)];
    }

    /** The generic LX200 driver takes the port over; its own exchanges are
        not part of this model. */
    method HandOver()
      modifies this
      ensures State() == old(State()).(log := old(log) + [Delegated])
    {
      log := log + [Delegated];
    }

    /** The generic LX200 driver gives the port back in the state `l` its own
        exchanges left it in. */
    method TakeBack(l: Link)
      modifies this
      ensures State() == l
    {
      replies, writeResults, log := l.replies, l.writeResults, l.log;
    }
  }
}
