/** An abstract serial link to the mount: the bytes that cross it, the answers
    the device gives, and the log of what the driver did to the port. The tty
    library calls of the driver (tcflush, tty_write, tty_read,
    tty_read_section) become the pure steps below; the answers the device sends
    and the outcome of each write are scripted in advance. */
module Serial {

  /** A byte on the wire; the driver keeps commands and responses as C chars. */
  type Byte = c: char | c as int < 256

  /** The acknowledge byte that opens the power-up handshake. */
  const ACK: Byte := 6 as char
  /** The string terminator C copies along with a literal. */
  const NUL: Byte := 0 as char

  datatype Option<+T> = None | Some(value: T)

  /** What the device sends in answer to one read before the read times out,
      or an error the port reports instead of data. */
  datatype Reply = Sent(data: seq<Byte>) | PortError

  /** One thing the driver did to the port, with its outcome. `Delegated`
      marks the point where control passes to the generic LX200 driver,
      whose own traffic is not part of this model. */
  datatype Event =
    | Flushed
    | Wrote(data: seq<Byte>, ok: bool)
    | ReadBytes(count: nat, ok: bool)
    | ReadUntil(stop: Byte, ok: bool)
    | Delegated
  {
    predicate IsRead() { ReadBytes? || ReadUntil? }
  }

  /** The state of the link: answers not yet read, outcomes of the writes
      still to come, and everything done so far. */
  datatype Link = Link(replies: seq<Reply>, writeResults: seq<bool>, log: seq<Event>)

  datatype WriteResult = WriteResult(ok: bool, link: Link)
  datatype ReadResult = ReadResult(data: Option<seq<Byte>>, link: Link)

  function Rest<T>(s: seq<T>): seq<T> {
    if s == [] then [] else s[1..]
  }

  /** The answer the next read sees; once the script is exhausted the device
      stays silent. */
  function Pending(l: Link): Reply {
    if l.replies == [] then Sent([]) else l.replies[0]
  }

  /** Whether the next write succeeds; once the script is exhausted every
      write fails. */
  predicate NextWriteSucceeds(l: Link) {
    l.writeResults != [] && l.writeResults[0]
  }

  /** The position of the first `x` in `d`. */
  function FirstIndex(d: seq<Byte>, x: Byte): (k: nat)
    requires x in d
    ensures k < |d| && d[k] == x && x !in d[..k]
  {
    if d[0] == x then 0
    else
      var k := 1 + FirstIndex(d[1..], x);
      assert d[..k] == [d[0]] + d[1..][..k - 1];
      k
  }

  /** The bytes a read of exactly `n` bytes takes from answer `r`; None when
      the port fails or fewer than `n` bytes arrive before the timeout. */
  function TakeCount(r: Reply, n: nat): (taken: Option<seq<Byte>>)
    ensures taken.Some? <==> r.Sent? && n <= |r.data|
    ensures taken.Some? ==> |taken.value| == n && taken.value <= r.data
  {
    match r
    case PortError => None
    case Sent(d) => if n <= |d| then Some(d[..n]) else None
  }

  /** The bytes a read up to `stop` takes from answer `r`: everything up to and
      including the first `stop`; None when the port fails or no `stop`
      arrives before the timeout. */
  function TakeSection(r: Reply, stop: Byte): (taken: Option<seq<Byte>>)
    ensures taken.Some? <==> r.Sent? && stop in r.data
    ensures taken.Some? ==>
      var t := taken.value;
      0 < |t| && t <= r.data && t[|t| - 1] == stop && stop !in t[..|t| - 1]
  {
    match r
    case PortError => None
    case Sent(d) =>
      if stop in d then
        var t := d[..FirstIndex(d, stop) + 1];
        assert t[..|t| - 1] == d[..FirstIndex(d, stop)];
        Some(t)
      else None
  }

  /** tcflush(TCIOFLUSH): discard pending input and output. */
  function FlushPort(l: Link): Link {
    l.(log := l.log + [Flushed])
  }

  /** tty_write: send `data`; the outcome is the next scripted one. */
  function WritePort(l: Link, data: seq<Byte>): WriteResult {
    var ok := NextWriteSucceeds(l);
    WriteResult(ok, l.(writeResults := Rest(l.writeResults), log := l.log + [Wrote(data, ok)]))
  }

  /** tty_read: read exactly `n` bytes from the next answer. */
  function ReadPort(l: Link, n: nat): ReadResult {
    var taken := TakeCount(Pending(l), n);
    ReadResult(taken, l.(replies := Rest(l.replies), log := l.log + [ReadBytes(n, taken.Some?)]))
  }

  /** tty_read_section: read the next answer up to and including `stop`. */
  function ReadSectionPort(l: Link, stop: Byte): ReadResult {
    var taken := TakeSection(Pending(l), stop);
    ReadResult(taken, l.(replies := Rest(l.replies), log := l.log + [ReadUntil(stop, taken.Some?)]))
  }

  /** Every exchange is bracketed by flushes: each write comes straight after a
      flush, each read straight after a successful write, and each successful
      read is followed at once by a flush, so no exchange reads bytes left over
      from another. */
  predicate Bracketed(log: seq<Event>) {
    (forall i :: 0 <= i < |log| && log[i].Wrote? ==> 0 < i && log[i - 1] == Flushed)
    && (forall i :: 0 <= i < |log| && log[i].IsRead() ==> 0 < i && log[i - 1].Wrote? && log[i - 1].ok)
    && (forall i :: 0 <= i < |log| && log[i].IsRead() && log[i].ok ==> i + 1 < |log| && log[i + 1] == Flushed)
  }

  /** A flush can always be appended to a bracketed log. */
  lemma FlushBracketed(log: seq<Event>)
    requires Bracketed(log)
    ensures Bracketed(log + [Flushed])
  {
  }

  /** A write can be appended straight after a flush. */
  lemma WriteBracketed(log: seq<Event>, data: seq<Byte>, ok: bool)
    requires Bracketed(log) && 0 < |log| && log[|log| - 1] == Flushed
    ensures Bracketed(log + [Wrote(data, ok)])
  {
  }

  /** A read can be appended straight after a successful write, followed by a
      flush when it succeeds. */
  lemma ReadBracketed(log: seq<Event>, read: Event)
    requires Bracketed(log) && read.IsRead()
    requires 0 < |log| && log[|log| - 1].Wrote? && log[|log| - 1].ok
    ensures Bracketed(log + [read] + (if read.ok then [Flushed] else []))
  {
  }

  /** The hand-over to the generic driver can be appended to a bracketed log. */
  lemma DelegatedBracketed(log: seq<Event>)
    requires Bracketed(log)
    ensures Bracketed(log + [Delegated])
  {
  }
}
