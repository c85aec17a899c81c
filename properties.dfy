/** What the Gemini driver's operations promise, proved of the functions in
    GeminiProtocol. */
module GeminiProperties {
  import opened Serial
  import opened GeminiProtocol

  // ---------------------------------------------------------------------
  // Command tables

  /** The startup mode the mount is told to use: the selected one when it is a
      warm start or a warm restart, a cold start for every other index. */
  function EffectiveMode(mode: int): int {
    if mode == WARM_START || mode == WARM_RESTART then mode else COLD_START
  }

  /** The park position the mount is sent to: the selected one when it is the
      startup position or the zenith, home for every other index. */
  function EffectiveTarget(option: int): int {
    if option == PARK_STARTUP || option == PARK_ZENITH then option else PARK_HOME
  }

  lemma StartupCommandTable(mode: int)
    ensures StartupCommand(COLD_START) == "bC#" + [NUL]
    ensures StartupCommand(WARM_START) == "bW#" + [NUL]
    ensures StartupCommand(WARM_RESTART) == "bR#" + [NUL]
    ensures StartupCommand(mode) == StartupCommand(EffectiveMode(mode))
  {
  }

  /** Two selections give the same startup command exactly when they name the
      same effective mode, so the mount can tell every mode apart. */
  lemma StartupCommandsDistinct(a: int, b: int)
    ensures StartupCommand(a) == StartupCommand(b) <==> EffectiveMode(a) == EffectiveMode(b)
  {
  }

  lemma ParkCommandTable(option: int)
    ensures ParkCommand(PARK_HOME) == "#:hP#"
    ensures ParkCommand(PARK_STARTUP) == "#:hC#"
    ensures ParkCommand(PARK_ZENITH) == "#:hZ#"
    ensures ParkCommand(option) == ParkCommand(EffectiveTarget(option))
  {
  }

  /** Two selections give the same park command exactly when they name the
      same effective position. */
  lemma ParkCommandsDistinct(a: int, b: int)
    ensures ParkCommand(a) == ParkCommand(b) <==> EffectiveTarget(a) == EffectiveTarget(b)
  {
  }

  // ---------------------------------------------------------------------
  // Handshake

  /** A failed probe write or probe read ends the handshake in failure before
      any answer byte is looked at. */
  lemma HandshakeFailsWithoutAnswer(s: Session)
    requires !NextWriteSucceeds(s.link) || TakeSection(Pending(s.link), TERMINATOR).None?
    ensures !Handshake(s).ok
    ensures Handshake(s).after.link.log == s.link.log +
      if NextWriteSucceeds(s.link) then [Flushed, Wrote(PROBE, true), ReadUntil(TERMINATOR, false)]
      else [Flushed, Wrote(PROBE, false)]
  {
  }

  /** An answer other than the startup prompt ends the handshake in success
      after a single write, the probe. */
  lemma HandshakeReady(s: Session)
    requires NextWriteSucceeds(s.link) && IsReady(Pending(s.link))
    ensures Handshake(s).ok
    ensures Handshake(s).after.link ==
      Link(Rest(s.link.replies), Rest(s.link.writeResults),
           s.link.log + [Flushed, Wrote(PROBE, true), ReadUntil(TERMINATOR, true), Flushed])
  {
  }

  /** On the startup prompt the driver answers with the command for the
      selected mode, straight after the flush that closed the probe and with
      no flush of its own, and then runs the whole handshake again. */
  lemma HandshakePrompt(s: Session)
    requires NextWriteSucceeds(s.link) && IsPrompt(Pending(s.link))
    ensures
      var writes := Rest(s.link.writeResults);
      var selected := writes != [] && writes[0];
      var log := s.link.log + [Flushed, Wrote(PROBE, true), ReadUntil(TERMINATOR, true), Flushed,
                               Wrote(StartupCommand(s.mount.startupMode), selected)];
      var next := s.(link := Link(Rest(s.link.replies), Rest(writes), log));
      Handshake(s) == if selected then Handshake(next) else Step(false, next)
  {
    var probe := WritePort(FlushPort(s.link), PROBE);
    var answer := ReadSectionPort(probe.link, TERMINATOR);
    assert answer.data == TakeSection(Pending(s.link), TERMINATOR);
    var select := WritePort(FlushPort(answer.link), StartupCommand(s.mount.startupMode));
    assert select.link.log == s.link.log + [Flushed, Wrote(PROBE, true), ReadUntil(TERMINATOR, true), Flushed,
                                            Wrote(StartupCommand(s.mount.startupMode), select.ok)];
  }

  /** The handshake succeeds on the answer with index `k`: the `k` answers
      before it were startup prompts, it is not one, and the probe and mode
      writes up to it (two per prompt, one for the last probe) all succeeded. */
  predicate ReadyAfter(replies: seq<Reply>, writes: seq<bool>, k: nat) {
    k < |replies| && 2 * k < |writes|
    && (forall i :: 0 <= i < k ==> IsPrompt(replies[i]))
    && IsReady(replies[k])
    && (forall j :: 0 <= j <= 2 * k ==> writes[j])
  }

  lemma ReadyAfterShift(replies: seq<Reply>, writes: seq<bool>, k: nat)
    requires 0 < |replies| && IsPrompt(replies[0]) && 1 < |writes| && writes[0] && writes[1]
    ensures ReadyAfter(replies, writes, k + 1) <==> ReadyAfter(replies[1..], writes[2..], k)
  {
  }

  /** The handshake succeeds exactly when some answer ends it: every earlier
      answer was a startup prompt and every write along the way succeeded. */
  lemma {:induction false} HandshakeSucceedsIff(s: Session)
    ensures Handshake(s).ok <==> exists k: nat :: ReadyAfter(s.link.replies, s.link.writeResults, k)
    decreases |s.link.replies|
  {
    var replies, writes := s.link.replies, s.link.writeResults;
    var section := TakeSection(Pending(s.link), TERMINATOR);
    if !NextWriteSucceeds(s.link) {
      forall k: nat ensures !ReadyAfter(replies, writes, k) {
        if 2 * k < |writes| { assert !writes[0]; }
      }
    } else if section.None? {
      forall k: nat ensures !ReadyAfter(replies, writes, k) {
        if 0 < k < |replies| { assert !IsPrompt(replies[0]); }
      }
    } else if section.value[0] != 'b' {
      assert ReadyAfter(replies, writes, 0);
    } else {
      var probe := WritePort(FlushPort(s.link), PROBE);
      var answer := ReadSectionPort(probe.link, TERMINATOR);
      var select := WritePort(FlushPort(answer.link), StartupCommand(s.mount.startupMode));
      var next := s.(link := select.link);
      assert !ReadyAfter(replies, writes, 0);
      if !select.ok {
        forall k: nat ensures !ReadyAfter(replies, writes, k) {
          if 0 < k && 2 * k < |writes| { assert !writes[1]; }
        }
      } else {
        HandshakeSucceedsIff(next);
        assert next.link.replies == replies[1..] && next.link.writeResults == writes[2..];
        if exists k: nat :: ReadyAfter(replies, writes, k) {
          var k: nat :| ReadyAfter(replies, writes, k);
          ReadyAfterShift(replies, writes, k - 1);
        }
        if exists k: nat :: ReadyAfter(replies[1..], writes[2..], k) {
          var k: nat :| ReadyAfter(replies[1..], writes[2..], k);
          ReadyAfterShift(replies, writes, k);
        }
      }
    }
  }

  /** The handshake writes nothing but the probe and the command for the
      selected startup mode. */
  lemma {:induction false} HandshakeWritesOnly(s: Session)
    ensures
      var log := Handshake(s).after.link.log;
      forall i :: |s.link.log| <= i < |log| && log[i].Wrote? ==>
        log[i].data == PROBE || log[i].data == StartupCommand(s.mount.startupMode)
    decreases |s.link.replies|
  {
    var probe := WritePort(FlushPort(s.link), PROBE);
    if probe.ok {
      var answer := ReadSectionPort(probe.link, TERMINATOR);
      if answer.data.Some? && answer.data.value[0] == 'b' {
        var select := WritePort(FlushPort(answer.link), StartupCommand(s.mount.startupMode));
        if select.ok {
          var next := s.(link := select.link);
          HandshakeWritesOnly(next);
          var log := Handshake(s).after.link.log;
          assert log == Handshake(next).after.link.log;
          forall i | |s.link.log| <= i < |log| && log[i].Wrote?
            ensures log[i].data == PROBE || log[i].data == StartupCommand(s.mount.startupMode)
          {
            if i < |next.link.log| {
              assert log[i] == next.link.log[i];
            }
          }
        }
      }
    }
  }

  /** The handshake keeps every exchange bracketed by flushes. */
  lemma {:induction false} HandshakeBracketed(s: Session)
    requires Bracketed(s.link.log)
    ensures Bracketed(Handshake(s).after.link.log)
    decreases |s.link.replies|
  {
    FlushBracketed(s.link.log);
    var probe := WritePort(FlushPort(s.link), PROBE);
    WriteBracketed(FlushPort(s.link).log, PROBE, probe.ok);
    if probe.ok {
      var answer := ReadSectionPort(probe.link, TERMINATOR);
      ReadBracketed(probe.link.log, ReadUntil(TERMINATOR, answer.data.Some?));
      if answer.data.Some? && answer.data.value[0] == 'b' {
        var flushed := FlushPort(answer.link);
        var select := WritePort(flushed, StartupCommand(s.mount.startupMode));
        WriteBracketed(flushed.log, StartupCommand(s.mount.startupMode), select.ok);
        if select.ok {
          HandshakeBracketed(s.(link := select.link));
        }
      }
    }
  }

  /** A mount that asks for a startup mode once: with warm restart selected
      the driver answers bR#, probes again and succeeds on the second answer. */
  lemma HandshakeWarmRestartScenario(log: seq<Event>, m: Mount)
    requires m.startupMode == WARM_RESTART
    ensures
      var s := Session(Link([Sent("b#"), Sent("G#")], [true, true, true], log), m);
      Handshake(s) == Step(true, s.(link := Link([], [], log +
        [Flushed, Wrote(PROBE, true), ReadUntil(TERMINATOR, true), Flushed, Wrote("bR#" + [NUL], true),
         Flushed, Wrote(PROBE, true), ReadUntil(TERMINATOR, true), Flushed])))
  {
  }

  // ---------------------------------------------------------------------
  // Slew completion

  /** The slew is reported complete exactly when the query was written and the
      one byte read back is T, G or N; the poll changes no mount state and
      reads exactly one byte. */
  lemma SlewPollResult(s: Session)
    ensures SlewPoll(s).after.mount == s.mount
    ensures SlewPoll(s).ok <==>
      NextWriteSucceeds(s.link) && Pending(s.link).Sent? && 0 < |Pending(s.link).data|
      && Pending(s.link).data[0] in "TGN"
    ensures
      var written := NextWriteSucceeds(s.link);
      var answered := TakeCount(Pending(s.link), 1).Some?;
      SlewPoll(s).after.link.log == s.link.log + [Flushed, Wrote(SLEW_QUERY, written)]
        + (if written then [ReadBytes(1, answered)] else [])
        + (if written && answered then [Flushed] else [])
  {
  }

  // ---------------------------------------------------------------------
  // Pier side

  /** After a successful query the pier side is east exactly when the answer
      starts with E and west otherwise; when the write or the read fails it is
      left as it was. No other mount field changes, and the log records one
      flushed query, its read, and the flush after a successful read. */
  lemma PierSyncResult(s: Session)
    ensures PierSync(s).mount.(pier := s.mount.pier) == s.mount
    ensures
      var answered := NextWriteSucceeds(s.link) && TakeSection(Pending(s.link), TERMINATOR).Some?;
      if answered then
        (PierSync(s).mount.pier == PierEast <==> Pending(s.link).data[0] == 'E')
        && (PierSync(s).mount.pier == PierWest <==> Pending(s.link).data[0] != 'E')
      else PierSync(s).mount == s.mount
    ensures
      var written := NextWriteSucceeds(s.link);
      var answered := TakeSection(Pending(s.link), TERMINATOR).Some?;
      PierSync(s).link.log == s.link.log + [Flushed, Wrote(PIER_QUERY, written)]
        + (if written then [ReadUntil(TERMINATOR, answered)] else [])
        + (if written && answered then [Flushed] else [])
  {
  }

  /** The status refresh queries the pier side first and only then hands over
      to the generic status routine: the routine is given the mount with the
      synchronised pier side and a log that holds the whole pier exchange
      followed by the hand-over, and what it returns is the refresh's result. */
  lemma StatusRefreshOrder(s: Session, generic: Session -> Step)
    ensures
      var written := NextWriteSucceeds(s.link);
      var answered := TakeSection(Pending(s.link), TERMINATOR).Some?;
      var handed := Session(PierSync(s).link.(log := PierSync(s).link.log + [Delegated]), PierSync(s).mount);
      StatusRefresh(s, generic) == generic(handed)
      && handed.link.log == s.link.log + [Flushed, Wrote(PIER_QUERY, written)]
        + (if written then [ReadUntil(TERMINATOR, answered)] else [])
        + (if written && answered then [Flushed] else []) + [Delegated]
  {
  }

  // ---------------------------------------------------------------------
  // Park and unpark

  /** Park writes the command for the selected position and reads nothing;
      only a successful write sets the mount parking and the park light busy,
      and nothing else changes. */
  lemma ParkRequestResult(s: Session)
    ensures ParkRequest(s).ok == NextWriteSucceeds(s.link)
    ensures ParkRequest(s).after.link ==
      Link(s.link.replies, Rest(s.link.writeResults),
           s.link.log + [Flushed, Wrote(ParkCommand(s.mount.parkOption), ParkRequest(s).ok)])
    ensures ParkRequest(s).after.mount ==
      if ParkRequest(s).ok then s.mount.(track := Parking, parkLight := LightBusy) else s.mount
  {
  }

  /** UnPark always writes the unpark command and reads nothing; a successful
      write makes the mount idle whatever it was doing, a failed one changes
      nothing. */
  lemma UnParkRequestResult(s: Session)
    ensures UnParkRequest(s).ok == NextWriteSucceeds(s.link)
    ensures UnParkRequest(s).after.link ==
      Link(s.link.replies, Rest(s.link.writeResults),
           s.link.log + [Flushed, Wrote(UNPARK_COMMAND, UnParkRequest(s).ok)])
    ensures UnParkRequest(s).after.mount ==
      if UnParkRequest(s).ok then s.mount.(track := Idle) else s.mount
  {
  }

  /** Unparking a second time leaves the mount as the first unpark did. */
  lemma UnParkIdempotent(s: Session)
    requires UnParkRequest(s).ok
    ensures UnParkRequest(UnParkRequest(s).after).after.mount == UnParkRequest(s).after.mount
  {
  }

  // ---------------------------------------------------------------------
  // Flush bracketing of the single-exchange operations

  /** The slew poll keeps every exchange bracketed by flushes. */
  lemma SlewPollBracketed(s: Session)
    requires Bracketed(s.link.log)
    ensures Bracketed(SlewPoll(s).after.link.log)
  {
    FlushBracketed(s.link.log);
    var query := WritePort(FlushPort(s.link), SLEW_QUERY);
    WriteBracketed(FlushPort(s.link).log, SLEW_QUERY, query.ok);
    if query.ok {
      ReadBracketed(query.link.log, ReadBytes(1, ReadPort(query.link, 1).data.Some?));
    }
  }

  /** The pier-side query keeps every exchange bracketed by flushes, and so
      does the hand-over to the generic status routine after it. */
  lemma PierSyncBracketed(s: Session)
    requires Bracketed(s.link.log)
    ensures Bracketed(PierSync(s).link.log)
    ensures Bracketed(PierSync(s).link.log + [Delegated])
  {
    FlushBracketed(s.link.log);
    var query := WritePort(FlushPort(s.link), PIER_QUERY);
    WriteBracketed(FlushPort(s.link).log, PIER_QUERY, query.ok);
    if query.ok {
      ReadBracketed(query.link.log, ReadUntil(TERMINATOR, ReadSectionPort(query.link, TERMINATOR).data.Some?));
    }
    DelegatedBracketed(PierSync(s).link.log);
  }

  /** Park and unpark keep every exchange bracketed by flushes. */
  lemma ParkingBracketed(s: Session)
    requires Bracketed(s.link.log)
    ensures Bracketed(ParkRequest(s).after.link.log)
    ensures Bracketed(UnParkRequest(s).after.link.log)
  {
    FlushBracketed(s.link.log);
    WriteBracketed(FlushPort(s.link).log, ParkCommand(s.mount.parkOption), NextWriteSucceeds(s.link));
    WriteBracketed(FlushPort(s.link).log, UNPARK_COMMAND, NextWriteSucceeds(s.link));
  }
}
