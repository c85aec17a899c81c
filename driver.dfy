/** The Losmandy Gemini driver object: the serial port it owns and the mount
    fields the Gemini-specific operations read and write. Each method performs
    its exchange on the port step by step and is proved to do exactly what the
    matching function of GeminiProtocol describes. */
module GeminiDriver {
  import opened Serial
  import opened Transport
  import opened GeminiProtocol
  import opened GeminiProperties

  /** The generic status routine keeps every exchange bracketed by flushes. */
  ghost predicate KeepsBracketed(generic: Session -> Step) {
    forall h: Session :: Bracketed(h.link.log) ==> Bracketed(generic(h).after.link.log)
  }

  class Driver {
    const port: Port
    var trackState: TrackState
    var pierSide: PierSide
    /** The state light of the park switch. */
    var parkLight: Light
    /** Index of the startup-mode switch that is on, -1 when none is. */
    var startupMode: int
    /** Index of the park-position switch that is on, -1 when none is. */
    var parkOption: int

    function MountState(): Mount
      reads this
    {
      Mount(trackState, pierSide, parkLight, startupMode, parkOption)
    }

    function State(): Session
      reads this, port
    {
      Session(port.State(), MountState())
    }

    /** Every exchange so far has been bracketed by flushes. */
    predicate Valid()
      reads this, port
    {
      Bracketed(port.log)
    }

    constructor (port: Port, startupMode: int, parkOption: int)
      requires Bracketed(port.log)
      ensures this.port == port && Valid()
      ensures MountState() == Mount(Idle, PierUnknown, LightIdle, startupMode, parkOption)
    {
      this.port := port;
      trackState := Idle;
      pierSide := PierUnknown;
      parkLight := LightIdle;
      this.startupMode := startupMode;
      this.parkOption := parkOption;
    }

    /** checkConnection: the power-up handshake. On the startup prompt it
        answers with the selected mode and calls itself again; every call
        consumes one scripted answer, so the recursion ends. */
    method CheckConnection() returns (ok: bool)
      requires Valid()
      modifies port
      ensures Valid()
      ensures Step(ok, State()) == Handshake(old(State()))
      decreases |port.replies|
    {
      ghost var s0 := State();
      HandshakeBracketed(s0);
      FlushBracketed(s0.link.log);
      port.Flush();
      var written := port.Write(PROBE);
      ghost var probe := WritePort(FlushPort(s0.link), PROBE);
      assert port.State() == probe.link;
      if !written {
        return false;
      }
      WriteBracketed(FlushPort(s0.link).log, PROBE, true);
      var response := port.ReadSection(TERMINATOR);
      ghost var answer := ReadSectionPort(probe.link, TERMINATOR);
      assert port.State() == answer.link && response == answer.data;
      if response.None? {
        return false;
      }
      ReadBracketed(probe.link.log, ReadUntil(TERMINATOR, true));
      port.Flush();
      if response.value[0] == 'b' {
        var command := StartupCommand(startupMode);
        WriteBracketed(port.log, command, NextWriteSucceeds(port.State()));
        written := port.Write(command);
        ghost var select := WritePort(FlushPort(answer.link), command);
        assert port.State() == select.link;
        assert Handshake(s0) == if select.ok then Handshake(s0.(link := select.link))
                                else Step(false, s0.(link := select.link));
        if !written {
          return false;
        }
        ok := CheckConnection();
      } else {
        ok := true;
      }
    }

    /** isSlewComplete: one query, one byte of answer. */
    method IsSlewComplete() returns (done: bool)
      requires Valid()
      modifies port
      ensures Valid()
      ensures Step(done, State()) == SlewPoll(old(State()))
      ensures done <==>
        NextWriteSucceeds(old(port.State())) && old(Pending(port.State())).Sent?
        && 0 < |old(Pending(port.State())).data| && old(Pending(port.State())).data[0] in "TGN"
    {
      SlewPollBracketed(State());
      SlewPollResult(State());
      port.Flush();
      var written := port.Write(SLEW_QUERY);
      if !written {
        return false;
      }
      var response := port.Read(1);
      if response.None? {
        return false;
      }
      port.Flush();
      done := SlewDone(response.value[0]);
    }

    /** syncSideOfPier: query the pier side; a failed exchange leaves it as it
        was. */
    method SyncSideOfPier()
      requires Valid()
      modifies this, port
      ensures Valid()
      ensures State() == PierSync(old(State()))
      ensures
        var answered := NextWriteSucceeds(old(port.State()))
          && TakeSection(old(Pending(port.State())), TERMINATOR).Some?;
        pierSide == if answered then SideOf(old(Pending(port.State())).data[0]) else old(pierSide)
    {
      PierSyncBracketed(State());
      port.Flush();
      var written := port.Write(PIER_QUERY);
      if !written {
        return;
      }
      var response := port.ReadSection(TERMINATOR);
      if response.None? {
        return;
      }
      port.Flush();
      pierSide := SideOf(response.value[0]);
    }

    /** ReadScopeStatus: synchronise the pier side, then hand the port and the
        mount fields to the generic LX200 status routine `generic` and take
        back whatever it leaves; its result is the refresh's. The routine must
        keep exchanges bracketed by flushes for the driver to stay valid. */
    method ReadScopeStatus(generic: Session -> Step) returns (ok: bool)
      requires Valid() && KeepsBracketed(generic)
      modifies this, port
      ensures Valid()
      ensures Step(ok, State()) == StatusRefresh(old(State()), generic)
    {
      ghost var s0 := State();
      PierSyncBracketed(s0);
      SyncSideOfPier();
      port.HandOver();
      assert StatusRefresh(s0, generic) == generic(State());
      var r := generic(State());
      Resume(r);
      ok := r.ok;
    }

    /** Take back the port and the mount fields as the generic status routine
        left them. */
    method Resume(r: Step)
      requires Bracketed(r.after.link.log)
      modifies this, port
      ensures Valid() && State() == r.after
    {
      port.TakeBack(r.after.link);
      trackState, pierSide, parkLight := r.after.mount.track, r.after.mount.pier, r.after.mount.parkLight;
      startupMode, parkOption := r.after.mount.startupMode, r.after.mount.parkOption;
    }

    /** Park: send the command for the selected park position without reading
        an answer; only a successful write starts parking. */
    method Park() returns (ok: bool)
      requires Valid()
      modifies this, port
      ensures Valid()
      ensures Step(ok, State()) == ParkRequest(old(State()))
      ensures ok ==> trackState == Parking && parkLight == LightBusy
      ensures !ok ==> MountState() == old(MountState())
    {
      ParkingBracketed(State());
      var command := ParkCommand(parkOption);
      port.Flush();
      ok := port.Write(command);
      if !ok {
        return;
      }
      parkLight := LightBusy;
      trackState := Parking;
    }

    /** UnPark: send the unpark command; a successful write makes the mount
        idle whatever it was doing. */
    method UnPark() returns (ok: bool)
      requires Valid()
      modifies this, port
      ensures Valid()
      ensures Step(ok, State()) == UnParkRequest(old(State()))
      ensures trackState == if ok then Idle else old(trackState)
    {
      ParkingBracketed(State());
      port.Flush();
      ok := port.Write(UNPARK_COMMAND);
      if !ok {
        return;
      }
      trackState := Idle;
    }
  }
}
