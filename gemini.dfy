/** The Losmandy Gemini extension of the LX200 protocol as functions over the
    link and the mount state: what each driver operation sends, how it reads
    the answer, and what it changes. */
module GeminiProtocol {
  import opened Serial

  /** Positions of the switches in the startup-mode vector; a selection is the
      index of the switch that is on, -1 when none is. */
  const COLD_START := 0
  const WARM_START := 1
  const WARM_RESTART := 2

  /** Positions of the switches in the park-position vector. */
  const PARK_HOME := 0
  const PARK_STARTUP := 1
  const PARK_ZENITH := 2

  const TERMINATOR: Byte := '#'
  const PROBE: seq<Byte> := [ACK]
  const SLEW_QUERY: seq<Byte> := "#:Gv#"
  const PIER_QUERY: seq<Byte> := "#:Gm#"
  const UNPARK_COMMAND: seq<Byte> := "#:hN#"

  datatype TrackState = Idle | Slewing | Tracking | Parking | Parked
  datatype PierSide = PierEast | PierWest | PierUnknown
  /** The state light of a property, here of the park switch. */
  datatype Light = LightIdle | LightOk | LightBusy | LightAlert

  /** The driver fields the core reads or writes. */
  datatype Mount = Mount(track: TrackState, pier: PierSide, parkLight: Light,
                         startupMode: int, parkOption: int)

  datatype Session = Session(link: Link, mount: Mount)

  /** The result of an operation and the session after it. */
  datatype Step = Step(ok: bool, after: Session)

  /** The answer that selects a startup mode when the mount asks for one. */
  function StartupCommand(mode: int): (cmd: seq<Byte>)
    ensures |cmd| == 4 && cmd[0] == 'b' && cmd[2] == TERMINATOR && cmd[3] == NUL
    ensures cmd[1] in "CWR"
  {
    if mode == WARM_START then "bW#" + [NUL]
    else if mode == WARM_RESTART then "bR#" + [NUL]
    else "bC#" + [NUL]
  }

  /** The command that sends the mount to the selected park position. */
  function ParkCommand(option: int): (cmd: seq<Byte>)
    ensures |cmd| == 5 && cmd[..3] == "#:h" && cmd[4] == TERMINATOR
    ensures cmd != UNPARK_COMMAND
  {
    if option == PARK_STARTUP then "#:hC#"
    else if option == PARK_ZENITH then "#:hZ#"
    else "#:hP#"
  }

  /** The answers to the slew query that mean the slew is over: T, G and N;
      every other byte means the mount is still moving. */
  function SlewDone(b: Byte): (done: bool)
    ensures done <==> b in "TGN"
  {
    b == 'T' || b == 'G' || b == 'N'
  }

  /** The pier side the first byte of the pier query's answer stands for: east
      for E, west for anything else, never unknown. */
  function SideOf(b: Byte): (side: PierSide)
    ensures side != PierUnknown
    ensures side == PierEast <==> b == 'E'
  {
    if b == 'E' then PierEast else PierWest
  }

  /** An answer to the probe that asks for a startup mode: a terminated answer
      whose first byte is b. */
  function IsPrompt(r: Reply): (prompt: bool)
    ensures prompt <==> r.Sent? && TERMINATOR in r.data && r.data[0] == 'b'
  {
    var section := TakeSection(r, TERMINATOR);
    section.Some? && section.value[0] == 'b'
  }

  /** An answer to the probe that ends the handshake: a terminated answer that
      is not a prompt. A terminated answer is exactly one of the two. */
  function IsReady(r: Reply): (ready: bool)
    ensures ready <==> r.Sent? && TERMINATOR in r.data && r.data[0] != 'b'
    ensures ready || IsPrompt(r) <==> TakeSection(r, TERMINATOR).Some?
    ensures !(ready && IsPrompt(r))
  {
    var section := TakeSection(r, TERMINATOR);
    section.Some? && section.value[0] != 'b'
  }

  /** checkConnection: probe with ACK, and while the mount asks for a startup
      mode, answer with the selected one and probe again. */
  function Handshake(s: Session): (r: Step)
    ensures r.after.mount == s.mount
    ensures s.link.log <= r.after.link.log
    decreases |s.link.replies|
  {
    var probe := WritePort(FlushPort(s.link), PROBE);
    if !probe.ok then Step(false, s.(link := probe.link))
    else
      var answer := ReadSectionPort(probe.link, TERMINATOR);
      if answer.data.None? then Step(false, s.(link := answer.link))
      else
        var flushed := FlushPort(answer.link);
        if answer.data.value[0] == 'b' then
          var select := WritePort(flushed, StartupCommand(s.mount.startupMode));
          if !select.ok then Step(false, s.(link := select.link))
          else Handshake(s.(link := select.link))
        else Step(true, s.(link := flushed))
  }

  /** isSlewComplete: ask for the slew state and read one byte. The poll
      changes no mount field and consumes at most one answer. */
  function SlewPoll(s: Session): (r: Step)
    ensures r.after.mount == s.mount
    ensures r.after.link.replies == if NextWriteSucceeds(s.link) then Rest(s.link.replies) else s.link.replies
    ensures r.ok ==> NextWriteSucceeds(s.link) && TakeCount(Pending(s.link), 1).Some?
  {
    var query := WritePort(FlushPort(s.link), SLEW_QUERY);
    if !query.ok then Step(false, s.(link := query.link))
    else
      var answer := ReadPort(query.link, 1);
      if answer.data.None? then Step(false, s.(link := answer.link))
      else Step(SlewDone(answer.data.value[0]), s.(link := FlushPort(answer.link)))
  }

  /** syncSideOfPier: ask for the pier side; keep the old side when the
      exchange fails. Only the pier side changes, and it never becomes
      unknown. */
  function PierSync(s: Session): (r: Session)
    ensures r.mount.(pier := s.mount.pier) == s.mount
    ensures r.mount.pier == s.mount.pier || r.mount.pier != PierUnknown
    ensures s.link.log <= r.link.log
  {
    var query := WritePort(FlushPort(s.link), PIER_QUERY);
    if !query.ok then s.(link := query.link)
    else
      var answer := ReadSectionPort(query.link, TERMINATOR);
      if answer.data.None? then s.(link := answer.link)
      else Session(FlushPort(answer.link), s.mount.(pier := SideOf(answer.data.value[0])))
  }

  /** ReadScopeStatus: synchronise the pier side, then hand the session over
      to the generic LX200 status routine `generic`, which is not part of this
      model; its result, and whatever it does to the session, are the
      refresh's. The routine is given the synchronised mount and a log that
      ends with the hand-over. */
  function StatusRefresh(s: Session, generic: Session -> Step): (r: Step)
    ensures exists h: Session ::
      r == generic(h) && h.mount == PierSync(s).mount && h.link.log == PierSync(s).link.log + [Delegated]
  {
    var synced := PierSync(s);
    generic(synced.(link := synced.link.(log := synced.link.log + [Delegated])))
  }

  /** Park: send the park command; only a successful write starts parking.
      No answer is read, and only the track state and park light change. */
  function ParkRequest(s: Session): (r: Step)
    ensures r.after.link.replies == s.link.replies
    ensures r.after.mount.(track := s.mount.track, parkLight := s.mount.parkLight) == s.mount
    ensures r.ok ==> r.after.mount.track == Parking
  {
    var sent := WritePort(FlushPort(s.link), ParkCommand(s.mount.parkOption));
    if !sent.ok then Step(false, s.(link := sent.link))
    else Step(true, Session(sent.link, s.mount.(track := Parking, parkLight := LightBusy)))
  }

  /** UnPark: send the unpark command; a successful write makes the mount idle.
      No answer is read, and only the track state changes. */
  function UnParkRequest(s: Session): (r: Step)
    ensures r.after.link.replies == s.link.replies
    ensures r.after.mount.(track := s.mount.track) == s.mount
    ensures r.ok ==> r.after.mount.track == Idle
  {
    var sent := WritePort(FlushPort(s.link), UNPARK_COMMAND);
    if !sent.ok then Step(false, s.(link := sent.link))
    else Step(true, Session(sent.link, s.mount.(track := Idle)))
  }
}
