# Losmandy Gemini LX200 driver: the protocol core in Dafny

This project models the Gemini-specific layer of the INDI driver for Losmandy
Gemini telescope mounts (`libindi/drivers/telescope/lx200gemini.cpp`). The
layer extends the generic LX200 driver. Every operation is a short exchange
over a serial port: flush, write a command, maybe read an answer, flush, then
classify one byte and update the mount state. The operations are:

- the power-up handshake (`checkConnection`): send ACK (0x06) and read the
  answer up to `#`. If the answer starts with `b`, the mount is waiting for a
  startup mode. The driver answers `bC#`, `bW#` or `bR#` for the selected mode
  and starts the handshake again. Any other first byte means success;
- the slew-completion poll (`isSlewComplete`): send `#:Gv#` and read one byte.
  `T`, `G` or `N` means the slew is over;
- the pier-side query (`syncSideOfPier`): send `#:Gm#` and read up to `#`. `E`
  means east and anything else means west. `ReadScopeStatus` runs this query
  before it hands over to the generic status routine;
- `Park`: send `#:hP#`, `#:hC#` or `#:hZ#` for the selected park position;
- `UnPark`: send `#:hN#`.

Neither `Park` nor `UnPark` reads an answer.

Layout:

- `serial.dfy` (module `Serial`) is the abstract link. A `Link` value holds
  three things: the scripted answers of the device, the scripted outcome of
  each write, and a log of every flush, write and read. The pure steps
  `FlushPort`, `WritePort`, `ReadPort` and `ReadSectionPort` stand for
  `tcflush`, `tty_write`, `tty_read` and `tty_read_section`.
  - A fixed-length read takes its bytes from the next answer.
  - A section read takes everything up to and including the first `#`.
  - A read times out (fails) when the answer is too short or has no `#`, or
    when the port reports an error.
  - An exhausted answer script means the device stays silent. An exhausted
    write script means every further write fails.

  `Bracketed(log)` is the flush discipline: every write comes straight after a
  flush, every read straight after a successful write, and every successful
  read is followed at once by a flush.
- `transport.dfy` (module `Transport`) is class `Port`. It holds the same state
  in fields. `Flush`, `Write`, `Read` and `ReadSection` are one tty call each,
  proved equal to the pure step. `HandOver` and `TakeBack` are not tty calls:
  they mark the hand-over to the generic status routine at line 232 and
  install the port state that routine leaves.
- `gemini.dfy` (module `GeminiProtocol`) holds the protocol as functions over a
  `Session` (the link plus the mount fields): the command tables, the byte
  classifications, and one function per operation. `Handshake` is recursive, as
  `checkConnection` is. It terminates because every attempt consumes one
  scripted answer.
- `properties.dfy` (module `GeminiProperties`) holds the lemmas about those
  functions.
- `driver.dfy` (module `GeminiDriver`) is class `Driver`. It has the source's
  fields: the track state, the pier side, the park switch's state light, and
  the selected startup-mode and park-position indices. Its methods perform the
  exchanges step by step on its `Port`. Each method is proved to produce
  exactly the state the matching function describes, and to keep
  `Valid()` (the port log is `Bracketed`).

Each tty step and each operation is therefore defined twice: once as a
function, which is the reference definition the lemmas are about, and once as
a method that performs it in place and is proved equal to that function.

Two details of the code are kept as written:

- the startup-mode answer is written with length 4 (line 156), so the trailing
  NUL of the C literal goes out with `bC#`, `bW#` or `bR#`;
- the handshake's self-call at line 165 has no retry cap. Only the finite
  answer script bounds it.

Selections are modelled as the index of the switch that is on, or -1 when
none is (what `IUFindOnSwitchIndex` returns). Any index other than
warm start or warm restart selects `bC#`, and any index other than startup or
zenith selects `#:hP#`. The index constants (`COLD_START` = 0, `WARM_START` = 1,
`WARM_RESTART` = 2, `PARK_HOME` = 0, `PARK_STARTUP` = 1, `PARK_ZENITH` = 2) follow
the fill order of the switches. The header `lx200gemini.h` that defines them
is not part of this model.

## Model

| member | source | states |
|---|---|---|
| Serial.TakeCount | libindi/drivers/telescope/lx200gemini.cpp:208 | a read of n bytes succeeds exactly when the answer holds at least n bytes, and it returns the first n |
| Serial.TakeSection | libindi/drivers/telescope/lx200gemini.cpp:129 | a section read succeeds exactly when a `#` arrives; it returns a non-empty prefix of the answer that ends in its first `#` |
| Transport.Port.Flush | libindi/drivers/telescope/lx200gemini.cpp:116 | the flush is logged and nothing else changes |
| Transport.Port.Write | libindi/drivers/telescope/lx200gemini.cpp:120 | the write consumes the next scripted outcome and is logged with the bytes sent |
| Transport.Port.Read | libindi/drivers/telescope/lx200gemini.cpp:208 | a fixed-length read consumes the next answer and returns exactly TakeCount of it |
| Transport.Port.ReadSection | libindi/drivers/telescope/lx200gemini.cpp:129 | a section read consumes the next answer and returns exactly TakeSection of it |
| Transport.Port.HandOver | libindi/drivers/telescope/lx200gemini.cpp:232 | the hand-over to the generic driver is marked in the log |
| Transport.Port.TakeBack | libindi/drivers/telescope/lx200gemini.cpp:232 | the port is left exactly as the generic driver's own exchanges left it |
| GeminiProtocol.StartupCommand | libindi/drivers/telescope/lx200gemini.cpp:147-156 | the startup-mode answer is 4 bytes: `b`, a mode letter C, W or R, `#`, NUL |
| GeminiProtocol.ParkCommand | libindi/drivers/telescope/lx200gemini.cpp:275-291 | the park command is 5 bytes `#:h?#` and never the unpark command |
| GeminiProtocol.Handshake | libindi/drivers/telescope/lx200gemini.cpp:108-185 | the handshake changes no mount field and only appends to the port log |
| GeminiProtocol.SlewDone | libindi/drivers/telescope/lx200gemini.cpp:222 | the slew is over exactly for the bytes T, G and N |
| GeminiProtocol.SideOf | libindi/drivers/telescope/lx200gemini.cpp:270 | `E` means east and every other byte west; the side read is never unknown |
| GeminiProtocol.IsPrompt | libindi/drivers/telescope/lx200gemini.cpp:129-144 | an answer asks for a startup mode exactly when it holds a `#` and its first byte is `b` |
| GeminiProtocol.IsReady | libindi/drivers/telescope/lx200gemini.cpp:129-184 | an answer ends the handshake exactly when it holds a `#` and its first byte is not `b`; a terminated answer is a prompt or ready, never both |
| GeminiProtocol.SlewPoll | libindi/drivers/telescope/lx200gemini.cpp:187-226 | the poll changes no mount field, consumes at most one answer, and reports completion only after a successful write and a one-byte read |
| GeminiProtocol.PierSync | libindi/drivers/telescope/lx200gemini.cpp:235-271 | only the pier side changes, it never becomes unknown, and the port log is only appended to |
| GeminiProtocol.StatusRefresh | libindi/drivers/telescope/lx200gemini.cpp:228-233 | the result is what the generic status routine returns when given the synchronised mount and a log ending with the hand-over |
| GeminiProtocol.ParkRequest | libindi/drivers/telescope/lx200gemini.cpp:273-302 | Park reads no answer, changes only the track state and park light, and a success means the mount is parking |
| GeminiProtocol.UnParkRequest | libindi/drivers/telescope/lx200gemini.cpp:304-325 | UnPark reads no answer, changes only the track state, and a success means the mount is idle |
| GeminiProperties.StartupCommandTable | libindi/drivers/telescope/lx200gemini.cpp:147-152 | cold start sends `bC#`, warm start `bW#`, warm restart `bR#`; every other index sends the cold-start command |
| GeminiProperties.StartupCommandsDistinct | libindi/drivers/telescope/lx200gemini.cpp:147-152 | two selections give the same startup command if and only if they name the same effective mode |
| GeminiProperties.ParkCommandTable | libindi/drivers/telescope/lx200gemini.cpp:275-282 | home sends `#:hP#`, startup `#:hC#`, zenith `#:hZ#`; every other index, including none on, sends the home command |
| GeminiProperties.ParkCommandsDistinct | libindi/drivers/telescope/lx200gemini.cpp:275-282 | two selections give the same park command if and only if they name the same effective position |
| GeminiProperties.HandshakeFailsWithoutAnswer | libindi/drivers/telescope/lx200gemini.cpp:116-135 | a failed ACK write or a failed section read gives false; the log shows that no byte was looked at and no second flush happened |
| GeminiProperties.HandshakeReady | libindi/drivers/telescope/lx200gemini.cpp:137-184 | any first byte other than `b` gives true after flush, ACK, read, flush and no further write |
| GeminiProperties.HandshakePrompt | libindi/drivers/telescope/lx200gemini.cpp:139-165 | on `b` the selected mode's command is written with no flush of its own before it; a failed write gives false, and a successful one runs the whole handshake again |
| GeminiProperties.HandshakeSucceedsIff | libindi/drivers/telescope/lx200gemini.cpp:108-185 | the handshake succeeds if and only if some answer k is ready (it holds a `#` and its first byte is not `b`), every answer before it is a prompt, and the first 2k+1 writes all succeed |
| GeminiProperties.HandshakeWritesOnly | libindi/drivers/telescope/lx200gemini.cpp:118-165 | the handshake writes nothing but ACK and the selected mode's command |
| GeminiProperties.HandshakeBracketed | libindi/drivers/telescope/lx200gemini.cpp:116-165 | every exchange of the handshake, retries included, is bracketed by flushes |
| GeminiProperties.HandshakeWarmRestartScenario | libindi/drivers/telescope/lx200gemini.cpp:144-165 | with warm restart selected, the answers `b#` then `G#` give success, with `bR#` sent between the two probes |
| GeminiProperties.SlewPollResult | libindi/drivers/telescope/lx200gemini.cpp:187-226 | the slew is complete if and only if the query write succeeds and the one byte read is T, G or N; exactly one byte is read, and no mount field changes |
| GeminiProperties.SlewPollBracketed | libindi/drivers/telescope/lx200gemini.cpp:197-218 | the slew poll is bracketed by flushes |
| GeminiProperties.PierSyncResult | libindi/drivers/telescope/lx200gemini.cpp:235-271 | after a successful query the side is east if and only if the first byte is `E`, and west otherwise; on a write or read failure the mount is unchanged; no other field ever changes; the log holds flush, query, the section read once the write succeeds, and a flush only after a successful read |
| GeminiProperties.PierSyncBracketed | libindi/drivers/telescope/lx200gemini.cpp:228-266 | the pier query, and the hand-over after it, are bracketed by flushes |
| GeminiProperties.StatusRefreshOrder | libindi/drivers/telescope/lx200gemini.cpp:228-233 | the generic status routine is called only after the whole pier exchange, on the synchronised mount, with the hand-over last in the log; its result and its effect are the refresh's |
| GeminiProperties.ParkRequestResult | libindi/drivers/telescope/lx200gemini.cpp:273-302 | Park writes the selected command after a flush and reads nothing; it succeeds if and only if the write does; only then does it set parking and the busy light, and otherwise nothing changes |
| GeminiProperties.UnParkRequestResult | libindi/drivers/telescope/lx200gemini.cpp:304-325 | UnPark writes `#:hN#` after a flush and reads nothing; on success the mount is idle whatever its state before; on failure nothing changes |
| GeminiProperties.UnParkIdempotent | libindi/drivers/telescope/lx200gemini.cpp:315-324 | unparking again after a successful unpark leaves the mount state as it was |
| GeminiProperties.ParkingBracketed | libindi/drivers/telescope/lx200gemini.cpp:289-315 | Park and UnPark write only straight after a flush |
| GeminiDriver.Driver.constructor | libindi/drivers/telescope/lx200gemini.cpp:30-35 | a new driver owns the given port, keeps its flush discipline, holds the given selections, and starts idle with the pier side unknown and the park light idle |
| GeminiDriver.Driver.CheckConnection | libindi/drivers/telescope/lx200gemini.cpp:108-185 | the recursive method returns and leaves exactly what Handshake describes, and it keeps the flush discipline |
| GeminiDriver.Driver.IsSlewComplete | libindi/drivers/telescope/lx200gemini.cpp:187-226 | the method does what SlewPoll describes: true if and only if the write succeeds and the byte read is T, G or N |
| GeminiDriver.Driver.SyncSideOfPier | libindi/drivers/telescope/lx200gemini.cpp:235-271 | the method does what PierSync describes: the side is set from the first byte of a successful answer, and otherwise kept |
| GeminiDriver.Driver.ReadScopeStatus | libindi/drivers/telescope/lx200gemini.cpp:228-233 | the method does what StatusRefresh describes: it syncs the pier side, hands over, and takes back the port and mount fields as the generic routine leaves them (through `Resume`); it stays valid when that routine keeps the flush discipline |
| GeminiDriver.Driver.Resume | libindi/drivers/telescope/lx200gemini.cpp:232 | the port and every mount field become exactly the session the generic status routine leaves, and a bracketed log keeps the driver valid |
| GeminiDriver.Driver.Park | libindi/drivers/telescope/lx200gemini.cpp:273-302 | the method does what ParkRequest describes: on success the mount is parking and the light busy, and on failure nothing changes |
| GeminiDriver.Driver.UnPark | libindi/drivers/telescope/lx200gemini.cpp:304-325 | the method does what UnParkRequest describes: on success the track state is idle, and on failure it is unchanged |

## Left out

- INDI property and switch plumbing is not modelled: `ISGetProperties`, `initProperties`, `updateProperties`, `ISNewSwitch`, `saveConfigItems`, `getDefaultName` and the version and capability setup of the constructor (lines 30-106 and 327-335). It only connects the driver to the INDI bus. It also has defects that this model does not carry:
  - `initProperties` ends without a `return`;
  - it fills `ParkOptionsSP` while the rest of the driver uses `ParkOptionSP` (lines 58 and 100);
  - it indexes the startup-mode switches with the `PARK_*` constants (lines 61-62).
- Real tty behaviour is abstracted into the scripted link. This covers `tcflush`, `tty_write`, `tty_read`, `tty_read_section`, the wall-clock timeout `GEMINI_TIMEOUT` and `tty_error_msg`. The model keeps only success or failure, the bytes taken, and the order of the calls. A flush does not remove scripted answers, because each answer stands for what the next read receives.
- Logging through `DEBUG` and `DEBUGF` has no effect on behaviour and is not modelled.
- The generic LX200 driver is not part of this model. `LX200Generic::ReadScopeStatus` is the parameter `generic`: an arbitrary function from the session it is handed to its result and the session it leaves, so it may change any mount field and exchange anything on the port. `Delegated` in the log marks the hand-over. `setPierSide` is modelled as an assignment to the pier-side field; publishing that field to clients is left out.
- GeminiDriver.Driver.ReadScopeStatus: keeping `Valid()` needs the generic routine to keep the flush discipline (`KeepsBracketed`), which its code, not part of this model, would have to show.
- GeminiDriver.Driver.constructor: the initial track state, pier side and park light (idle, unknown, idle) are not taken from the source. The INDI base classes, which are not part of this model, set them.
- The fixed two-byte response buffers are not modelled. Answers are sequences, and the driver looks at their first byte. In the C code, `tty_read_section` can overrun these buffers (lines 111 and 240). Line 264 overwrites the last byte read with NUL; when the answer is just `#`, that byte is the first one, and neither `#` nor NUL is `E`, so the pier side is west either way.
- The selected startup mode and park position are taken as given indices. How they are chosen and stored is left out with the property plumbing.
