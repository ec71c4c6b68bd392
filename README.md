# notdoord protocol engine, modelled in Dafny

`notdoord.py` runs an electronic door lock over a serial line. Each command it
sends is a short ASCII string followed by a 4-digit CRC-16/XMODEM trailer and a
newline. It then reads lines until one is a reply. Any notification it reads on
the way is recorded:

- `E…` means the device log has new entries.
- `Y…` carries a keypad character.

On top of this exchange the controller builds:

- The heartbeat `P0<time>`, with the time written in a 6-character base-64 code.
- The credential reconciliation: `K0`, then on a mismatch `R0`, one `N0<key>` per key, and `K0` again.
- The event-log drain: `G0` and `C0` until the device answers exactly `V0`.
- The open-day window.
- The keypad policy: `U0` unlocks only while the space is open and the buffer is `#`.
- One pass of the run loop.

The project has six files:

- `base.dfy`: optional values, results, and the errors the controller raises. A
  refusal names the exchange whose reply was wrong.
- `codec64.dfy`: `encode64`/`decode64` and the timestamp code. It includes the
  `encoded_time` and `decode_time` loops as methods proved against `TimeDigits`
  and `TimeValue`.
- `crc16.dfy`: CRC-16/XMODEM as a bit-by-bit function on `bv16` over the UTF-8
  bytes of a string:
  - width 16, polynomial 0x1021, initial value 0, no reflection, no final XOR
    (CRC RevEng catalogue);
  - proved: the catalogue check value `31C3` and the zero residue;
  - adds the `%04X` formatting.
- `framing.dfy`: the frame `do_cmd` writes, and `read_response`'s classification
  of a received line.
- `engine.dfy`: the protocol as functions over a `Session` value. The lemmas
  state what each exchange does:
  - the first reply wins;
  - notifications are recorded in arrival order;
  - the exact command sequences of the drain and of the reconciliation;
  - the window, the keypad policy and the heartbeat deadline.
- `door.dfy`: class `SimpleDoor`, with the controller's fields updated in place.
  Each method, loops included, is proved to return the value and leave the state
  that the engine function prescribes.

The transport is the queue of lines the device will send, in arrival order, as
`readline` returns them (terminator included). An exhausted queue reads as the
empty line, which is a timeout. The output is the log of commands written; each
command goes out on the wire as `Frame(cmd)`. The wall clock, the monotonic
clock, the open-day file's content and the number of reads the `inWaiting`
loop makes are parameters.

Modelling choices:

- When a Python exception is raised, the operation stops there. The model
  returns `Fail`/`Failure` with the state reached at that point.
- The exception messages are the `Refusal` variants. Each variant's comment
  gives the message.
- The two unguarded index operations of `read_response` are the errors
  `EmptyBody` and `ShortKeypad`:
  - `r[0]` on an empty body;
  - `r[2]` on a `Y` body shorter than 3.
- The CRC is computed over the UTF-8 encoding of the string, as `str.encode()`
  produces for the frame itself.
- `decode_time` ORs `decode64(c) << 6*i` into `t`. Before round `i` only bits
  below `6*i` are set, so the OR is the sum that the model computes.
- `open_expires` starts as `None` in the source. Here it starts at 0.0. It is
  only read while `public_open` holds, and it is set whenever `public_open` is
  set.
- "Log event" output is modelled as the sequence `logged`.

## Model

| member | source | states |
|---|---|---|
| Codec64.Encode64 | notdoord.py:15-29 | the fallback `*` is returned exactly for values of 64 and above |
| Codec64.Decode64 | notdoord.py:31-42 | a decoded value is below 64 and encodes back to the same character; a failure reports that character |
| Codec64.Decode64Encode64 | notdoord.py:15-42 | decode64(encode64(v)) == v for every v in 0..63 |
| Codec64.Encode64Alphabet | notdoord.py:15-29 | v is written as the v-th symbol of the alphabet A-Z a-z 0-9 + / |
| Codec64.Decode64Alphabet | notdoord.py:31-42 | decode64 accepts exactly the 64 characters of the alphabet and rejects every other |
| Codec64.FallbackRejected | notdoord.py:25-42 | the fallback `*` that encode64 produces never decodes |
| Codec64.TimeDigits | notdoord.py:44-50 | the code of a timestamp has exactly the requested width and never contains the fallback |
| Codec64.TimeValue | notdoord.py:52-56 | a decoded n-character code is below 64^n |
| Codec64.TimeValueDefined | notdoord.py:52-56 | decode_time succeeds exactly when every character is in the alphabet |
| Codec64.TimeValueFirstBad | notdoord.py:52-56 | a failing decode_time reports the leftmost character outside the alphabet |
| Codec64.TimeDigitsValue | notdoord.py:44-56 | decoding n encoded digits gives back t modulo 64^n |
| Codec64.TimeCodeRoundTrip | notdoord.py:44-56 | encoded_time yields 6 characters that decode to t modulo 2^36 |
| Codec64.EncodedTime | notdoord.py:44-50 | the 6-round loop, least significant 6 bits first, builds the code TimeDigits(t, 6) |
| Codec64.DecodeTime | notdoord.py:52-56 | the decoding loop returns TimeValue(s), raising at the leftmost bad character |
| Crc16.Utf8 | notdoord.py:89-90 | a string of n characters encodes to between n and 4n bytes |
| Crc16.Utf8Concat | notdoord.py:89-90 | the bytes of a + b are the bytes of a followed by those of b |
| Crc16.Crc | notdoord.py:184-185 | the bitwise CRC-16/XMODEM register that stands in for crc16xmodem; its properties are stated by CrcConcat, CrcResidue, CheckValue and CheckTrailerStr |
| Crc16.CrcConcat | notdoord.py:184-185 | continuing the register over b after a is the register over a + b |
| Crc16.CrcResidue | notdoord.py:58-59 | data followed by its own CRC, high byte first, checks to 0 |
| Crc16.CheckValue | notdoord.py:58-59 | the CRC of "123456789" is 0x31C3 and is written "31C3" |
| Crc16.Hex4 | notdoord.py:59 | "%04X" gives exactly 4 upper-case hexadecimal digits |
| Crc16.Hex4Injective | notdoord.py:59 | distinct register values have distinct 4-digit trailers |
| Crc16.Hex4Value | notdoord.py:59 | the four digits, read back in base 16 most significant first, give the value |
| Crc16.CheckBytes | notdoord.py:59 | the UTF-8 bytes of "123456789" are the catalogue's check input |
| Crc16.CheckTrailerStr | notdoord.py:58-59 | crc_str("123456789") is "31C3" |
| Crc16.CrcStr | notdoord.py:58-59 | crc_str has length 4 |
| Crc16.EmptyCrcStr | notdoord.py:58-59 | the empty string has the trailer "0000" |
| Framing.Frame | notdoord.py:89-91 | the frame is the command plus five characters |
| Framing.Classify | notdoord.py:97-118 | timeout exactly for the empty line; noise exactly for short or `#` lines; a notification or reply only with a matching trailer; a reply body is never empty and never starts with E, Y or # |
| Framing.ClassifyBody | notdoord.py:110-118 | a checked body raises exactly when it is empty or a Y body shorter than 3; it is an event exactly for E, a keypad line carries body[2], a reply is the whole body and never starts with E or Y, and it is never noise |
| Framing.FrameClassified | notdoord.py:89-118 | a frame do_cmd writes passes the checksum and is classified by the command's first character |
| Framing.FrameIsReply | notdoord.py:89-118 | a command not starting with E, Y or # comes back as a reply whose body is the command |
| Framing.BadTrailerRaises | notdoord.py:104-109 | a trailer other than the body's checksum raises a CRC mismatch, whatever the body |
| Engine.ReadResponse | notdoord.py:97-119 | one line is consumed; nothing but the queue and the flags changes; an empty queue is a timeout |
| Engine.ReadTimeout | notdoord.py:98-101 | an empty line raises the timeout |
| Engine.ReadNoise | notdoord.py:102-105 | a line shorter than 5 or starting with # returns None and changes nothing but the queue |
| Engine.ReadBadTrailer | notdoord.py:106-109 | a bad trailer raises and records nothing |
| Engine.ReadEventLine | notdoord.py:110-111 | a valid E body sets seen_event and nothing else |
| Engine.ReadKeypadLine | notdoord.py:112-116 | a valid Y body appends its third character to seen_kp, from '' when it was None |
| Engine.Await | notdoord.py:92-95 | the read loop changes only the queue and the flags, and a reply consumes at least one line |
| Engine.DoCmd | notdoord.py:87-95 | exactly the command is appended to the output log; the window and the reported entries are unchanged; a reply consumes at least one line |
| Engine.ReplayEvent | notdoord.py:110-111 | replayed notifications set seen_event exactly when one of them is an event |
| Engine.ReplayKeys | notdoord.py:112-116 | replayed notifications append their keys to seen_kp in arrival order; it becomes non-None exactly when a key arrived |
| Engine.ReplayRest | notdoord.py:110-116 | notifications touch nothing but the two flags |
| Engine.AwaitFirstReply | notdoord.py:92-95 | the reply is the first line classified as a reply; the notifications before it are recorded in order; the queue resumes right after it |
| Engine.AwaitReplyIsFirst | notdoord.py:92-95 | conversely, a returned reply is the first non-notification line, so no notification is ever returned |
| Engine.Expect | notdoord.py:121-125 | passes exactly when do_cmd's reply equals the expected string; a different reply raises the named refusal; errors propagate |
| Engine.SendPing | notdoord.py:177-179 | writes P0 and the 6-character time code, and passes exactly when answered by P1 and the same code; any other reply raises PingRefused and a failure propagates |
| Engine.LogRound | notdoord.py:148-155 | a bare V0 writes only G0; an entry is reported and followed by C0; a raise keeps the reported entries |
| Engine.LogRoundReply | notdoord.py:149-154 | whatever notifications arrive first, a round ends the log exactly when G0 is answered by a bare V0, and otherwise reports r[2:] of the V0 reply |
| Engine.ReadEvent | notdoord.py:147-155 | the drain never changes the window and only appends to the reported entries |
| Engine.ReadEventRefused | notdoord.py:150-151 | a G0 reply not starting with V0 raises LogFetchFailed |
| Engine.ReadEventClearRefused | notdoord.py:149-155 | an entry whose C0 is answered by anything but A0 raises LogClearFailed after the entry was reported, with G0 and C0 written |
| Engine.ReadEventCommands | notdoord.py:147-155 | a drain that reports n entries wrote exactly G0 C0 n times and then G0 |
| Engine.ReadEventDevice | notdoord.py:147-155 | against a device that holds entries, the drain passes, reports exactly r[2:] of each V0 reply in order, and stops after the bare V0 |
| Engine.ReadEventDeviceCommands | notdoord.py:147-155 | against such a device, G0 and C0 are written once per entry, then the final G0 |
| Engine.DeviceLogAnswers | notdoord.py:147-155 | the device's framed V0/A0 answers are exactly the replies the drain expects |
| Engine.KeyHash | notdoord.py:181-187 | the key hash is 4 upper-case hexadecimal digits |
| Engine.KeyHashIsFold | notdoord.py:181-187 | the hash is one register carried over each key and a NUL, in list order, seeded at 0 |
| Engine.KeyStreamAppend | notdoord.py:183-185 | one more key extends the hashed stream by the key's bytes and a NUL |
| Engine.UploadKeys | notdoord.py:209-210 | the upload never changes the window or the reported entries |
| Engine.UploadSent | notdoord.py:209-210 | the upload writes N0<key> for each key in order: all when it passes, a prefix when it raises |
| Engine.UploadRefused | notdoord.py:210 | an N0 answered by anything but A0 raises KeyRefused |
| Engine.ReconcileInSync | notdoord.py:204-206 | when K0 is answered by H0 and the hash, nothing but K0 is written |
| Engine.ReconcileUpload | notdoord.py:204-211 | after a mismatch, the commands are exactly K0, R0, N0<key> for each key, then K0, or a prefix of them when a step raises |
| Engine.ReconcileResetRefused | notdoord.py:208 | a reset not answered by A0 raises ResetRefused and uploads nothing |
| Engine.ReconcileCorrupt | notdoord.py:211 | after a complete upload, a final K0 answered by anything but the hash raises UploadCorrupt |
| Engine.Reconcile | notdoord.py:204-211 | the credential check never changes the window or the reported entries, and a failing K0 ends it; its commands are stated by ReconcileInSync and ReconcileUpload, its refusals by ReconcileResetRefused, UploadRefused and ReconcileCorrupt |
| Engine.Resync | notdoord.py:201-211 | resync never changes the window or the reported entries, and a failing S0 ends it; its outcomes and commands are stated by ResyncAddressRefused, ResyncPingRefused, ResyncReachesKeys and ResyncCommands |
| Engine.ResyncAddressRefused | notdoord.py:202 | an S0 answered by anything but S1 raises AddressRefused with only S0 written |
| Engine.ResyncPingRefused | notdoord.py:202-203 | after S1, a heartbeat not answered by P1 and the same code raises PingRefused and the keys are not checked |
| Engine.ResyncReachesKeys | notdoord.py:202-204 | a resync that passes got S1 and passed the heartbeat, then ran the credential check on that session |
| Engine.ResyncCommands | notdoord.py:201-211 | a resync that passes wrote S0, P0 and the code, then K0 alone, or K0, R0, N0<key> for each key and K0 again |
| Engine.CheckOpenDay | notdoord.py:132-145 | the window is open afterwards exactly when it was open or activated and now is before its expiry; only the window changes |
| Engine.OneHourWindow | notdoord.py:137-145 | a one-hour window opened at t0 is open exactly at times before t0 + 3600 |
| Engine.DoKp | notdoord.py:127-130 | something is written exactly when the space is open and the key is #, and that is U0; otherwise nothing changes |
| Engine.DrainWaiting | notdoord.py:162-163 | the inWaiting loop changes only the queue and the flags |
| Engine.DrainWaitingNotes | notdoord.py:162-163 | when every line read is a notification, they are recorded in arrival order and exactly that many lines are consumed |
| Engine.DrainWaitingReply | notdoord.py:163 | a reply read while draining is discarded, and the drain goes on as if it had not been there |
| Engine.DrainWaitingFails | notdoord.py:163 | a line that raises ends the drain with its error, and no further line is read |
| Engine.EventStage | notdoord.py:164-166 | without a pending event nothing happens; with one, the flag is cleared and the log drained; the window never changes |
| Engine.KeypadStage | notdoord.py:167-170 | without a buffer nothing happens; with one, U0 is written exactly when the window is open and the buffer is #, and otherwise only seen_kp is reset (see KeypadReset, KeypadUnlock) |
| Engine.Heartbeat | notdoord.py:171-175 | before the deadline nothing happens; from it on P0 and the code are written, and the deadline moves, by exactly 5, exactly when the ping passed |
| Engine.Tick | notdoord.py:161-175 | after a pass the deadline is where it was or 5 later, and it moved only on a passing pass that had reached it (see TickDeadline, TickPing, TickDrainFails) |
| Engine.TickDrainFails | notdoord.py:162-163 | a drain that raises ends the pass: no later stage runs and the deadline stays |
| Engine.TickDeadline | notdoord.py:171-175 | the heartbeat deadline moves only by exactly 5 from its previous value, and after a pass it moved exactly when it had been reached |
| Engine.TickPing | notdoord.py:171-175 | a moved deadline means the pass succeeded and its last command was the ping |
| Engine.KeypadReset | notdoord.py:167-170 | seen_kp is reset to None before the policy runs; a buffer that does not unlock writes nothing |
| Engine.KeypadUnlock | notdoord.py:167-170 | an open window and a buffered # write exactly U0 |
| Door.SimpleDoor.constructor | notdoord.py:65-72 | a new controller has written nothing, has no flags and a closed window |
| Door.SimpleDoor.ReadResponse | notdoord.py:97-119 | the in-place update and the result are those of Engine.ReadResponse |
| Door.SimpleDoor.DoCmd | notdoord.py:87-95 | the write and the read loop leave the state and reply of Engine.DoCmd |
| Door.SimpleDoor.DoCmdExpect | notdoord.py:121-125 | leaves the state and outcome of Engine.Expect |
| Door.SimpleDoor.DoKp | notdoord.py:127-130 | leaves the state and outcome of Engine.DoKp |
| Door.SimpleDoor.CheckOpenDay | notdoord.py:132-145 | leaves the state of Engine.CheckOpenDay |
| Door.SimpleDoor.ReadEvent | notdoord.py:147-155 | the G0/C0 loop leaves the state and outcome of Engine.ReadEvent |
| Door.SimpleDoor.SendPing | notdoord.py:177-179 | leaves the state and outcome of Engine.SendPing |
| Door.SimpleDoor.KeyHash | notdoord.py:181-187 | the accumulator loop returns Engine.KeyHash of the keys and changes nothing |
| Door.SimpleDoor.Resync | notdoord.py:201-211 | leaves the state and outcome of Engine.Resync |
| Door.SimpleDoor.Reconcile | notdoord.py:204-211 | leaves the state and outcome of Engine.Reconcile |
| Door.SimpleDoor.UploadKeys | notdoord.py:209-210 | the key loop leaves the state and outcome of Engine.UploadKeys |
| Door.SimpleDoor.DrainWaiting | notdoord.py:162-163 | the inWaiting loop leaves the state and outcome of Engine.DrainWaiting |
| Door.SimpleDoor.RunOnce | notdoord.py:161-175 | one pass of run's loop leaves the state, outcome and deadline of Engine.Tick |
| Door.SimpleDoor.ServiceEvent | notdoord.py:164-166 | seen_event is cleared before the drain; leaves the state of Engine.EventStage |
| Door.SimpleDoor.ServiceKeypad | notdoord.py:167-170 | seen_kp is reset before the policy; leaves the state of Engine.KeypadStage |
| Door.SimpleDoor.Heartbeat | notdoord.py:171-175 | leaves the state, outcome and deadline of Engine.Heartbeat |

## Left out

- The serial port: `OpenSerial`, the `X\n` reset and the quiet-period drain in `resync` (notdoord.py:61-62, 191-199). These are device I/O and timing; the transport is only the line queue and the command log.
- `time.sleep` in `run` and in `resync`: waiting changes no state.
- `time.time()` and `time.monotonic()`: the readings are parameters (`wall`, `now`). One `now` serves all three monotonic readings of a pass (notdoord.py:138, 143, 171).
- Floating point: `open_expires` and `next_tick` are Python floats, and the model uses `real`. So `TickDeadline`'s "exactly 5 later" holds in exact arithmetic, not after float rounding.
- The `.decode()` of `readline` (notdoord.py:98) raises on bytes that are not valid UTF-8. The queue holds decoded strings, so this failure cannot happen in the model.
- `inWaiting`: it counts bytes and is polled again before every read, so lines that arrive during the drain are read too, and a partial line makes a read that waits up to the 30 s timeout (notdoord.py:62, 162-163). The parameter `waiting` is the number of `read_response` calls the loop makes before the poll reports nothing.
- `load_keys` and the reading and unlinking of `/tmp/open-day` (notdoord.py:77-85, 133-141): file access. The keys are a constructor argument. The override is an optional hour count.
- A malformed `/tmp/open-day` content (an `int()` failure): file access.
- The `crc16` extension (notdoord.py:6): a foreign call, replaced by the bitwise CRC-16/XMODEM function.
- The endless `while True` of `run` and `main` (notdoord.py:158-176, 214-220): one pass is modelled (`RunOnce`/`Tick`), and `resync` is modelled on its own.
- `dbg` and `print` output, apart from the reported log entries.
- The bytes written to the port: the output log holds the commands, and `Frame` gives the line each one goes out as.
