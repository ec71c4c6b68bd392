/**
 * The controller object (notdoord.py, class SimpleDoor): its fields, updated in
 * place by its methods, each proved to leave the object in the state, and return
 * the value, that the engine's function for it prescribes.  The serial port is
 * the queue of lines still to arrive (input) and the log of commands written
 * (sent); the clocks are parameters.
 */
module Door {
  import opened Base
  import opened Codec64
  import opened Crc16
  import opened Framing
  import opened Engine

  class SimpleDoor {
    var input: seq<string>
    var sent: seq<string>
    var seenEvent: bool
    var seenKp: Option<string>
    var publicOpen: bool
    var openExpires: real
    var logged: seq<string>
    /** The credentials, "CARD PIN" each, in the order they were loaded. */
    var keys: seq<string>

    /** The object's protocol state as an engine session. */
    function State(): Session
      reads this
    {
      Session(input, sent, seenEvent, seenKp, publicOpen, openExpires, logged)
    }

    /**
     * A controller with its keys loaded and a device that will send lines:
     * nothing written, no flags, the space closed.
     */
    constructor (lines: seq<string>, cards: seq<string>)
      ensures State() == Session(lines, [], false, None, false, 0.0, [])
      ensures keys == cards
    {
      input := lines;
      sent := [];
      seenEvent := false;
      seenKp := None;
      publicOpen := false;
      openExpires := 0.0;
      logged := [];
      keys := cards;
    }

    /** read_response: consume one line and act on what it is. */
    method ReadResponse() returns (r: Result<Option<string>>)
      modifies this
      ensures (r, State()) == Engine.ReadResponse(old(State()))
      ensures keys == old(keys)
    {
      var line := NextLine(input);
      input := Rest(input);
      var c := Classify(line);
      if c.Failure? {
        return Failure(c.error);
      }
      match c.value
      case Noise =>
        r := Success(None);
      case Event =>
        seenEvent := true;
        r := Success(None);
      case Keypad(k) =>
        if seenKp.None? {
          seenKp := Some("");
        }
        seenKp := Some(seenKp.value + [k]);
        r := Success(None);
      case Reply(b) =>
        r := Success(Some(b));
    }

    /** do_cmd: write the command, then read until a line yields a reply. */
    method DoCmd(cmd: string) returns (r: Result<string>)
      modifies this
      ensures (r, State()) == Engine.DoCmd(old(State()), cmd)
      ensures keys == old(keys)
    {
      sent := sent + [cmd];
      ghost var s0 := State();
      while true
        invariant Await(State()) == Await(s0) && keys == old(keys)
        decreases |input|
      {
        var x := ReadResponse();
        if x.Failure? {
          return Failure(x.error);
        }
        if x.value.Some? {
          return Success(x.value.value);
        }
      }
    }

    /** do_cmd_expect: raise, naming the exchange, unless the reply is exactly the expected one. */
    method DoCmdExpect(cmd: string, expected: string, step: Refusal) returns (o: Outcome)
      modifies this
      ensures (o, State()) == Expect(old(State()), cmd, expected, step)
      ensures keys == old(keys)
    {
      var r := DoCmd(cmd);
      if r.Failure? {
        o := Fail(r.error);
      } else if r.value != expected {
        o := Fail(Refused(step));
      } else {
        o := Pass;
      }
    }

    /** do_kp: unlock only for '#' while the space is open. */
    method DoKp(kp: string) returns (o: Outcome)
      modifies this
      ensures (o, State()) == Engine.DoKp(old(State()), kp)
      ensures keys == old(keys)
    {
      o := Pass;
      if publicOpen && kp == "#" {
        var r := DoCmd("U0");
        o := ToOutcome(r);
      }
    }

    /** check_open_day, with the override file's hours and the monotonic clock passed in. */
    method CheckOpenDay(now: real, hours: Option<int>)
      modifies this
      ensures State() == Engine.CheckOpenDay(old(State()), now, hours)
      ensures keys == old(keys)
    {
      if hours.Some? {
        publicOpen := true;
        openExpires := now + (hours.value * 3600) as real;
      }
      if publicOpen {
        if now >= openExpires {
          publicOpen := false;
        }
      }
    }

    /** read_event: G0 until the device answers exactly V0, reporting and clearing each entry. */
    method ReadEvent() returns (o: Outcome)
      modifies this
      ensures (o, State()) == Engine.ReadEvent(old(State()))
      ensures keys == old(keys)
    {
      ghost var s0 := State();
      while true
        invariant Engine.ReadEvent(State()) == Engine.ReadEvent(s0) && keys == old(keys)
        decreases |input|
      {
        ghost var before := State();
        var r := DoCmd("G0");
        if r.Failure? {
          return Fail(r.error);
        }
        if !IsLogReply(r.value) {
          return Fail(Refused(LogFetchFailed));
        }
        if r.value == "V0" {
          return Pass;
        }
        logged := logged + [r.value[2..]];
        var c := DoCmdExpect("C0", "A0", LogClearFailed);
        if c.Fail? {
          return c;
        }
        assert LogRound(before) == (Success(Some(r.value[2..])), State());
        ReadEventNext(before);
      }
    }

    /** send_ping, with the wall-clock reading passed in. */
    method SendPing(wall: nat) returns (o: Outcome)
      modifies this
      ensures (o, State()) == Engine.SendPing(old(State()), wall)
      ensures keys == old(keys)
    {
      var t := EncodedTime(wall);
      o := DoCmdExpect("P0" + t, "P1" + t, PingRefused);
    }

    /** key_hash: one register carried over every key and the NUL after it. */
    method KeyHash() returns (h: string)
      ensures h == Engine.KeyHash(keys)
    {
      var crc: bv16 := 0;
      for i := 0 to |keys|
        invariant crc == Crc(0, KeyStream(keys[..i]))
      {
        KeyStreamAppend(keys[..i], keys[i]);
        assert keys[..i + 1] == keys[..i] + [keys[i]];
        CrcConcat(0, KeyStream(keys[..i]), Utf8(keys[i]));
        CrcConcat(0, KeyStream(keys[..i]) + Utf8(keys[i]), [0]);
        crc := Crc(crc, Utf8(keys[i]));
        crc := Crc(crc, [0]);
      }
      assert keys[..|keys|] == keys;
      h := Hex4(crc);
    }

    /** resync from the address claim on: S0, a heartbeat, then the credential check. */
    method Resync(wall: nat) returns (o: Outcome)
      modifies this
      ensures (o, State()) == Engine.Resync(old(State()), keys, wall)
      ensures keys == old(keys)
    {
      o := DoCmdExpect("S0", "S1", AddressRefused);
      if o.Fail? {
        return;
      }
      o := SendPing(wall);
      if o.Fail? {
        return;
      }
      o := Reconcile();
    }

    /** The credential check of resync: K0, and on a mismatch R0, the keys and K0 again. */
    method Reconcile() returns (o: Outcome)
      modifies this
      ensures (o, State()) == Engine.Reconcile(old(State()), keys)
      ensures keys == old(keys)
    {
      var hash := KeyHash();
      var hashResult := "H0" + hash;
      var r := DoCmd("K0");
      if r.Failure? {
        return Fail(r.error);
      }
      o := Pass;
      if r.value != hashResult {
        o := DoCmdExpect("R0", "A0", ResetRefused);
        if o.Fail? {
          return;
        }
        o := UploadKeys();
        if o.Fail? {
          return;
        }
        o := DoCmdExpect("K0", hashResult, UploadCorrupt);
      }
    }

    /** The upload loop of resync: N0<key> for each key in order, each answered by A0. */
    method UploadKeys() returns (o: Outcome)
      modifies this
      ensures (o, State()) == Engine.UploadKeys(old(State()), keys)
      ensures keys == old(keys)
    {
      for i := 0 to |keys|
        invariant keys == old(keys)
        invariant Engine.UploadKeys(State(), keys[i..]) == Engine.UploadKeys(old(State()), keys)
      {
        o := DoCmdExpect("N0" + keys[i], "A0", KeyRefused);
        if o.Fail? {
          return;
        }
        assert keys[i..][1..] == keys[i + 1..];
      }
      o := Pass;
    }

    /** The inWaiting loop of run: waiting is the number of read_response calls it makes. */
    method DrainWaiting(waiting: nat) returns (o: Outcome)
      modifies this
      ensures (o, State()) == Engine.DrainWaiting(old(State()), waiting)
      ensures keys == old(keys)
    {
      var n := waiting;
      while n > 0
        invariant Engine.DrainWaiting(State(), n) == Engine.DrainWaiting(old(State()), waiting) && keys == old(keys)
      {
        var r := ReadResponse();
        if r.Failure? {
          return Fail(r.error);
        }
        n := n - 1;
      }
      o := Pass;
    }

    /**
     * One pass of run's loop, with the clocks, the override file and the number of
     * waiting lines passed in; next is the heartbeat deadline after the pass.
     */
    method RunOnce(now: real, hours: Option<int>, waiting: nat, nextTick: real, wall: nat) returns (o: Outcome, next: real)
      modifies this
      ensures (o, State(), next) == Tick(old(State()), now, hours, waiting, nextTick, wall)
      ensures keys == old(keys)
    {
      next := nextTick;
      CheckOpenDay(now, hours);
      o := DrainWaiting(waiting);
      if o.Fail? {
        return;
      }
      o := ServiceEvent();
      if o.Fail? {
        return;
      }
      o := ServiceKeypad();
      if o.Fail? {
        return;
      }
      o, next := Heartbeat(now, nextTick, wall);
    }

    /** A pending event flag is cleared, then the log is drained. */
    method ServiceEvent() returns (o: Outcome)
      modifies this
      ensures (o, State()) == EventStage(old(State()))
      ensures keys == old(keys)
    {
      o := Pass;
      if seenEvent {
        seenEvent := false;
        o := ReadEvent();
      }
    }

    /** A buffered keypad string is taken, seen_kp reset to None, and the policy applied. */
    method ServiceKeypad() returns (o: Outcome)
      modifies this
      ensures (o, State()) == KeypadStage(old(State()))
      ensures keys == old(keys)
    {
      o := Pass;
      if seenKp.Some? {
        var k := seenKp.value;
        seenKp := None;
        o := DoKp(k);
      }
    }

    /** Ping once the deadline is reached, and move the deadline on by 5. */
    method Heartbeat(now: real, nextTick: real, wall: nat) returns (o: Outcome, next: real)
      modifies this
      ensures (o, State(), next) == Engine.Heartbeat(old(State()), now, nextTick, wall)
      ensures keys == old(keys)
    {
      o, next := Pass, nextTick;
      if now >= nextTick {
        o := SendPing(wall);
        if o.Pass? {
          next := nextTick + 5.0;
        }
      }
    }
  }
}
