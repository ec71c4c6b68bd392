/**
 * Line framing: the frame do_cmd writes, and read_response's classification of a
 * received line (notdoord.py:87-119).  A received line is what readline returns,
 * terminator included; the empty string is what it returns on a timeout.
 */
module Framing {
  import opened Base
  import opened Crc16

  /** What one valid received line amounts to. */
  datatype Line =
    /** Too short to hold a trailer, or a '#' comment: ignored. */
    | Noise
    /** An 'E' notification: the device log has new entries. */
    | Event
    /** A 'Y' notification carrying the pressed key (the body's third character). */
    | Keypad(key: char)
    /** Anything else: the reply to the command in flight. */
    | Reply(body: string)

  /** The line do_cmd writes for a command: payload, 4-digit trailer, newline. */
  function Frame(cmd: string): (f: string)
    ensures |f| == |cmd| + 5
  {
    cmd + CrcStr(cmd) + "\n"
  }

  /** Everything before the trailer and the terminator. */
  function Body(r: string): string
    requires |r| >= 5
  {
    r[..|r| - 5]
  }

  /** The four characters before the terminator. */
  function Trailer(r: string): string
    requires |r| >= 5
  {
    r[|r| - 5..|r| - 1]
  }

  /**
   * read_response's decision for one line.  The two Python IndexErrors (an empty
   * body, a keypad body shorter than 3) are the errors EmptyBody and ShortKeypad.
   */
  function Classify(r: string): (c: Result<Line>)
    ensures c == Failure(Timeout) <==> r == []
    ensures c == Success(Noise) <==> 0 < |r| < 5 || (|r| >= 5 && r[0] == '#')
    ensures c.Success? && !c.value.Noise? ==> |r| >= 5 && Trailer(r) == CrcStr(Body(r))
    ensures c.Success? && c.value.Reply? ==>
      c.value.body == Body(r) && c.value.body != [] && c.value.body[0] !in {'E', 'Y', '#'}
  {
    if |r| == 0 then Failure(Timeout)
    else if |r| < 5 then Success(Noise)
    else if r[0] == '#' then Success(Noise)
    else
      var crc, body := Trailer(r), Body(r);
      if crc != CrcStr(body) then Failure(CrcMismatch(crc, CrcStr(body)))
      else ClassifyBody(body)
  }

  /** What a checked body amounts to, decided by its first character. */
  function ClassifyBody(body: string): (r: Result<Line>)
    ensures r.Failure? <==> body == [] || (body[0] == 'Y' && |body| < 3)
    ensures r == Success(Event) <==> body != [] && body[0] == 'E'
    ensures r.Success? && r.value.Keypad? ==> body[0] == 'Y' && r.value.key == body[2]
    ensures r.Success? && r.value.Reply? ==> r.value.body == body && body[0] != 'E' && body[0] != 'Y'
    ensures r != Success(Noise)
  {
    if body == [] then Failure(EmptyBody)
    else if body[0] == 'E' then Success(Event)
    else if body[0] == 'Y' then
      if |body| < 3 then Failure(ShortKeypad(body)) else Success(Keypad(body[2]))
    else Success(Reply(body))
  }

  /**
   * A frame written by do_cmd passes read_response's split-and-check: its body is
   * the command and its trailer is the command's checksum, so it never raises a
   * checksum mismatch and is classified by the command's first character alone.
   */
  lemma FrameClassified(cmd: string)
    ensures cmd != [] && cmd[0] == '#' ==> Classify(Frame(cmd)) == Success(Noise)
    ensures !(cmd != [] && cmd[0] == '#') ==> Classify(Frame(cmd)) == ClassifyBody(cmd)
    ensures !(Classify(Frame(cmd)).Failure? && Classify(Frame(cmd)).error.CrcMismatch?)
  {
    var f := Frame(cmd);
    assert Body(f) == cmd;
    assert Trailer(f) == CrcStr(cmd);
    if cmd == [] {
      assert f[0] == CrcStr(cmd)[0];
      assert f[0] != '#';
    } else {
      assert f[0] == cmd[0];
    }
  }

  /** A command that starts with none of 'E', 'Y', '#' comes back as a reply with itself as body. */
  lemma FrameIsReply(cmd: string)
    requires cmd != [] && cmd[0] !in {'E', 'Y', '#'}
    ensures Classify(Frame(cmd)) == Success(Reply(cmd))
  {
    FrameClassified(cmd);
  }

  /** A line whose trailer is not the checksum of its body raises, whatever the body says. */
  lemma BadTrailerRaises(r: string)
    requires |r| >= 5 && r[0] != '#' && Trailer(r) != CrcStr(Body(r))
    ensures Classify(r) == Failure(CrcMismatch(Trailer(r), CrcStr(Body(r))))
  {
  }
}
