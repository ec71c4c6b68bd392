/**
 * The controller's protocol engine as functions over the session state: the
 * command/reply exchange, the credential reconciliation, the event-log drain and
 * one pass of the control loop (notdoord.py, class SimpleDoor).  The transport is
 * the queue of lines the device will send and the log of commands written (each
 * goes out as its Frame); an empty queue reads as a timeout.  Clocks are parameters.
 */
module Engine {
  import opened Base
  import opened Codec64
  import opened Crc16
  import opened Framing

  /** Everything a SimpleDoor holds that the protocol reads or changes. */
  datatype Session = Session(
    input: seq<string>,     // lines still to arrive, in arrival order, as readline returns them
    sent: seq<string>,      // commands written, oldest first; each goes out as Frame(cmd)
    seenEvent: bool,        // seen_event
    seenKp: Option<string>, // seen_kp
    publicOpen: bool,       // public_open
    openExpires: real,      // open_expires, on the monotonic clock
    logged: seq<string>)    // log entries reported by read_event, oldest first

  /** The line readline returns: the next one, or "" when nothing arrives before the timeout. */
  function NextLine(input: seq<string>): string
  {
    if input == [] then "" else input[0]
  }

  function Rest(input: seq<string>): seq<string>
  {
    if input == [] then [] else input[1..]
  }

  /** The fields only the transceiver touches may differ; the others are the same. */
  predicate SameStore(a: Session, b: Session)
  {
    a.sent == b.sent && a.publicOpen == b.publicOpen && a.openExpires == b.openExpires && a.logged == b.logged
  }

  /** The keypad buffer after one more key: seen_kp += key, from '' when it was None. */
  function AddKey(kp: Option<string>, key: char): (r: Option<string>)
    ensures r.Some? && r.value == OrEmpty(kp) + [key]
  {
    Some(OrEmpty(kp) + [key])
  }

  /** What a notification records in the session flags. */
  function Record(s: Session, l: Line): Session
  {
    match l
    case Event => s.(seenEvent := true)
    case Keypad(k) => s.(seenKp := AddKey(s.seenKp, k))
    case _ => s
  }

  // ---------------------------------------------------------------- read_response

  /** read_response: consume one line; a reply body is returned, a notification recorded. */
  function ReadResponse(s: Session): (r: (Result<Option<string>>, Session))
    ensures r.1.input == Rest(s.input) && SameStore(s, r.1)
    ensures s.input == [] ==> r.0 == Failure(Timeout)
  {
    var s1 := s.(input := Rest(s.input));
    match Classify(NextLine(s.input))
    case Failure(e) => (Failure(e), s1)
    case Success(Reply(b)) => (Success(Some(b)), s1)
    case Success(l) => (Success(None), Record(s1, l))
  }

  /** No line, or an empty one, is a timeout. */
  lemma ReadTimeout(s: Session)
    requires NextLine(s.input) == []
    ensures ReadResponse(s).0 == Failure(Timeout)
  {
  }

  /** A short line or a comment is ignored: nothing but the queue changes. */
  lemma ReadNoise(s: Session)
    requires var r := NextLine(s.input); 0 < |r| < 5 || (|r| >= 5 && r[0] == '#')
    ensures ReadResponse(s) == (Success(None), s.(input := Rest(s.input)))
  {
  }

  /** A line whose trailer is not its body's checksum raises, and records nothing. */
  lemma ReadBadTrailer(s: Session)
    requires var r := NextLine(s.input); |r| >= 5 && r[0] != '#' && Trailer(r) != CrcStr(Body(r))
    ensures ReadResponse(s).0.Failure? && ReadResponse(s).0.error.CrcMismatch?
    ensures ReadResponse(s).1 == s.(input := Rest(s.input))
  {
  }

  /** A valid line whose body starts with 'E' sets seen_event and nothing else. */
  lemma ReadEventLine(s: Session)
    requires var r := NextLine(s.input);
      |r| >= 5 && r[0] != '#' && Trailer(r) == CrcStr(Body(r)) && Body(r) != [] && Body(r)[0] == 'E'
    ensures ReadResponse(s) == (Success(None), s.(input := Rest(s.input), seenEvent := true))
  {
  }

  /** A valid line whose body starts with 'Y' appends its third character to seen_kp. */
  lemma ReadKeypadLine(s: Session)
    requires var r := NextLine(s.input);
      |r| >= 5 && r[0] != '#' && Trailer(r) == CrcStr(Body(r)) && |Body(r)| >= 3 && Body(r)[0] == 'Y'
    ensures var b := Body(NextLine(s.input));
      ReadResponse(s) == (Success(None), s.(input := Rest(s.input), seenKp := Some(OrEmpty(s.seenKp) + [b[2]])))
  {
  }

  // ---------------------------------------------------------------- do_cmd

  /** The loop of do_cmd after the frame is written: read until a line yields a reply. */
  function Await(s: Session): (r: (Result<string>, Session))
    ensures SameStore(s, r.1)
    ensures |r.1.input| <= |s.input|
    ensures r.0.Success? ==> |r.1.input| < |s.input|
    decreases |s.input|
  {
    var (res, s1) := ReadResponse(s);
    match res
    case Failure(e) => (Failure(e), s1)
    case Success(Some(b)) => (Success(b), s1)
    case Success(None) => Await(s1)
  }

  /** do_cmd: write the frame, then wait for the reply. */
  function DoCmd(s: Session, cmd: string): (r: (Result<string>, Session))
    ensures r.1.sent == s.sent + [cmd]
    ensures r.1.publicOpen == s.publicOpen && r.1.openExpires == s.openExpires && r.1.logged == s.logged
    ensures |r.1.input| <= |s.input|
    ensures r.0.Success? ==> |r.1.input| < |s.input|
  {
    Await(s.(sent := s.sent + [cmd]))
  }

  /** A line that read_response turns into a notification or ignores. */
  predicate IsNote(line: string)
  {
    Classify(line).Success? && !Classify(line).value.Reply?
  }

  /** The session flags after the notifications among lines, applied in arrival order. */
  function Replay(s: Session, lines: seq<string>): Session
    decreases |lines|
  {
    if lines == [] then s
    else Replay(Step(s, lines[0]), lines[1..])
  }

  /** The keys carried by the keypad lines among lines, in arrival order. */
  function KeysIn(lines: seq<string>): string
    decreases |lines|
  {
    if lines == [] then []
    else KeyOf(lines[0]) + KeysIn(lines[1..])
  }

  /** The key a line carries: one character for a keypad notification, none otherwise. */
  function KeyOf(line: string): string
  {
    match Classify(line)
    case Success(Keypad(k)) => [k]
    case _ => []
  }

  /** Some line among lines is an event notification. */
  predicate HasEvent(lines: seq<string>)
  {
    exists j :: 0 <= j < |lines| && Classify(lines[j]) == Success(Event)
  }

  /** The flags after one line: what Replay does with the first line of its input. */
  function Step(s: Session, line: string): Session
  {
    if IsNote(line) then Record(s, Classify(line).value) else s
  }

  /** Replaying notifications sets seen_event exactly when one of them is an event. */
  lemma {:induction false} ReplayEvent(s: Session, lines: seq<string>)
    ensures Replay(s, lines).seenEvent == (s.seenEvent || HasEvent(lines))
    decreases |lines|
  {
    if lines != [] {
      ReplayEvent(Step(s, lines[0]), lines[1..]);
      if HasEvent(lines[1..]) {
        var j :| 0 <= j < |lines[1..]| && Classify(lines[1..][j]) == Success(Event);
        assert Classify(lines[j + 1]) == Success(Event);
      }
      if HasEvent(lines) {
        var j :| 0 <= j < |lines| && Classify(lines[j]) == Success(Event);
        if j > 0 {
          assert Classify(lines[1..][j - 1]) == Success(Event);
        }
      }
    }
  }

  /** One line's effect on the keypad buffer. */
  lemma StepKeys(s: Session, line: string)
    ensures OrEmpty(Step(s, line).seenKp) == OrEmpty(s.seenKp) + KeyOf(line)
    ensures Step(s, line).seenKp.Some? <==> s.seenKp.Some? || KeyOf(line) != []
  {
    if KeyOf(line) == [] {
      assert OrEmpty(s.seenKp) + KeyOf(line) == OrEmpty(s.seenKp);
    }
  }

  /** Replaying notifications appends their keys to seen_kp in arrival order. */
  lemma {:induction false} ReplayKeys(s: Session, lines: seq<string>)
    ensures OrEmpty(Replay(s, lines).seenKp) == OrEmpty(s.seenKp) + KeysIn(lines)
    ensures Replay(s, lines).seenKp.Some? <==> s.seenKp.Some? || KeysIn(lines) != []
    decreases |lines|
  {
    if lines != [] {
      StepKeys(s, lines[0]);
      ReplayKeys(Step(s, lines[0]), lines[1..]);
      Assoc(OrEmpty(s.seenKp), KeyOf(lines[0]), KeysIn(lines[1..]));
    } else {
      AppendEmpty(OrEmpty(s.seenKp));
    }
  }

  /** Replaying notifications touches nothing but the two flags. */
  lemma {:induction false} ReplayRest(s: Session, lines: seq<string>)
    ensures var t := Replay(s, lines); t.input == s.input && SameStore(s, t)
    decreases |lines|
  {
    if lines != [] {
      ReplayRest(Step(s, lines[0]), lines[1..]);
    }
  }

  /**
   * The reply do_cmd returns is the first line after the command that classifies
   * as a reply; the notifications before it are recorded in arrival order, and
   * the queue resumes right after it.
   */
  lemma {:induction false} AwaitFirstReply(s: Session, k: nat)
    requires k < |s.input| && Classify(s.input[k]).Success? && Classify(s.input[k]).value.Reply?
    requires forall j :: 0 <= j < k ==> IsNote(s.input[j])
    ensures Await(s) == (Success(Classify(s.input[k]).value.body), Replay(s, s.input[..k]).(input := s.input[k + 1..]))
    decreases k
  {
    if k == 0 {
      AwaitReplyNow(s);
    } else {
      var s2 := SkipNote(s, k);
      assert s2.input[k - 1] == s.input[k];
      AwaitFirstReply(s2, k - 1);
      AwaitJoin(s, s2, k);
    }
  }

  /** A reply at the head of the queue is returned at once. */
  lemma AwaitReplyNow(s: Session)
    requires s.input != [] && Classify(s.input[0]).Success? && Classify(s.input[0]).value.Reply?
    ensures Await(s) == (Success(Classify(s.input[0]).value.body), Replay(s, s.input[..0]).(input := s.input[1..]))
  {
    assert s.input[..0] == [];
  }

  /** The reply found after the consumed notification is the one found from the start. */
  lemma AwaitJoin(s: Session, s2: Session, k: nat)
    requires 0 < k < |s.input| && Classify(s.input[k]).Success? && Classify(s.input[k]).value.Reply?
    requires ReadResponse(s) == (Success(None), s2) && s2 == Step(s, s.input[0]).(input := s.input[1..])
    requires Await(s2) == (Success(Classify(s2.input[k - 1]).value.body), Replay(s2, s2.input[..k - 1]).(input := s2.input[k..]))
    ensures Await(s) == (Success(Classify(s.input[k]).value.body), Replay(s, s.input[..k]).(input := s.input[k + 1..]))
  {
    assert s2.input[k - 1] == s.input[k];
    SkipJoin(s, s2, k, s.input[k + 1..]);
    DropShift(s.input, k + 1);
  }

  /**
   * A leading notification is recorded and consumed; the n - 1 lines after it
   * are still notifications.
   */
  lemma SkipNote(s: Session, n: nat) returns (s2: Session)
    requires 0 < n <= |s.input| && forall j :: 0 <= j < n ==> IsNote(s.input[j])
    ensures ReadResponse(s) == (Success(None), s2)
    ensures s2 == Step(s, s.input[0]).(input := s.input[1..])
    ensures forall j :: 0 <= j < n - 1 ==> IsNote(s2.input[j])
  {
    assert IsNote(s.input[0]);
    s2 := Record(s.(input := Rest(s.input)), Classify(s.input[0]).value);
    forall j | 0 <= j < n - 1
      ensures IsNote(s2.input[j])
    {
      assert s2.input[j] == s.input[j + 1];
    }
  }

  /** The replay after the consumed notification is the replay from the start. */
  lemma SkipJoin(s: Session, s2: Session, k: nat, q: seq<string>)
    requires 0 < k <= |s.input| && s2 == Step(s, s.input[0]).(input := s.input[1..])
    ensures Replay(s2, s2.input[..k - 1]).(input := q) == Replay(s, s.input[..k]).(input := q)
  {
    DropShift(s.input, k);
    ReplayInput(Step(s, s.input[0]), s.input[..k][1..], s.input[1..]);
  }

  /** The window before k and the rest from k, seen from the queue without its head. */
  lemma DropShift(q: seq<string>, k: nat)
    requires 1 <= k <= |q|
    ensures q[1..][..k - 1] == q[..k][1..] && q[1..][k - 1..] == q[k..]
  {
  }

  /** Replay never looks at the queue, so it commutes with replacing it. */
  lemma {:induction false} ReplayInput(s: Session, lines: seq<string>, q: seq<string>)
    ensures Replay(s.(input := q), lines) == Replay(s, lines).(input := q)
    decreases |lines|
  {
    if lines != [] {
      ReplayInput(Step(s, lines[0]), lines[1..], q);
    }
  }

  /**
   * Conversely, a reply from do_cmd's loop is the first non-notification line,
   * so no notification is ever returned as the reply.
   */
  lemma {:induction false} AwaitReplyIsFirst(s: Session)
    requires Await(s).0.Success?
    ensures exists k :: 0 <= k < |s.input| && Classify(s.input[k]) == Success(Reply(Await(s).0.value))
                     && (forall j :: 0 <= j < k ==> IsNote(s.input[j]))
    decreases |s.input|
  {
    var (res, s1) := ReadResponse(s);
    if res == Success(None) {
      AwaitReplyIsFirst(s1);
      var k :| 0 <= k < |s1.input| && Classify(s1.input[k]) == Success(Reply(Await(s1).0.value))
               && (forall j :: 0 <= j < k ==> IsNote(s1.input[j]));
      assert s1.input == s.input[1..];
      assert Classify(s.input[k + 1]) == Success(Reply(Await(s).0.value));
      forall j | 0 <= j < k + 1
        ensures IsNote(s.input[j])
      {
        if j > 0 {
          assert s.input[j] == s1.input[j - 1];
        }
      }
    } else {
      assert Classify(s.input[0]) == Success(Reply(Await(s).0.value));
    }
  }

  // ---------------------------------------------------------------- do_cmd_expect

  function ToOutcome<T>(r: Result<T>): (o: Outcome)
    ensures o.Pass? <==> r.Success?
  {
    if r.Success? then Pass else Fail(r.error)
  }

  /** do_cmd_expect: run the command and raise, naming the exchange, unless the reply is exactly expected. */
  function Expect(s: Session, cmd: string, expected: string, step: Refusal): (r: (Outcome, Session))
    ensures r.0 == Pass <==> DoCmd(s, cmd).0 == Success(expected)
    ensures DoCmd(s, cmd).0.Success? && DoCmd(s, cmd).0.value != expected ==> r.0 == Fail(Refused(step))
    ensures DoCmd(s, cmd).0.Failure? ==> r.0 == Fail(DoCmd(s, cmd).0.error)
    ensures r.1.sent == s.sent + [cmd]
    ensures r.1.publicOpen == s.publicOpen && r.1.openExpires == s.openExpires && r.1.logged == s.logged
    ensures |r.1.input| <= |s.input|
    ensures r.0.Pass? ==> |r.1.input| < |s.input|
  {
    var (res, s1) := DoCmd(s, cmd);
    if res.Failure? then (Fail(res.error), s1)
    else if res.value != expected then (Fail(Refused(step)), s1)
    else (Pass, s1)
  }

  // ---------------------------------------------------------------- send_ping

  /** send_ping, with the wall-clock reading passed in: P0<time> must be answered by P1<same time>. */
  function SendPing(s: Session, wall: nat): (r: (Outcome, Session))
    ensures r.1.sent == s.sent + ["P0" + TimeDigits(wall, TimeWidth)]
    ensures r.0 == Pass <==> DoCmd(s, "P0" + TimeDigits(wall, TimeWidth)).0 == Success("P1" + TimeDigits(wall, TimeWidth))
    ensures var d := DoCmd(s, "P0" + TimeDigits(wall, TimeWidth)).0;
      d.Success? && d.value != "P1" + TimeDigits(wall, TimeWidth) ==> r.0 == Fail(Refused(PingRefused))
    ensures var d := DoCmd(s, "P0" + TimeDigits(wall, TimeWidth)).0;
      d.Failure? ==> r.0 == Fail(d.error)
  {
    var t := TimeDigits(wall, TimeWidth);
    Expect(s, "P0" + t, "P1" + t, PingRefused)
  }

  // ---------------------------------------------------------------- sequence facts

  // Dafny proves most of the facts below unaided. They are stated as lemmas so
  // that a larger proof can call them and keep each of its obligations small;
  // asserting the same sequence equalities inline there exhausts the solver.

  predicate IsPrefix(a: seq<string>, b: seq<string>)
  {
    |a| <= |b| && b[..|a|] == a
  }

  /** Appending one command and then the rest is appending both, and the first step is a prefix of that. */
  lemma PrefixStep(a: seq<string>, x: string, rest: seq<string>)
    ensures (a + [x]) + rest == a + ([x] + rest)
    ensures IsPrefix(a, a + [x]) && IsPrefix(a + [x], a + ([x] + rest))
  {
    assert (a + ([x] + rest))[..|a| + 1] == a + [x];
  }

  lemma Assoc<T>(a: seq<T>, b: seq<T>, c: seq<T>)
    ensures (a + b) + c == a + (b + c)
  {
  }

  lemma AppendEmpty<T>(a: seq<T>)
    ensures a + [] == a
  {
  }

  /** Appending the head and then the tail of e is appending e. */
  lemma ConsTail(a: seq<string>, e: seq<string>)
    requires e != []
    ensures a + [e[0]] + e[1..] == a + e
  {
    assert [e[0]] + e[1..] == e;
  }

  /** Dropping from a queue that starts with lines drops from lines. */
  lemma DropAppend(lines: seq<string>, rest: seq<string>, n: nat)
    requires n <= |lines|
    ensures (lines + rest)[n..] == lines[n..] + rest
    ensures forall k :: 0 <= k < n ==> (lines + rest)[k] == lines[k]
  {
  }

  lemma PrefixAppend(a: seq<string>, b: seq<string>)
    ensures IsPrefix(a, a + b)
  {
    assert (a + b)[..|a|] == a;
  }

  lemma TwoSteps(a: seq<string>, x: string, y: string)
    ensures (a + [x]) + [y] == a + [x, y]
  {
  }

  lemma PrefixTrans(a: seq<string>, b: seq<string>, c: seq<string>)
    requires IsPrefix(a, b) && IsPrefix(b, c)
    ensures IsPrefix(a, c)
  {
    assert c[..|a|] == c[..|b|][..|a|];
  }

  // ---------------------------------------------------------------- read_event

  /** A reply that starts with "V0" (r[:2] == 'V0'). */
  predicate IsLogReply(b: string)
  {
    |b| >= 2 && b[..2] == "V0"
  }

  /**
   * One round of read_event's loop: G0, then either the end of the log (exactly
   * V0, Success(None)) or an entry, which is reported and cleared with C0.
   */
  function LogRound(s: Session): (r: (Result<Option<string>>, Session))
    ensures r.1.publicOpen == s.publicOpen && r.1.openExpires == s.openExpires
    ensures |r.1.input| <= |s.input|
    ensures r.0 == Success(None) ==> r.1.sent == s.sent + ["G0"] && r.1.logged == s.logged
    ensures r.0.Success? && r.0.value.Some? ==>
      r.1.sent == s.sent + ["G0", "C0"] && r.1.logged == s.logged + [r.0.value.value] && |r.1.input| < |s.input|
    ensures r.0.Failure? ==> IsPrefix(s.logged, r.1.logged)
  {
    var (g, s1) := DoCmd(s, "G0");
    if g.Failure? then (Failure(g.error), s1)
    else if !IsLogReply(g.value) then (Failure(Refused(LogFetchFailed)), s1)
    else if g.value == "V0" then (Success(None), s1)
    else
      var s2 := s1.(logged := s1.logged + [g.value[2..]]);
      var (c, s3) := Expect(s2, "C0", "A0", LogClearFailed);
      if c.Fail? then (Failure(c.error), s3) else (Success(Some(g.value[2..])), s3)
  }

  /** read_event: fetch with G0 and clear with C0 until the device answers exactly V0. */
  function ReadEvent(s: Session): (r: (Outcome, Session))
    ensures r.1.publicOpen == s.publicOpen && r.1.openExpires == s.openExpires
    ensures |r.1.input| <= |s.input|
    ensures IsPrefix(s.logged, r.1.logged)
    decreases |s.input|
  {
    var (l, s1) := LogRound(s);
    match l
    case Failure(e) => (Fail(e), s1)
    case Success(None) => (Pass, s1)
    case Success(Some(_)) =>
      var r := ReadEvent(s1);
      PrefixTrans(s.logged, s1.logged, r.1.logged);
      r
  }

  /** A G0 reply that does not start with V0 raises LogFetchFailed. */
  lemma ReadEventRefused(s: Session)
    requires DoCmd(s, "G0").0.Success? && !IsLogReply(DoCmd(s, "G0").0.value)
    ensures ReadEvent(s) == (Fail(Refused(LogFetchFailed)), DoCmd(s, "G0").1)
  {
  }

  /**
   * G0 answered by V0 and the entry e, then the clear (sent after e was reported)
   * answered by anything but A0.
   */
  predicate ClearRefused(s: Session, e: string)
  {
    e != [] && DoCmd(s, "G0").0 == Success("V0" + e) &&
    var s1 := DoCmd(s, "G0").1.(logged := s.logged + [e]);
    DoCmd(s1, "C0").0.Success? && DoCmd(s1, "C0").0.value != "A0"
  }

  /**
   * An entry whose clear is not acknowledged with A0 raises LogClearFailed; the
   * entry was reported before the clear was sent.
   */
  lemma ReadEventClearRefused(s: Session, e: string)
    requires ClearRefused(s, e)
    ensures var r := ReadEvent(s);
      r.0 == Fail(Refused(LogClearFailed)) && r.1.logged == s.logged + [e] && r.1.sent == s.sent + ["G0", "C0"]
  {
    LogRoundClearRefused(s, e);
    ReadEventStops(s);
  }

  /**
   * What a round reports is read off the G0 reply, whatever notifications came
   * before it: the end of the log exactly for a bare V0, and otherwise r[2:] of
   * the V0 reply.
   */
  lemma LogRoundReply(s: Session)
    ensures LogRound(s).0 == Success(None) <==> DoCmd(s, "G0").0 == Success("V0")
    ensures LogRound(s).0.Success? && LogRound(s).0.value.Some? ==>
      DoCmd(s, "G0").0 == Success("V0" + LogRound(s).0.value.value)
  {
    var g := DoCmd(s, "G0");
    if g.0.Success? && IsLogReply(g.0.value) && g.0.value != "V0" {
      assert g.0.value == g.0.value[..2] + g.0.value[2..];
    }
  }

  /** A round that raises ends the drain with its error and its session. */
  lemma ReadEventStops(s: Session)
    requires LogRound(s).0.Failure?
    ensures ReadEvent(s) == (Fail(LogRound(s).0.error), LogRound(s).1)
  {
  }

  /** The round of ReadEventClearRefused. */
  lemma LogRoundClearRefused(s: Session, e: string)
    requires ClearRefused(s, e)
    ensures LogRound(s).0 == Failure(Refused(LogClearFailed))
    ensures LogRound(s).1.logged == s.logged + [e]
    ensures LogRound(s).1.sent == s.sent + ["G0", "C0"]
  {
    var g := DoCmd(s, "G0");
    assert ("V0" + e)[..2] == "V0" && ("V0" + e)[2..] == e && "V0" + e != "V0";
    var s2 := g.1.(logged := g.1.logged + [e]);
    assert s2 == DoCmd(s, "G0").1.(logged := s.logged + [e]);
    var c := Expect(s2, "C0", "A0", LogClearFailed);
    assert c.0 == Fail(Refused(LogClearFailed));
    assert LogRound(s) == (Failure(c.0.error), c.1);
    TwoSteps(s.sent, "G0", "C0");
  }

  /** The commands of a drain that reported n entries: G0 and C0 per entry, then the final G0. */
  function DrainCommands(n: nat): (cmds: seq<string>)
    ensures |cmds| == 2 * n + 1
  {
    if n == 0 then ["G0"] else ["G0", "C0"] + DrainCommands(n - 1)
  }

  /**
   * A drain that passes reported n entries and wrote exactly n (G0, C0) pairs and a
   * last G0; entries already reported stay as they were.
   */
  lemma {:induction false} ReadEventCommands(s: Session)
    ensures DrainWrote(s)
    decreases |s.input|
  {
    if LogRound(s).0.Success? && LogRound(s).0.value.Some? {
      ReadEventCommands(LogRound(s).1);
      DrainWroteStep(s);
    } else {
      ReadEventLast(s);
    }
  }

  /** What ReadEventCommands states about one starting state. */
  predicate DrainWrote(s: Session)
  {
    var r := ReadEvent(s);
    r.0.Pass? ==> r.1.sent == s.sent + DrainCommands(|r.1.logged| - |s.logged|)
  }

  /** A round that reported an entry puts G0 and C0 in front of what the rest of the drain writes. */
  lemma DrainWroteStep(s: Session)
    requires LogRound(s).0.Success? && LogRound(s).0.value.Some?
    requires DrainWrote(LogRound(s).1)
    ensures DrainWrote(s)
  {
    ReadEventNext(s);
    var s1 := LogRound(s).1;
    var r := ReadEvent(s1);
    if r.0.Pass? {
      DrainStep(s.sent, |r.1.logged| - |s1.logged|);
    }
  }

  /** After a round that reported an entry, the drain goes on from the new state. */
  lemma ReadEventNext(s: Session)
    requires LogRound(s).0.Success? && LogRound(s).0.value.Some?
    ensures ReadEvent(s) == ReadEvent(LogRound(s).1)
  {
  }

  /** A round that reported no entry ends the drain. */
  lemma ReadEventLast(s: Session)
    requires !(LogRound(s).0.Success? && LogRound(s).0.value.Some?)
    ensures ReadEvent(s).1 == LogRound(s).1
    ensures ReadEvent(s).0.Pass? ==> LogRound(s).0 == Success(None)
  {
  }

  lemma DrainStep(a: seq<string>, n: nat)
    ensures a + ["G0", "C0"] + DrainCommands(n) == a + DrainCommands(n + 1)
  {
    Assoc(a, ["G0", "C0"], DrainCommands(n));
  }

  /** A command answered by the next line, which is a reply. */
  lemma DoCmdReply(s: Session, cmd: string, body: string)
    requires s.input != [] && Classify(s.input[0]) == Success(Reply(body))
    ensures DoCmd(s, cmd) == (Success(body), s.(input := s.input[1..], sent := s.sent + [cmd]))
  {
  }

  /**
   * The lines a device whose log holds entries sends to a drain: for each entry a
   * reply V0<entry> and an acknowledgement A0, then the bare reply V0.  An entry
   * is never empty: V0 alone marks the end of the log.
   */
  predicate LogAnswers(lines: seq<string>, entries: seq<string>)
    decreases |entries|
  {
    if entries == [] then |lines| == 1 && Classify(lines[0]) == Success(Reply("V0"))
    else
      entries[0] != [] && |lines| >= 2 && Classify(lines[0]) == Success(Reply("V0" + entries[0])) &&
      Classify(lines[1]) == Success(Reply("A0")) && LogAnswers(lines[2..], entries[1..])
  }

  /** One round against a device that reports entry e and acknowledges the clear. */
  lemma LogRoundEntry(s: Session, e: string)
    requires e != [] && |s.input| >= 2
    requires Classify(s.input[0]) == Success(Reply("V0" + e)) && Classify(s.input[1]) == Success(Reply("A0"))
    ensures LogRound(s) == (Success(Some(e)), s.(input := s.input[2..], sent := s.sent + ["G0", "C0"], logged := s.logged + [e]))
  {
    DoCmdReply(s, "G0", "V0" + e);
    var s1 := s.(input := s.input[1..], sent := s.sent + ["G0"]);
    assert ("V0" + e)[..2] == "V0" && ("V0" + e)[2..] == e && "V0" + e != "V0";
    var s2 := s1.(logged := s1.logged + [e]);
    DoCmdReply(s2, "C0", "A0");
    assert s2.input[1..] == s.input[2..];
  }

  /** One round against a device whose log is empty. */
  lemma LogRoundEnd(s: Session)
    requires s.input != [] && Classify(s.input[0]) == Success(Reply("V0"))
    ensures LogRound(s) == (Success(None), s.(input := s.input[1..], sent := s.sent + ["G0"]))
  {
    DoCmdReply(s, "G0", "V0");
  }

  /**
   * Against a device that reports the given entries, the drain passes, reports
   * exactly those entries in order and stops after the bare V0, leaving the rest
   * of the queue untouched.
   */
  lemma {:induction false} ReadEventDevice(s: Session, lines: seq<string>, entries: seq<string>, rest: seq<string>)
    requires LogAnswers(lines, entries) && s.input == lines + rest
    ensures var r := ReadEvent(s); r.0 == Pass && r.1.input == rest && r.1.logged == s.logged + entries
    decreases |entries|
  {
    if entries == [] {
      DeviceLogEnd(s, lines, rest);
    } else {
      var s1 := DeviceLogStep(s, lines, entries, rest);
      ReadEventDevice(s1, lines[2..], entries[1..], rest);
      ConsTail(s.logged, entries);
    }
  }

  /** The last round of such a drain. */
  lemma DeviceLogEnd(s: Session, lines: seq<string>, rest: seq<string>)
    requires LogAnswers(lines, []) && s.input == lines + rest
    ensures var r := ReadEvent(s); r.0 == Pass && r.1.input == rest && r.1.logged == s.logged
  {
    DropAppend(lines, rest, 1);
    LogRoundEnd(s);
    ReadEventLast(s);
  }

  /** A round of such a drain that reports the first entry; the drain goes on from s1. */
  lemma DeviceLogStep(s: Session, lines: seq<string>, entries: seq<string>, rest: seq<string>) returns (s1: Session)
    requires entries != [] && LogAnswers(lines, entries) && s.input == lines + rest
    ensures ReadEvent(s) == ReadEvent(s1)
    ensures s1.input == lines[2..] + rest && s1.logged == s.logged + [entries[0]]
    ensures LogAnswers(lines[2..], entries[1..])
  {
    DropAppend(lines, rest, 2);
    LogRoundEntry(s, entries[0]);
    ReadEventNext(s);
    s1 := s.(input := s.input[2..], sent := s.sent + ["G0", "C0"], logged := s.logged + [entries[0]]);
  }

  /** Such a drain writes G0 and C0 for each entry, then the final G0. */
  lemma ReadEventDeviceCommands(s: Session, lines: seq<string>, entries: seq<string>, rest: seq<string>)
    requires LogAnswers(lines, entries) && s.input == lines + rest
    ensures ReadEvent(s).1.sent == s.sent + DrainCommands(|entries|)
  {
    ReadEventDevice(s, lines, entries, rest);
    ReadEventCommands(s);
    var r := ReadEvent(s);
    assert r.0.Pass? && |r.1.logged| - |s.logged| == |entries|;
  }

  /** The lines of such a device as it frames them. */
  function DeviceLog(entries: seq<string>): seq<string>
  {
    if entries == [] then [Frame("V0")] else [Frame("V0" + entries[0]), Frame("A0")] + DeviceLog(entries[1..])
  }

  /** Framed by the device, the log and its acknowledgements are the answers a drain expects. */
  lemma {:induction false} DeviceLogAnswers(entries: seq<string>)
    requires forall k :: 0 <= k < |entries| ==> entries[k] != []
    ensures LogAnswers(DeviceLog(entries), entries)
    decreases |entries|
  {
    if entries == [] {
      FrameIsReply("V0");
    } else {
      FrameIsReply("V0" + entries[0]);
      FrameIsReply("A0");
      DeviceLogAnswers(entries[1..]);
      assert DeviceLog(entries)[2..] == DeviceLog(entries[1..]);
    }
  }

  // ---------------------------------------------------------------- keys

  /** The bytes key_hash feeds to its running CRC: each key, then a NUL, in list order. */
  function KeyStream(keys: seq<string>): seq<bv8>
    decreases |keys|
  {
    if keys == [] then [] else KeyStream(keys[..|keys| - 1]) + Utf8(keys[|keys| - 1]) + [0]
  }

  /** key_hash: the running CRC over the key stream, as 4 upper-case hexadecimal digits. */
  function KeyHash(keys: seq<string>): (h: string)
    ensures |h| == 4 && forall k :: 0 <= k < 4 ==> IsHexDigit(h[k])
  {
    Hex4(Crc(0, KeyStream(keys)))
  }

  /** The running register, updated key by key: crc16xmodem(key, crc), then crc16xmodem(chr(0), crc). */
  function FoldKeys(c: bv16, keys: seq<string>): bv16
    decreases |keys|
  {
    if keys == [] then c else FoldKeys(Crc(Crc(c, Utf8(keys[0])), [0]), keys[1..])
  }

  /** The key hash is a left fold: one register carried across all keys, seeded at 0. */
  lemma {:induction false} KeyHashIsFold(keys: seq<string>)
    ensures Crc(0, KeyStream(keys)) == FoldKeys(0, keys)
  {
    assert [] + keys == keys;
    FoldFrom(0, [], keys);
  }

  lemma {:induction false} FoldFrom(c: bv16, done: seq<string>, todo: seq<string>)
    ensures FoldKeys(Crc(c, KeyStream(done)), todo) == Crc(c, KeyStream(done + todo))
    decreases |todo|
  {
    if todo != [] {
      var next := done + [todo[0]];
      assert next[..|next| - 1] == done;
      CrcConcat(c, KeyStream(done), Utf8(todo[0]));
      CrcConcat(c, KeyStream(done) + Utf8(todo[0]), [0]);
      FoldFrom(c, next, todo[1..]);
      assert next + todo[1..] == done + todo;
    } else {
      assert done + todo == done;
    }
  }

  /** The key stream of a longer list extends that of its prefix. */
  lemma KeyStreamAppend(keys: seq<string>, key: string)
    ensures KeyStream(keys + [key]) == KeyStream(keys) + Utf8(key) + [0]
  {
    assert (keys + [key])[..|keys|] == keys;
  }

  /** The N0 command for each key, in list order. */
  function UploadCommands(keys: seq<string>): (cmds: seq<string>)
    ensures |cmds| == |keys|
  {
    if keys == [] then [] else ["N0" + keys[0]] + UploadCommands(keys[1..])
  }

  /** The upload loop of resync: N0<key> for each key, each answered by A0. */
  function UploadKeys(s: Session, keys: seq<string>): (r: (Outcome, Session))
    ensures r.1.publicOpen == s.publicOpen && r.1.openExpires == s.openExpires && r.1.logged == s.logged
    decreases |keys|
  {
    if keys == [] then (Pass, s)
    else
      var (o, s1) := Expect(s, "N0" + keys[0], "A0", KeyRefused);
      if o.Fail? then (o, s1) else UploadKeys(s1, keys[1..])
  }

  /** The credential check of resync: K0, and on a mismatch R0, the keys and K0 again. */
  function Reconcile(s: Session, keys: seq<string>): (r: (Outcome, Session))
    ensures r.1.publicOpen == s.publicOpen && r.1.openExpires == s.openExpires && r.1.logged == s.logged
    ensures DoCmd(s, "K0").0.Failure? ==> r == (Fail(DoCmd(s, "K0").0.error), DoCmd(s, "K0").1)
  {
    var hash := "H0" + KeyHash(keys);
    var (res, s1) := DoCmd(s, "K0");
    if res.Failure? then (Fail(res.error), s1)
    else if res.value == hash then (Pass, s1)
    else
      var (o2, s2) := Expect(s1, "R0", "A0", ResetRefused);
      if o2.Fail? then (o2, s2)
      else
        var (o3, s3) := UploadKeys(s2, keys);
        if o3.Fail? then (o3, s3) else Expect(s3, "K0", hash, UploadCorrupt)
  }

  /** resync from the address claim on: S0 answered by S1, a heartbeat, the credential check. */
  function Resync(s: Session, keys: seq<string>, wall: nat): (r: (Outcome, Session))
    ensures r.1.publicOpen == s.publicOpen && r.1.openExpires == s.openExpires && r.1.logged == s.logged
    ensures DoCmd(s, "S0").0.Failure? ==> r == (Fail(DoCmd(s, "S0").0.error), DoCmd(s, "S0").1)
  {
    var (o1, s1) := Expect(s, "S0", "S1", AddressRefused);
    if o1.Fail? then (o1, s1)
    else
      var (o2, s2) := SendPing(s1, wall);
      if o2.Fail? then (o2, s2) else Reconcile(s2, keys)
  }

  /**
   * The upload writes N0<key> for each key in order, stopping at the first refusal:
   * all of them when it passes, a prefix of them when it raises.
   */
  lemma {:induction false} UploadSent(s: Session, keys: seq<string>)
    ensures var r := UploadKeys(s, keys);
      IsPrefix(s.sent, r.1.sent) && IsPrefix(r.1.sent, s.sent + UploadCommands(keys)) &&
      (r.0.Pass? ==> r.1.sent == s.sent + UploadCommands(keys))
    decreases |keys|
  {
    if keys != [] {
      var (o, s1) := Expect(s, "N0" + keys[0], "A0", KeyRefused);
      PrefixStep(s.sent, "N0" + keys[0], UploadCommands(keys[1..]));
      if o.Pass? {
        UploadSent(s1, keys[1..]);
        PrefixTrans(s.sent, s1.sent, UploadKeys(s1, keys[1..]).1.sent);
      }
    } else {
      assert s.sent + UploadCommands(keys) == s.sent;
    }
  }

  /** In sync: when K0 is answered by H0 and the key hash, nothing is uploaded. */
  lemma ReconcileInSync(s: Session, keys: seq<string>)
    requires DoCmd(s, "K0").0 == Success("H0" + KeyHash(keys))
    ensures Reconcile(s, keys) == (Pass, DoCmd(s, "K0").1)
    ensures Reconcile(s, keys).1.sent == s.sent + ["K0"]
  {
  }

  /**
   * Out of sync: after a K0 reply other than H0 and the hash, the commands written
   * are exactly R0, N0<key> for each key in order, then K0 — all of them when the
   * reconciliation passes, a prefix of them when it raises.
   */
  lemma ReconcileUpload(s: Session, keys: seq<string>)
    requires DoCmd(s, "K0").0.Success? && DoCmd(s, "K0").0.value != "H0" + KeyHash(keys)
    ensures var r := Reconcile(s, keys);
      var plan := s.sent + ["K0", "R0"] + UploadCommands(keys) + ["K0"];
      IsPrefix(r.1.sent, plan) && (r.0.Pass? ==> r.1.sent == plan)
  {
    var s1 := DoCmd(s, "K0").1;
    var (o2, s2) := Expect(s1, "R0", "A0", ResetRefused);
    var head := s.sent + ["K0", "R0"];
    TwoSteps(s.sent, "K0", "R0");
    PrefixAppend(head, UploadCommands(keys));
    PrefixAppend(head + UploadCommands(keys), ["K0"]);
    if o2.Pass? {
      UploadSent(s2, keys);
      var (o3, s3) := UploadKeys(s2, keys);
      if o3.Fail? {
        PrefixTrans(s3.sent, head + UploadCommands(keys), head + UploadCommands(keys) + ["K0"]);
      }
    } else {
      PrefixTrans(head, head + UploadCommands(keys), head + UploadCommands(keys) + ["K0"]);
    }
  }

  /** After a K0 answer other than the hash, a reset not answered by A0 raises and uploads nothing. */
  lemma ReconcileResetRefused(s: Session, keys: seq<string>)
    requires DoCmd(s, "K0").0.Success? && DoCmd(s, "K0").0.value != "H0" + KeyHash(keys)
    requires DoCmd(DoCmd(s, "K0").1, "R0").0.Success? && DoCmd(DoCmd(s, "K0").1, "R0").0.value != "A0"
    ensures Reconcile(s, keys).0 == Fail(Refused(ResetRefused))
    ensures Reconcile(s, keys).1.sent == s.sent + ["K0", "R0"]
  {
  }

  /** An N0 answered by anything but A0 stops the upload with KeyRefused. */
  lemma UploadRefused(s: Session, keys: seq<string>)
    requires keys != [] && DoCmd(s, "N0" + keys[0]).0.Success? && DoCmd(s, "N0" + keys[0]).0.value != "A0"
    ensures UploadKeys(s, keys) == (Fail(Refused(KeyRefused)), DoCmd(s, "N0" + keys[0]).1)
  {
  }

  /**
   * After a complete upload, a K0 answered by anything but H0 and the hash raises
   * UploadCorrupt, as the last thing written.
   */
  lemma ReconcileCorrupt(s: Session, keys: seq<string>)
    requires DoCmd(s, "K0").0.Success? && DoCmd(s, "K0").0.value != "H0" + KeyHash(keys)
    requires Expect(DoCmd(s, "K0").1, "R0", "A0", ResetRefused).0 == Pass
    requires UploadKeys(Expect(DoCmd(s, "K0").1, "R0", "A0", ResetRefused).1, keys).0 == Pass
    requires var s3 := UploadKeys(Expect(DoCmd(s, "K0").1, "R0", "A0", ResetRefused).1, keys).1;
      DoCmd(s3, "K0").0.Success? && DoCmd(s3, "K0").0.value != "H0" + KeyHash(keys)
    ensures Reconcile(s, keys).0 == Fail(Refused(UploadCorrupt))
  {
  }

  /** An S0 answered by anything but S1 raises AddressRefused before anything else is sent. */
  lemma ResyncAddressRefused(s: Session, keys: seq<string>, wall: nat)
    requires DoCmd(s, "S0").0.Success? && DoCmd(s, "S0").0.value != "S1"
    ensures Resync(s, keys, wall) == (Fail(Refused(AddressRefused)), DoCmd(s, "S0").1)
    ensures Resync(s, keys, wall).1.sent == s.sent + ["S0"]
  {
  }

  /** After the address claim, a heartbeat not answered by P1<same time> raises PingRefused and the keys are not checked. */
  lemma ResyncPingRefused(s: Session, keys: seq<string>, wall: nat)
    requires DoCmd(s, "S0").0 == Success("S1")
    requires var t := TimeDigits(wall, TimeWidth); var d := DoCmd(DoCmd(s, "S0").1, "P0" + t).0;
      d.Success? && d.value != "P1" + t
    ensures Resync(s, keys, wall).0 == Fail(Refused(PingRefused))
    ensures Resync(s, keys, wall).1.sent == s.sent + ["S0", "P0" + TimeDigits(wall, TimeWidth)]
  {
    TwoSteps(s.sent, "S0", "P0" + TimeDigits(wall, TimeWidth));
  }

  /** The session a resync hands to the credential check: S0 and the heartbeat have passed. */
  lemma ResyncReachesKeys(s: Session, keys: seq<string>, wall: nat)
    requires Resync(s, keys, wall).0.Pass?
    ensures var t := TimeDigits(wall, TimeWidth); var s1 := Expect(s, "S0", "S1", AddressRefused);
      s1.0 == Pass && SendPing(s1.1, wall).0 == Pass &&
      SendPing(s1.1, wall).1.sent == s.sent + ["S0", "P0" + t] &&
      Resync(s, keys, wall) == Reconcile(SendPing(s1.1, wall).1, keys)
  {
    TwoSteps(s.sent, "S0", "P0" + TimeDigits(wall, TimeWidth));
  }

  /**
   * A resync that passes wrote S0, P0<time>, then K0 alone when the keys were in
   * sync, or K0, R0, N0<key> for each key in order and K0 again when they were not.
   */
  lemma ResyncCommands(s: Session, keys: seq<string>, wall: nat)
    requires Resync(s, keys, wall).0.Pass?
    ensures var head := s.sent + ["S0", "P0" + TimeDigits(wall, TimeWidth)];
      var r := Resync(s, keys, wall);
      r.1.sent == head + ["K0"] || r.1.sent == head + ["K0", "R0"] + UploadCommands(keys) + ["K0"]
  {
    ResyncReachesKeys(s, keys, wall);
    var s2 := SendPing(Expect(s, "S0", "S1", AddressRefused).1, wall).1;
    if DoCmd(s2, "K0").0 == Success("H0" + KeyHash(keys)) {
      ReconcileInSync(s2, keys);
    } else {
      ReconcileUpload(s2, keys);
    }
  }

  // ---------------------------------------------------------------- the control loop

  /**
   * check_open_day with the file read replaced by hours (Some when an override
   * was requested) and the monotonic clock by now: activate the window, then
   * close it once now has reached its expiry.
   */
  function CheckOpenDay(s: Session, now: real, hours: Option<int>): (r: Session)
    ensures r.openExpires == if hours.Some? then now + (hours.value * 3600) as real else s.openExpires
    ensures r.publicOpen <==> (hours.Some? || s.publicOpen) && now < r.openExpires
    ensures r == s.(publicOpen := r.publicOpen, openExpires := r.openExpires)
  {
    var s1 := if hours.Some? then s.(publicOpen := true, openExpires := now + (hours.value * 3600) as real) else s;
    if s1.publicOpen && now >= s1.openExpires then s1.(publicOpen := false) else s1
  }

  /** A window opened for one hour at t0 is open at every t before t0 + 3600 and closed from then on. */
  lemma OneHourWindow(s: Session, t0: real, t: real)
    ensures CheckOpenDay(CheckOpenDay(s, t0, Some(1)), t, None).publicOpen <==> t < t0 + 3600.0
  {
  }

  /** do_kp: the unlock policy; U0 is sent only for the key '#' while the space is open. */
  function DoKp(s: Session, kp: string): (r: (Outcome, Session))
    ensures r.1.sent != s.sent <==> s.publicOpen && kp == "#"
    ensures s.publicOpen && kp == "#" ==> r.1.sent == s.sent + ["U0"]
    ensures !(s.publicOpen && kp == "#") ==> r == (Pass, s)
  {
    if s.publicOpen && kp == "#" then
      var (res, s1) := DoCmd(s, "U0");
      (ToOutcome(res), s1)
    else (Pass, s)
  }

  /**
   * The inWaiting loop of run: waiting is the number of read_response calls the
   * loop makes before inWaiting() reports nothing more.
   */
  function DrainWaiting(s: Session, waiting: nat): (r: (Outcome, Session))
    ensures SameStore(s, r.1)
    decreases waiting
  {
    if waiting == 0 then (Pass, s)
    else
      var (res, s1) := ReadResponse(s);
      if res.Failure? then (Fail(res.error), s1) else DrainWaiting(s1, waiting - 1)
  }

  /**
   * Draining lines that are all notifications records them in arrival order and
   * consumes exactly the waiting ones.
   */
  lemma {:induction false} DrainWaitingNotes(s: Session, n: nat)
    requires n <= |s.input| && forall j :: 0 <= j < n ==> IsNote(s.input[j])
    ensures DrainWaiting(s, n) == (Pass, Replay(s, s.input[..n]).(input := s.input[n..]))
    decreases n
  {
    if n == 0 {
      assert s.input[..0] == [] && s.input[0..] == s.input;
    } else {
      var s2 := SkipNote(s, n);
      DrainWaitingNotes(s2, n - 1);
      SkipJoin(s, s2, n, s.input[n..]);
      DropShift(s.input, n);
    }
  }

  /** A reply read while draining is discarded: the loop goes on as if the line were not there. */
  lemma DrainWaitingReply(s: Session, n: nat, b: string)
    requires n > 0 && s.input != [] && Classify(s.input[0]) == Success(Reply(b))
    ensures DrainWaiting(s, n) == DrainWaiting(s.(input := s.input[1..]), n - 1)
  {
  }

  /** A line that raises ends the drain with its error; no further line is read. */
  lemma DrainWaitingFails(s: Session, n: nat)
    requires n > 0 && ReadResponse(s).0.Failure?
    ensures DrainWaiting(s, n) == (Fail(ReadResponse(s).0.error), ReadResponse(s).1)
  {
  }

  /** Service a pending event flag: clear it, then drain the log. */
  function EventStage(s: Session): (r: (Outcome, Session))
    ensures !s.seenEvent ==> r == (Pass, s)
    ensures s.seenEvent ==> r == ReadEvent(s.(seenEvent := false))
    ensures r.1.publicOpen == s.publicOpen && r.1.openExpires == s.openExpires
  {
    if s.seenEvent then ReadEvent(s.(seenEvent := false)) else (Pass, s)
  }

  /** Service the keypad buffer: take it, reset seen_kp to None, then apply the policy. */
  function KeypadStage(s: Session): (r: (Outcome, Session))
    ensures s.seenKp.None? ==> r == (Pass, s)
    ensures s.seenKp.Some? ==> (r.1.sent != s.sent <==> s.publicOpen && s.seenKp.value == "#")
    ensures s.seenKp.Some? && !(s.publicOpen && s.seenKp.value == "#") ==> r == (Pass, s.(seenKp := None))
    ensures r.1.publicOpen == s.publicOpen && r.1.openExpires == s.openExpires && r.1.logged == s.logged
  {
    match s.seenKp
    case None => (Pass, s)
    case Some(k) => DoKp(s.(seenKp := None), k)
  }

  /** The heartbeat step: ping once the deadline is reached and move the deadline on by 5. */
  function Heartbeat(s: Session, now: real, nextTick: real, wall: nat): (r: (Outcome, Session, real))
    ensures now < nextTick ==> r == (Pass, s, nextTick)
    ensures now >= nextTick ==> r.1.sent == s.sent + ["P0" + TimeDigits(wall, TimeWidth)]
    ensures r.2 != nextTick <==> now >= nextTick && r.0.Pass?
    ensures r.2 == nextTick || r.2 == nextTick + 5.0
  {
    if now < nextTick then (Pass, s, nextTick)
    else
      var (o, s1) := SendPing(s, wall);
      (o, s1, if o.Pass? then nextTick + 5.0 else nextTick)
  }

  /** One pass of run's loop; the result carries the new next_tick. */
  function Tick(s: Session, now: real, hours: Option<int>, waiting: nat, nextTick: real, wall: nat): (r: (Outcome, Session, real))
    ensures r.2 == nextTick || r.2 == nextTick + 5.0
    ensures r.2 != nextTick ==> r.0.Pass? && now >= nextTick
  {
    var s1 := CheckOpenDay(s, now, hours);
    var (o2, s2) := DrainWaiting(s1, waiting);
    if o2.Fail? then (o2, s2, nextTick)
    else
      var (o3, s3) := EventStage(s2);
      if o3.Fail? then (o3, s3, nextTick)
      else
        var (o4, s4) := KeypadStage(s3);
        if o4.Fail? then (o4, s4, nextTick)
        else Heartbeat(s4, now, nextTick, wall)
  }

  /** A drain that raises ends the pass: no event, keypad or heartbeat stage runs and the deadline stays. */
  lemma TickDrainFails(s: Session, now: real, hours: Option<int>, waiting: nat, nextTick: real, wall: nat)
    requires DrainWaiting(CheckOpenDay(s, now, hours), waiting).0.Fail?
    ensures var d := DrainWaiting(CheckOpenDay(s, now, hours), waiting);
      Tick(s, now, hours, waiting, nextTick, wall) == (d.0, d.1, nextTick)
  {
  }

  /**
   * The heartbeat deadline only ever moves by exactly 5 from its previous value,
   * never to now + 5: after a pass it moved iff the deadline had been reached.
   */
  lemma TickDeadline(s: Session, now: real, hours: Option<int>, waiting: nat, nextTick: real, wall: nat)
    ensures var r := Tick(s, now, hours, waiting, nextTick, wall);
      (r.2 == nextTick || r.2 == nextTick + 5.0) &&
      (r.0.Pass? ==> r.2 == if now < nextTick then nextTick else nextTick + 5.0)
  {
  }

  /** A heartbeat that moves the deadline was the last frame written, and was answered. */
  lemma TickPing(s: Session, now: real, hours: Option<int>, waiting: nat, nextTick: real, wall: nat)
    requires Tick(s, now, hours, waiting, nextTick, wall).2 != nextTick
    ensures var r := Tick(s, now, hours, waiting, nextTick, wall);
      r.0 == Pass && r.1.sent != [] && r.1.sent[|r.1.sent| - 1] == "P0" + TimeDigits(wall, TimeWidth)
  {
  }

  /**
   * The keypad buffer is reset to None before the policy runs: a buffer other than
   * "#" while open is dropped with nothing written, and so is any buffer while closed.
   */
  lemma KeypadReset(s: Session)
    requires s.seenKp.Some? && !(s.publicOpen && s.seenKp.value == "#")
    ensures KeypadStage(s) == (Pass, s.(seenKp := None))
  {
  }

  /** An open window and a buffered "#" unlock: exactly U0 is written. */
  lemma KeypadUnlock(s: Session)
    requires s.publicOpen && s.seenKp == Some("#")
    ensures KeypadStage(s).1.sent == s.sent + ["U0"]
  {
  }
}
