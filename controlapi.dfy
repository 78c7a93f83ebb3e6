/**
 * The control endpoint of the server (backend/app.py, `control_simulation`):
 * a command `{action, value}` decoded from JSON, its effect on the playback
 * state, the `{status, message}` reply and the `simulation_status` notice
 * broadcast afterwards.
 *
 * START and PAUSE set `running`; RESET stops the playback, rewinds the
 * cursor and zeroes every counter; SPEED accepts `int(value)` in {1, 2, 4};
 * anything else (the frontend's NEXT_STEP among them) is an invalid action.
 * A failure Python does not catch (`int(None)`, `.lower()` on a non-string
 * action) becomes the server's HTTP 500 reply with the state as it was.
 */
module ControlApi {
  import opened Wrappers
  import opened Conversion
  import opened Playback

  datatype ReplyStatus = Ok | Error

  /** The JSON reply: `{status, message}`, or the 500 handler's `internal_server_error`. */
  datatype Reply = Reply(status: ReplyStatus, message: string) | InternalServerError

  /** The `simulation_status` broadcast: `{status: action.lower(), running, speed}`. */
  datatype Notice = Notice(status: string, running: bool, speed: int)

  datatype ControlResult = ControlResult(state: State, reply: Reply, notice: Option<Notice>)

  /** A character's lower-case form: ASCII letters only. */
  function LowerChar(c: char): char {
    if 'A' <= c <= 'Z' then (c as int - 'A' as int + 'a' as int) as char else c
  }

  /** `str.lower()`, restricted to ASCII letters: character by character. */
  function AsciiLower(s: string): (r: string)
    ensures |r| == |s|
    ensures forall i :: 0 <= i < |r| ==> !('A' <= r[i] <= 'Z')
    ensures forall i :: 0 <= i < |s| && !('A' <= s[i] <= 'Z') ==> r[i] == s[i]
    ensures forall i :: 0 <= i < |s| && 'A' <= s[i] <= 'Z' ==> r[i] as int == s[i] as int - 'A' as int + 'a' as int
  {
    seq(|s|, i requires 0 <= i < |s| => LowerChar(s[i]))
  }

  /** Lower-casing twice is lower-casing once. */
  lemma AsciiLowerIdempotent(s: string)
    ensures AsciiLower(AsciiLower(s)) == AsciiLower(s)
  {
    var once := AsciiLower(s);
    assert forall i :: 0 <= i < |once| ==> AsciiLower(once)[i] == once[i];
  }

  /** The action names the endpoint knows. */
  predicate IsKnownAction(action: JsonValue) {
    action == JString("START") || action == JString("PAUSE")
    || action == JString("RESET") || action == JString("SPEED")
  }

  /** Whether SPEED with `value` is accepted: `int(value)` succeeds and is 1, 2 or 4. */
  predicate SpeedAccepted(value: JsonValue) {
    IntOf(value).IntValue? && IntOf(value).n in Speeds
  }

  /** The `if`/`elif` chain on an action name: the new state and the `{status, message}` reply, or a raise. */
  datatype Handled = Handled(next: State, status: ReplyStatus, message: string) | Uncaught

  function Handle(s: State, action: string, value: JsonValue): (h: Handled)
    requires WellFormed(s)
    ensures h.Handled? ==> WellFormed(h.next) && h.next.data == s.data && h.next.totalRecords == s.totalRecords
  {
    if action == "START" then
      Handled(s.(running := true), Ok, "Simulation started.")
    else if action == "PAUSE" then
      Handled(s.(running := false), Ok, "Simulation paused.")
    else if action == "RESET" then
      Handled(s.(running := false, currentIndex := 0, counters := ZeroCounters()), Ok, "Simulation reset.")
    else if action == "SPEED" then
      match IntOf(value)
      case IntValue(speed) =>
        if speed in Speeds then
          Handled(s.(speed := speed), Ok, "Playback speed set to " + DecimalString(speed) + "x.")
        else
          Handled(s, Error, "Invalid speed value.")
      case ValueError => Handled(s, Error, "Invalid speed format.")
      case TypeError => Uncaught
    else
      Handled(s, Error, "Invalid action.")
  }

  /** A failure Python does not catch: the 500 reply, nothing broadcast, the state as it was. */
  function Crash(s: State): ControlResult {
    ControlResult(s, InternalServerError, None)
  }

  /**
   * One POST to the control endpoint. An action that is no string falls
   * through to "Invalid action." and then fails at `.lower()`.
   */
  function ControlSpec(s: State, action: JsonValue, value: JsonValue): (r: ControlResult)
    requires WellFormed(s)
    ensures WellFormed(r.state)
    ensures r.state.data == s.data && r.state.totalRecords == s.totalRecords
  {
    match action
    case JString(name) =>
      (match Handle(s, name, value)
       case Handled(next, status, message) =>
         ControlResult(next, Reply(status, message), Some(Notice(AsciiLower(name), next.running, next.speed)))
       case Uncaught => Crash(s))
    case _ => Crash(s)
  }

  /** A command with a string action: the reply and new state `Handle` chose. */
  lemma HandledCommand(s: State, name: string, value: JsonValue)
    requires WellFormed(s)
    ensures var r := ControlSpec(s, JString(name), value);
      && (Handle(s, name, value).Handled? ==>
            r.state == Handle(s, name, value).next
            && r.reply == Reply(Handle(s, name, value).status, Handle(s, name, value).message))
      && (Handle(s, name, value).Uncaught? ==> r == Crash(s))
  {
  }

  // ---------------------------------------------------------------------
  // Properties of the commands.

  /**
   * The reply is "ok" exactly for the four known actions, SPEED only with
   * an accepted value; it is the 500 reply exactly when the action is no
   * string or SPEED's `int(value)` raises TypeError; and a notice is
   * broadcast, naming the lower-cased action, exactly when there is a JSON
   * reply.
   */
  lemma ControlReplies(s: State, action: JsonValue, value: JsonValue)
    requires WellFormed(s)
    ensures var r := ControlSpec(s, action, value);
      && (r.reply.Reply? && r.reply.status == Ok <==>
            IsKnownAction(action) && (action == JString("SPEED") ==> SpeedAccepted(value)))
      && (r.reply == InternalServerError <==>
            !action.JString? || (action == JString("SPEED") && IntOf(value) == TypeError))
      && (r.reply.Reply? <==> r.notice.Some?)
      && (r.notice.Some? ==>
            action.JString? && r.notice.value == Notice(AsciiLower(action.s), r.state.running, r.state.speed))
  {
    OkExactlyWhenAccepted(s, action, value);
    CrashExactlyWhenUncaught(s, action, value);
    NoticeExactlyWithReply(s, action, value);
    NoticeNamesAction(s, action, value);
  }

  /** The first clause of ControlReplies. */
  lemma OkExactlyWhenAccepted(s: State, action: JsonValue, value: JsonValue)
    requires WellFormed(s)
    ensures var r := ControlSpec(s, action, value);
      r.reply.Reply? && r.reply.status == Ok <==>
        IsKnownAction(action) && (action == JString("SPEED") ==> SpeedAccepted(value))
  {
    if action == JString("SPEED") {
      SpeedOnlyValid(s, value);
    } else if !IsKnownAction(action) {
      UnknownActionRefused(s, action, value);
    }
  }

  /** The second clause of ControlReplies. */
  lemma CrashExactlyWhenUncaught(s: State, action: JsonValue, value: JsonValue)
    requires WellFormed(s)
    ensures var r := ControlSpec(s, action, value);
      r.reply == InternalServerError <==>
        !action.JString? || (action == JString("SPEED") && IntOf(value) == TypeError)
  {
  }

  /** The third clause of ControlReplies. */
  lemma NoticeExactlyWithReply(s: State, action: JsonValue, value: JsonValue)
    requires WellFormed(s)
    ensures var r := ControlSpec(s, action, value);
      r.reply.Reply? <==> r.notice.Some?
  {
  }

  /** The fourth clause of ControlReplies. */
  lemma NoticeNamesAction(s: State, action: JsonValue, value: JsonValue)
    requires WellFormed(s)
    ensures var r := ControlSpec(s, action, value);
      r.notice.Some? ==>
        action.JString? && r.notice.value == Notice(AsciiLower(action.s), r.state.running, r.state.speed)
  {
    match action
    case JString(name) =>
      match Handle(s, name, value) {
        case Handled(next, status, message) =>
        case Uncaught =>
      }
    case _ =>
  }

  /** A command that is not answered "ok" changes nothing. */
  lemma RefusalChangesNothing(s: State, action: JsonValue, value: JsonValue)
    requires WellFormed(s)
    ensures var r := ControlSpec(s, action, value);
      !(r.reply.Reply? && r.reply.status == Ok) ==> r.state == s
  {
  }

  /** RESET stops, rewinds and zeroes every counter, and keeps the speed and the data. */
  lemma ResetClears(s: State, value: JsonValue)
    requires WellFormed(s)
    ensures var r := ControlSpec(s, JString("RESET"), value);
      && !r.state.running && r.state.currentIndex == 0
      && (forall k :: k in r.state.counters ==> r.state.counters[k] == 0)
      && r.state.speed == s.speed && r.state.data == s.data && r.state.totalRecords == s.totalRecords
      && r.reply == Reply(Ok, "Simulation reset.")
  {
  }

  /** SPEED sets the speed to `int(value)` exactly when that is 1, 2 or 4, and otherwise changes nothing. */
  lemma SpeedOnlyValid(s: State, value: JsonValue)
    requires WellFormed(s)
    ensures var r := ControlSpec(s, JString("SPEED"), value);
      && (SpeedAccepted(value) ==>
            r.state == s.(speed := IntOf(value).n) && r.reply.Reply? && r.reply.status == Ok)
      && (!SpeedAccepted(value) ==> r.state == s && !(r.reply.Reply? && r.reply.status == Ok))
      && (IntOf(value) == ValueError ==> r.reply == Reply(Error, "Invalid speed format."))
  {
  }

  /**
   * SPEED with the decimal text of an integer, as the frontend's selector
   * sends it: accepted exactly for 1, 2 and 4 (so "3", "0" and "-1" are
   * refused with the speed unchanged).
   */
  lemma DecimalSpeedChecked(s: State, n: int)
    requires WellFormed(s)
    ensures var r := ControlSpec(s, JString("SPEED"), JString(DecimalString(n)));
      && (n in Speeds ==>
            r.state == s.(speed := n) && r.reply == Reply(Ok, "Playback speed set to " + DecimalString(n) + "x."))
      && (n !in Speeds ==> r.state == s && r.reply == Reply(Error, "Invalid speed value."))
  {
    IntOfDecimalString(n);
    var h := Handle(s, "SPEED", JString(DecimalString(n)));
    if n in Speeds {
      assert h == Handled(s.(speed := n), Ok, "Playback speed set to " + DecimalString(n) + "x.");
    } else {
      assert h == Handled(s, Error, "Invalid speed value.");
    }
  }

  /**
   * Text that `int` refuses with ValueError ("abc", "2.0", "" among them)
   * gets the format error, and the speed is unchanged.
   */
  lemma MalformedSpeedRefused(s: State, t: string)
    requires WellFormed(s)
    requires ParseDecimal(t).None?
    ensures ControlSpec(s, JString("SPEED"), JString(t))
         == ControlResult(s, Reply(Error, "Invalid speed format."), Some(Notice(AsciiLower("SPEED"), s.running, s.speed)))
  {
  }

  /** A missing value makes `int(None)` raise TypeError, which Python does not catch: a 500 reply. */
  lemma MissingSpeedCrashes(s: State)
    requires WellFormed(s)
    ensures ControlSpec(s, JString("SPEED"), JNull) == ControlResult(s, InternalServerError, None)
  {
  }

  /** START twice is START once: same state, same reply, same notice. */
  lemma StartIdempotent(s: State, v: JsonValue, w: JsonValue)
    requires WellFormed(s)
    ensures ControlSpec(ControlSpec(s, JString("START"), v).state, JString("START"), w)
         == ControlSpec(s, JString("START"), w)
  {
  }

  /** PAUSE twice is PAUSE once. */
  lemma PauseIdempotent(s: State, v: JsonValue, w: JsonValue)
    requires WellFormed(s)
    ensures ControlSpec(ControlSpec(s, JString("PAUSE"), v).state, JString("PAUSE"), w)
         == ControlSpec(s, JString("PAUSE"), w)
  {
  }

  /** START and PAUSE touch nothing but `running`. */
  lemma StartPauseOnlyRunning(s: State, v: JsonValue)
    requires WellFormed(s)
    ensures ControlSpec(s, JString("START"), v).state == s.(running := true)
    ensures ControlSpec(s, JString("PAUSE"), v).state == s.(running := false)
  {
  }

  /** An unknown action is refused and changes nothing; the frontend's NEXT_STEP is one. */
  lemma UnknownActionRefused(s: State, action: JsonValue, value: JsonValue)
    requires WellFormed(s)
    requires !IsKnownAction(action)
    ensures var r := ControlSpec(s, action, value);
      && r.state == s
      && (action.JString? ==> r.reply == Reply(Error, "Invalid action."))
      && (!action.JString? ==> r.reply == InternalServerError)
  {
  }

  lemma NextStepRefused(s: State, value: JsonValue)
    requires WellFormed(s)
    ensures ControlSpec(s, JString("NEXT_STEP"), value)
         == ControlResult(s, Reply(Error, "Invalid action."), Some(Notice(AsciiLower("NEXT_STEP"), s.running, s.speed)))
  {
    assert !IsKnownAction(JString("NEXT_STEP"));
  }

  /** Every command but RESET leaves the cursor and the counters where they were. */
  lemma OnlyResetMovesCursor(s: State, action: JsonValue, value: JsonValue)
    requires WellFormed(s)
    requires action != JString("RESET")
    ensures var r := ControlSpec(s, action, value).state;
      r.currentIndex == s.currentIndex && r.counters == s.counters
  {
    if action == JString("START") || action == JString("PAUSE") {
      StartPauseOnlyRunning(s, value);
    } else if action == JString("SPEED") {
      SpeedOnlyValid(s, value);
    } else {
      UnknownActionRefused(s, action, value);
    }
  }

  /** No command breaks the tie between the cursor and the counters. */
  lemma ControlConsistent(s: State, action: JsonValue, value: JsonValue)
    requires Consistent(s)
    ensures Consistent(ControlSpec(s, action, value).state)
  {
    var r := ControlSpec(s, action, value).state;
    if action == JString("RESET") {
      assert r.data[..0] == [];
      assert CountersOf([]) == ZeroCounters();
    } else {
      OnlyResetMovesCursor(s, action, value);
    }
  }
}
