/**
 * The server's global playback state (backend/app.py, `SIMULATION_STATE`
 * and `STAT_COUNTERS`) as an object whose fields the handlers update in
 * place: `load_data`, one iteration of `simulation_runner`, and
 * `control_simulation` with its loop that zeroes the counters.
 *
 * Each method is proved against the value-level definition in Playback or
 * ControlApi, whose properties are proved there.
 */
module Server {
  import opened Wrappers
  import opened Telemetry
  import opened Conversion
  import opened Playback
  import opened ControlApi

  class Simulation {
    var running: bool
    var speed: int
    var currentIndex: nat
    var totalRecords: nat
    var data: seq<RawRow>
    var counters: map<CounterKey, nat>

    /** The fields as a value. */
    function Snapshot(): State
      reads this
    {
      State(running, speed, currentIndex, totalRecords, data, counters)
    }

    ghost predicate Valid()
      reads this
    {
      WellFormed(Snapshot())
    }

    /** The module-level initialisation of both dictionaries. */
    constructor ()
      ensures Snapshot() == Initial()
      ensures Valid() && Consistent(Snapshot())
    {
      running := false;
      speed := 1;
      currentIndex := 0;
      totalRecords := 0;
      data := [];
      counters := map[RedAlerts := 0, OrangeAlerts := 0, YellowAlerts := 0, BlueAlerts := 0, TotalEvents := 0];
    }

    /** `load_data`: `file` is the parsed CSV, `None` when the file is missing. */
    method LoadData(file: Option<seq<RawRow>>)
      requires Valid()
      modifies this
      ensures Snapshot() == Loaded(old(Snapshot()), file)
      ensures Valid()
    {
      match file
      case Some(rows) =>
        data := rows;
        totalRecords := |data|;
      case None =>
        data := [];
        totalRecords := 0;
    }

    /** One iteration of the runner loop, without the sleeps; the returned outcome is what it emits. */
    method Step() returns (out: Outcome)
      requires Valid()
      modifies this
      ensures Snapshot() == StepSpec(old(Snapshot())).state
      ensures out == StepSpec(old(Snapshot())).out
      ensures Valid()
      ensures old(Consistent(Snapshot())) ==> Consistent(Snapshot())
    {
      ghost var s := Snapshot();
      if Consistent(s) {
        StepConsistent(s);
      }
      if running {
        if currentIndex < totalRecords {
          var event := ToEvent(data[currentIndex]);
          var processed := Decide(event);
          CountAlert(processed.alert);
          currentIndex := currentIndex + 1;
          out := Emitted(processed);
        } else {
          running := false;
          out := Finished;
        }
      } else {
        out := Idle;
      }
    }

    /** `n` iterations of the runner loop (which, in the server, never stops), and what each sent out. */
    method RunFor(n: nat) returns (trace: seq<Outcome>)
      requires Valid()
      modifies this
      ensures Snapshot() == Run(old(Snapshot()), n).state
      ensures trace == Run(old(Snapshot()), n).trace
      ensures Valid()
    {
      ghost var s0 := Snapshot();
      ghost var cur := s0;
      trace := [];
      var left := n;
      while left > 0
        invariant Valid() && cur == Snapshot()
        invariant Run(s0, n).state == Run(cur, left).state
        invariant Run(s0, n).trace == trace + Run(cur, left).trace
      {
        ghost var next := StepSpec(cur);
        ghost var rest := Run(next.state, left - 1);
        RunUnfold(cur, left);
        var out := Step();
        assert trace + Run(cur, left).trace == (trace + [out]) + rest.trace;
        trace := trace + [out];
        left := left - 1;
        cur := next.state;
      }
    }

    /** The runner's counter updates for one classified event: its colour's counter, if any, and `total_events`. */
    method CountAlert(alert: Alert)
      requires HasAllKeys(counters)
      modifies this
      ensures counters == Tally(old(counters), alert)
      ensures running == old(running) && speed == old(speed) && currentIndex == old(currentIndex)
      ensures totalRecords == old(totalRecords) && data == old(data)
    {
      if alert == Red {
        counters := counters[RedAlerts := counters[RedAlerts] + 1];
      } else if alert == Orange {
        counters := counters[OrangeAlerts := counters[OrangeAlerts] + 1];
      } else if alert == Yellow {
        counters := counters[YellowAlerts := counters[YellowAlerts] + 1];
      } else if alert == Blue {
        counters := counters[BlueAlerts := counters[BlueAlerts] + 1];
      }
      counters := counters[TotalEvents := counters[TotalEvents] + 1];
    }

    /** `for key in STAT_COUNTERS: STAT_COUNTERS[key] = 0`. */
    method ResetCounters()
      modifies this
      ensures counters.Keys == old(counters.Keys)
      ensures forall k :: k in counters ==> counters[k] == 0
      ensures running == old(running) && speed == old(speed) && currentIndex == old(currentIndex)
      ensures totalRecords == old(totalRecords) && data == old(data)
    {
      var todo := counters.Keys;
      while todo != {}
        invariant todo <= counters.Keys
        invariant counters.Keys == old(counters.Keys)
        invariant forall k :: k in counters ==> counters[k] == if k in todo then old(counters[k]) else 0
        invariant running == old(running) && speed == old(speed) && currentIndex == old(currentIndex)
        invariant totalRecords == old(totalRecords) && data == old(data)
        decreases todo
      {
        var key :| key in todo;
        counters := counters[key := 0];
        todo := todo - {key};
      }
    }

    /**
     * The `if`/`elif` chain of the control endpoint: the state change and
     * the reply it prepares. `InternalServerError` stands for the TypeError
     * that `int(value)` raises, which the handler does not catch.
     */
    method Apply(action: JsonValue, value: JsonValue) returns (reply: Reply)
      requires Valid()
      modifies this
      ensures Snapshot() == ControlSpec(old(Snapshot()), action, value).state
      ensures action.JString? ==> reply == ControlSpec(old(Snapshot()), action, value).reply
    {
      ghost var s := Snapshot();
      if action.JString? {
        HandledCommand(s, action.s, value);
      }
      if action == JString("START") {
        running := true;
        reply := Reply(Ok, "Simulation started.");
      } else if action == JString("PAUSE") {
        running := false;
        reply := Reply(Ok, "Simulation paused.");
      } else if action == JString("RESET") {
        running := false;
        currentIndex := 0;
        ResetCounters();
        AllZeroIsZeroCounters(counters);
        reply := Reply(Ok, "Simulation reset.");
      } else if action == JString("SPEED") {
        reply := SetSpeed(action, value);
      } else {
        reply := Reply(Error, "Invalid action.");
      }
    }

    /** The SPEED branch: `int(value)`, accepted when it is 1, 2 or 4. */
    method SetSpeed(action: JsonValue, value: JsonValue) returns (reply: Reply)
      requires Valid() && action == JString("SPEED")
      modifies this
      ensures Snapshot() == ControlSpec(old(Snapshot()), action, value).state
      ensures reply == ControlSpec(old(Snapshot()), action, value).reply
    {
      HandledCommand(Snapshot(), "SPEED", value);
      match IntOf(value)
      case IntValue(n) =>
        if n in Speeds {
          speed := n;
          reply := Reply(Ok, "Playback speed set to " + DecimalString(n) + "x.");
        } else {
          reply := Reply(Error, "Invalid speed value.");
        }
      case ValueError =>
        reply := Reply(Error, "Invalid speed format.");
      case TypeError =>
        reply := InternalServerError;
    }

    /**
     * One POST to the control endpoint: the reply, and the
     * `simulation_status` notice broadcast after it (`None` when the
     * handler fails before the broadcast).
     */
    method Control(action: JsonValue, value: JsonValue) returns (reply: Reply, notice: Option<Notice>)
      requires Valid()
      modifies this
      ensures ControlResult(Snapshot(), reply, notice) == ControlSpec(old(Snapshot()), action, value)
      ensures Valid()
    {
      ghost var s := Snapshot();
      reply := Apply(action, value);
      ControlReplies(s, action, value);
      if reply == InternalServerError {
        notice := None;
      } else if !action.JString? {
        // `action.lower()` raises AttributeError before the broadcast.
        reply := InternalServerError;
        notice := None;
      } else {
        notice := Some(Notice(AsciiLower(action.s), running, speed));
      }
    }
  }
}
