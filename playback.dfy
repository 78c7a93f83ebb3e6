/**
 * The playback state of the server (backend/app.py, `SIMULATION_STATE` and
 * `STAT_COUNTERS`) as a value, and one iteration of the simulation runner's
 * loop as a function on it.
 *
 * While `running`, an iteration classifies the record at `currentIndex`,
 * bumps that colour's counter (none for GREEN) and `total_events`, and moves
 * the cursor on by one; once the cursor has reached the end, it stops the
 * playback and reports `finished` instead. While paused, it does nothing.
 */
module Playback {
  import opened Wrappers
  import opened Telemetry

  /** The keys of `STAT_COUNTERS`. */
  datatype CounterKey = RedAlerts | OrangeAlerts | YellowAlerts | BlueAlerts | TotalEvents

  /** `STAT_COUNTERS` has an entry for every key. */
  predicate HasAllKeys(c: map<CounterKey, nat>) {
    RedAlerts in c && OrangeAlerts in c && YellowAlerts in c && BlueAlerts in c && TotalEvents in c
  }

  /** The speeds `SPEED` accepts; the initial speed is 1. */
  const Speeds: set<int> := {1, 2, 4}

  /** Every counter at zero, as at start-up and after RESET. */
  function ZeroCounters(): (c: map<CounterKey, nat>)
    ensures HasAllKeys(c)
    ensures forall k :: k in c ==> c[k] == 0
  {
    map[RedAlerts := 0, OrangeAlerts := 0, YellowAlerts := 0, BlueAlerts := 0, TotalEvents := 0]
  }

  /** A counter map with every key, each at zero, is `ZeroCounters()`. */
  lemma AllZeroIsZeroCounters(c: map<CounterKey, nat>)
    requires HasAllKeys(c)
    requires forall k :: k in c ==> c[k] == 0
    ensures c == ZeroCounters()
  {
    forall k: CounterKey
      ensures k in c && k in ZeroCounters()
    {
      match k
      case RedAlerts =>
      case OrangeAlerts =>
      case YellowAlerts =>
      case BlueAlerts =>
      case TotalEvents =>
    }
    assert c.Keys == ZeroCounters().Keys;
  }

  /** The colour counter an alert bumps; GREEN has none. */
  function CounterOf(a: Alert): Option<CounterKey> {
    match a
    case Red => Some(RedAlerts)
    case Orange => Some(OrangeAlerts)
    case Yellow => Some(YellowAlerts)
    case Blue => Some(BlueAlerts)
    case Green => None
  }

  /** The counters after one classified event with colour `a`. */
  function Tally(c: map<CounterKey, nat>, a: Alert): (r: map<CounterKey, nat>)
    requires HasAllKeys(c)
    ensures HasAllKeys(r)
    ensures r[TotalEvents] == c[TotalEvents] + 1
  {
    var bumped := match CounterOf(a)
      case Some(k) => c[k := c[k] + 1]
      case None => c;
    bumped[TotalEvents := bumped[TotalEvents] + 1]
  }

  /** `Tally` bumps the alert's own colour counter, if it has one, and leaves the other colours alone. */
  lemma TallyBumpsOne(c: map<CounterKey, nat>, a: Alert)
    requires HasAllKeys(c)
    ensures forall k :: k in c && k != TotalEvents ==>
      k in Tally(c, a) && Tally(c, a)[k] == if CounterOf(a) == Some(k) then c[k] + 1 else c[k]
  {
  }

  /** The colour the decision engine gives a CSV row. */
  function AlertOf(row: RawRow): Alert {
    Decide(ToEvent(row)).alert
  }

  /** How many of `rows` are classified `a`. */
  function Count(rows: seq<RawRow>, a: Alert): (n: nat)
    ensures n <= |rows|
  {
    if rows == [] then 0
    else Count(rows[..|rows| - 1], a) + (if AlertOf(rows[|rows| - 1]) == a then 1 else 0)
  }

  /** The counters that processing exactly `rows`, from zero, produces. */
  function CountersOf(rows: seq<RawRow>): (c: map<CounterKey, nat>)
    ensures HasAllKeys(c)
  {
    map[RedAlerts := Count(rows, Red),
        OrangeAlerts := Count(rows, Orange),
        YellowAlerts := Count(rows, Yellow),
        BlueAlerts := Count(rows, Blue),
        TotalEvents := |rows|]
  }

  /** `SIMULATION_STATE` together with `STAT_COUNTERS`. */
  datatype State = State(
    running: bool,
    speed: int,
    currentIndex: nat,
    totalRecords: nat,
    data: seq<RawRow>,
    counters: map<CounterKey, nat>)

  /** The state at import time, before any data is loaded. */
  function Initial(): (r: State)
    ensures Consistent(r) && r.currentIndex == 0 && r.totalRecords == 0
    ensures !r.running && r.speed == 1
    ensures forall k :: k in r.counters ==> r.counters[k] == 0
  {
    State(false, 1, 0, 0, [], ZeroCounters())
  }

  /** What every operation keeps: the record count matches the data, the counter keys are fixed, the speed is valid. */
  predicate WellFormed(s: State) {
    s.totalRecords == |s.data| && HasAllKeys(s.counters) && s.speed in Speeds
  }

  /** The cursor is within the data and the counters are exactly those of the records before it. */
  predicate Consistent(s: State) {
    WellFormed(s) && s.currentIndex <= s.totalRecords
    && s.counters == CountersOf(s.data[..s.currentIndex])
  }

  /** The post-state of `load_data`: `file` is the parsed CSV, `None` when the file is missing. */
  function Loaded(s: State, file: Option<seq<RawRow>>): (r: State)
    requires WellFormed(s)
    ensures WellFormed(r)
    ensures r.data == (if file.Some? then file.value else [])
    ensures r.totalRecords == |r.data|
    ensures file.None? ==> r.totalRecords == 0
    ensures r.running == s.running && r.speed == s.speed
    ensures r.currentIndex == s.currentIndex && r.counters == s.counters
  {
    var rows := file.GetOr([]);
    s.(data := rows, totalRecords := |rows|)
  }

  // ---------------------------------------------------------------------
  // One iteration of the runner loop.

  /** What an iteration sends out: nothing, a classified event, or `finished`. */
  datatype Outcome = Idle | Emitted(decision: Decision) | Finished

  datatype StepResult = StepResult(state: State, out: Outcome)

  /** One iteration of the simulation runner's loop. */
  function StepSpec(s: State): (r: StepResult)
    requires WellFormed(s)
    ensures WellFormed(r.state)
    ensures r.state.data == s.data && r.state.speed == s.speed
  {
    if !s.running then
      StepResult(s, Idle)
    else if s.currentIndex < s.totalRecords then
      var d := Decide(ToEvent(s.data[s.currentIndex]));
      StepResult(s.(counters := Tally(s.counters, d.alert), currentIndex := s.currentIndex + 1), Emitted(d))
    else
      StepResult(s.(running := false), Finished)
  }

  /**
   * The three cases of an iteration: paused, it changes nothing and sends
   * nothing; running with records left, it sends the next record's decision,
   * bumps `total_events` and exactly the matching colour counter, and
   * advances the cursor; running at the end, it stops and sends `finished`.
   */
  lemma StepCases(s: State)
    requires WellFormed(s)
    ensures var r := StepSpec(s);
      && (!s.running ==> r.state == s && r.out == Idle)
      && (s.running && s.currentIndex < s.totalRecords ==>
            && r.out == Emitted(Decide(ToEvent(s.data[s.currentIndex])))
            && r.state.running
            && r.state.currentIndex == s.currentIndex + 1
            && r.state.counters[TotalEvents] == s.counters[TotalEvents] + 1
            && (forall k :: k in s.counters && k != TotalEvents ==>
                  && k in r.state.counters
                  && r.state.counters[k] == s.counters[k] + (if CounterOf(r.out.decision.alert) == Some(k) then 1 else 0)))
      && (s.running && s.currentIndex >= s.totalRecords ==>
            r.state == s.(running := false) && r.out == Finished)
  {
    if s.running && s.currentIndex < s.totalRecords {
      TallyBumpsOne(s.counters, AlertOf(s.data[s.currentIndex]));
    }
  }

  /** Counting one more row is one `Tally`. */
  lemma CountersOfSnoc(rows: seq<RawRow>, row: RawRow)
    ensures CountersOf(rows + [row]) == Tally(CountersOf(rows), AlertOf(row))
  {
    var rs := rows + [row];
    assert rs[..|rs| - 1] == rows;
  }

  /** An iteration keeps the counters equal to the tally of the records before the cursor. */
  lemma StepConsistent(s: State)
    requires Consistent(s)
    ensures Consistent(StepSpec(s).state)
  {
    var i := s.currentIndex;
    if s.running && i < s.totalRecords {
      assert s.data[..i + 1] == s.data[..i] + [s.data[i]];
      CountersOfSnoc(s.data[..i], s.data[i]);
    }
  }

  /** Every row has exactly one colour, so the five counts add up to the number of rows. */
  lemma {:induction false} CountsAddUp(rows: seq<RawRow>)
    ensures Count(rows, Red) + Count(rows, Orange) + Count(rows, Yellow)
          + Count(rows, Blue) + Count(rows, Green) == |rows|
  {
    if rows != [] {
      CountsAddUp(rows[..|rows| - 1]);
    }
  }

  /** In a consistent state the colour counters never exceed `total_events`, which equals the cursor. */
  lemma ColouredWithinTotal(s: State)
    requires Consistent(s)
    ensures s.counters[TotalEvents] == s.currentIndex
    ensures s.counters[RedAlerts] + s.counters[OrangeAlerts] + s.counters[YellowAlerts]
          + s.counters[BlueAlerts] <= s.counters[TotalEvents]
  {
    CountsAddUp(s.data[..s.currentIndex]);
  }

  /** Loading data into a state whose cursor is at the start leaves it consistent. */
  lemma LoadedConsistent(s: State, file: Option<seq<RawRow>>)
    requires Consistent(s) && s.currentIndex == 0
    ensures Consistent(Loaded(s, file))
  {
    var r := Loaded(s, file);
    assert r.data[..0] == s.data[..0];
  }

  // ---------------------------------------------------------------------
  // Several iterations.

  datatype RunResult = RunResult(state: State, trace: seq<Outcome>)

  /** `n` iterations of the runner loop: the final state and what each iteration sent out. */
  function Run(s: State, n: nat): (r: RunResult)
    requires WellFormed(s)
    ensures WellFormed(r.state) && |r.trace| == n
    decreases n
  {
    if n == 0 then RunResult(s, [])
    else
      var first := StepSpec(s);
      var rest := Run(first.state, n - 1);
      RunResult(rest.state, [first.out] + rest.trace)
  }

  /** What playing `data` from index `i` to the end sends out: each record's event in order, then `finished`. */
  function Replay(data: seq<RawRow>, i: nat): (t: seq<Outcome>)
    ensures |t| == if i <= |data| then |data| - i + 1 else 1
    decreases |data| - i
  {
    if i >= |data| then [Finished] else [Emitted(Decide(ToEvent(data[i])))] + Replay(data, i + 1)
  }

  /** While paused, iterations change nothing and send nothing. */
  lemma {:induction false} PausedRunIdles(s: State, n: nat)
    requires WellFormed(s) && !s.running
    ensures Run(s, n).state == s
    ensures forall j :: 0 <= j < n ==> Run(s, n).trace[j] == Idle
  {
    if n > 0 {
      PausedRunIdles(s, n - 1);
    }
  }

  /** `n` iterations: the first one, then `n - 1` more from where it left off. */
  lemma RunUnfold(s: State, n: nat)
    requires WellFormed(s) && n > 0
    ensures Run(s, n).state == Run(StepSpec(s).state, n - 1).state
    ensures Run(s, n).trace == [StepSpec(s).out] + Run(StepSpec(s).state, n - 1).trace
  {
  }

  /** At the end of the data, one iteration stops the playback and reports `finished`. */
  lemma RunAtEnd(s: State)
    requires Consistent(s) && s.running && s.currentIndex == s.totalRecords
    ensures Run(s, 1) == RunResult(s.(running := false, counters := CountersOf(s.data)), [Finished])
  {
    assert s.data[..s.currentIndex] == s.data;
    RunUnfold(s, 1);
  }

  /**
   * Playing to the end, which takes one iteration per remaining record and
   * one more, sends each remaining record exactly once, in cursor order, and
   * then `finished`.
   */
  lemma {:induction false} RunToCompletionTrace(s: State, n: nat)
    requires WellFormed(s) && s.running && s.currentIndex <= s.totalRecords
    requires n == s.totalRecords - s.currentIndex + 1
    ensures Run(s, n).trace == Replay(s.data, s.currentIndex)
    decreases n
  {
    var i := s.currentIndex;
    RunUnfold(s, n);
    if i < s.totalRecords {
      var next := StepSpec(s).state;
      var e := Emitted(Decide(ToEvent(s.data[i])));
      RunToCompletionTrace(next, n - 1);
      assert Run(next, n - 1).trace == Replay(s.data, i + 1);
      assert Replay(s.data, i) == [e] + Replay(s.data, i + 1);
      assert StepSpec(s).out == e;
    } else {
      assert Run(StepSpec(s).state, 0).trace == [];
      assert StepSpec(s).out == Finished;
    }
  }

  /**
   * Playing a consistent state to the end leaves the playback stopped at the
   * end of the data, with the counters of the whole data.
   */
  lemma {:induction false} RunToCompletion(s: State, n: nat)
    requires Consistent(s) && s.running
    requires n == s.totalRecords - s.currentIndex + 1
    ensures Run(s, n).state
      == s.(running := false, currentIndex := s.totalRecords, counters := CountersOf(s.data))
    decreases n
  {
    if s.currentIndex == s.totalRecords {
      RunAtEnd(s);
    } else {
      StepConsistent(s);
      RunToCompletion(StepSpec(s).state, n - 1);
      RunUnfold(s, n);
    }
  }
}
