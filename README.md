# Playback engine of the pilgrim-telemetry replay server

This project models the core of `backend/app.py` in Dafny. That file is the server that replays a
pre-recorded CSV file of pilgrim telemetry, one record per tick. It does four things:

- It classifies each record with a fixed priority ladder, the decision engine. A location
  mismatch is RED. An SOS is ORANGE. A temperature of 40.0 or more is YELLOW. A lost-person id is
  BLUE. Anything else is GREEN.
- It counts the alerts of each colour in `STAT_COUNTERS`.
- It keeps the playback state in `SIMULATION_STATE`: `running`, `speed`, `current_index`,
  `total_records` and `data`.
- It answers the control endpoint's dispatch on `action`: START, PAUSE, RESET and SPEED. Any
  other action is refused.

The model is split by concern:

| module | file | what it holds |
|---|---|---|
| `Telemetry` | `telemetry.dfy` | The CSV row, the converted event, and the decision engine `Decide`. `Decide` is checked against an independent reference: which rules fire (`Triggers`) and their priority (`Rank`). |
| `Conversion` | `conversion.dfy` | Python's `int(value)` on a JSON-decoded value, as SPEED applies it, and `str(n)` for the reply text. It proves `int(str(n)) == n`. |
| `Playback` | `playback.dfy` | The global state as a value (`State`) and one iteration of the runner loop as `StepSpec`. It also holds `Run`, n iterations with what each one sends out. The main invariant is `Consistent`: the counters are exactly the tally of the records before the cursor. |
| `ControlApi` | `controlapi.dfy` | One POST to the control endpoint as `ControlSpec`. The result is the new state, the `{status, message}` reply and the `simulation_status` broadcast. |
| `Server` | `server.dfy` | The class `Simulation`. Its fields are those of `SIMULATION_STATE` and `STAT_COUNTERS`, which its methods update in place: `LoadData`, `Step`, `RunFor`, `Control` and the counter-zeroing loop `ResetCounters`. Each method is proved equal to the value-level definition above. |

`Wrappers` (`wrappers.dfy`) holds `Option`.

Some inputs are modelled as parameters:

- The parsed CSV file is a parameter of `LoadData`: `None` stands for a missing file.
- The JSON body's `action` and `value` are `JsonValue` parameters of `Control`. A missing key is
  `JNull`, which is what `dict.get` returns.
- What a loop iteration emits is returned as an `Outcome`: nothing, the classified event, or
  `finished`.

### Behaviour of the code worth knowing

The model follows the code in each of these cases:

- **There is no STEP command.** The frontend's "next step" button sends `NEXT_STEP`
  (frontend/static/script.js:530). The endpoint answers it with "Invalid action." and the state
  does not change (`NextStepRefused`).
- **Stopping at the end takes one more iteration.** A cursor at `total_records` does not by
  itself mean the playback has stopped. START at the end sets `running`. The next runner
  iteration then clears it and sends `finished` (`RunAtEnd`).
- **Refused commands broadcast too.** The `simulation_status` notice goes out after every
  handled command, refused ones included (`ControlReplies`).
- **Some failures escape the handler as HTTP 500.** In these cases no notice is sent and the
  state does not change (`ControlReplies`, `MissingSpeedCrashes`):
  - An action that is not a string, including a missing one, fails on `.lower()`.
  - SPEED with a null, list or object value makes `int` raise TypeError, which
    `except ValueError` does not catch.

## Model

| member | source | states |
|---|---|---|
| Telemetry.ToEvent | backend/app.py:161-169 | The event copies the row's fields. `sos` is true exactly when the cell is the text `True`. `lost_id` is absent exactly when the cell is empty, and otherwise it is the cell. |
| Telemetry.Decide | backend/app.py:115-148 | The colour is one whose rule fires, and no fired rule has a higher priority (RED > ORANGE > YELLOW > BLUE > GREEN). The event is returned unchanged. The icon is the colour's icon. The action text is the colour's own (`ActionOf`): the safe, route, ambulance and heat texts for GREEN, RED, ORANGE and YELLOW, and for BLUE the lost-person prefix followed by the lost id, which is then present. |
| Telemetry.HighestTriggeredIsDecided | backend/app.py:126-141 | Any colour whose rule fires and that outranks every other fired rule is the decided colour: the ladder is a first-match priority order. |
| Telemetry.MismatchIsRed | backend/app.py:126-129 | `ground != nusuk` gives RED with the route-violation text, whatever `sos`, `temp` and `lost_id` are. |
| Telemetry.SosIsOrange | backend/app.py:130-133 | With matching locations, an SOS gives ORANGE with the ambulance text, whatever `temp` and `lost_id` are. |
| Telemetry.HeatBoundary | backend/app.py:134-137 | The heat rule is `>=`: 40.0 is YELLOW. 39.99 with no SOS, no mismatch and no lost id is GREEN with the safe text. |
| Telemetry.BlueIffOnlyLostId | backend/app.py:138-141 | BLUE exactly when the three earlier rules fail and the lost id is non-empty. The action text then ends with that id. |
| Telemetry.RowBlueIffLostCell | backend/app.py:160-170 | For a converted row on which the earlier rules fail, BLUE exactly when the `lost_id` cell is non-empty. |
| Conversion.StripLeft | backend/app.py:227 | `int` strips the leading ASCII whitespace it skips (space, tab, line feed, vertical tab, form feed, carriage return): the result is a suffix, everything removed is such whitespace, and the result does not start with it. |
| Conversion.StripRight | backend/app.py:227 | The same for trailing ASCII whitespace, with a prefix. |
| Conversion.Ungroup | backend/app.py:227 | Removing `int`'s digit-group underscores leaves no underscore and, from digits and underscores, only digits. |
| Conversion.UngroupAppend | backend/app.py:227 | Removing underscores from a concatenation is the concatenation of the two results, so the digits keep their order. |
| Conversion.UngroupOne | backend/app.py:227 | A single underscore is removed; any other single character is kept. |
| Conversion.GroupedThousand | backend/app.py:227 | `int("1_000")` is 1000: digit-group underscores are accepted. |
| Conversion.ParseStripped | backend/app.py:227 | A parsed stripped text is non-empty and ends in a digit, and a negative result comes from text that starts with `-`. |
| Conversion.ParseDecimal | backend/app.py:227 | Empty or all-whitespace text is rejected. |
| Conversion.IntOf | backend/app.py:227 | `int(value)` succeeds exactly for a boolean, a number, or text that the decimal parse accepts, and then on text it gives that parse's value. |
| Conversion.Truncate | backend/app.py:227 | `int` of a float truncates toward zero: the result is within 1 of the float, on the zero side. |
| Conversion.IntOfFails | backend/app.py:227 | `int(value)` raises TypeError exactly for null, a list or an object. It raises ValueError exactly for text that is not an optionally signed run of digit groups, surrounded by ASCII whitespace (space, tab, line feed, vertical tab, form feed, carriage return). |
| Conversion.NatString | backend/app.py:230 | `str(n)` of a natural number is a non-empty digit string without a leading zero. |
| Conversion.DecimalString | backend/app.py:230 | `str(n)` is non-empty, starts with `-` exactly when `n` is negative, and is digits after that. |
| Conversion.DigitsValueOfNatString | backend/app.py:227-230 | The digits of `str(n)` denote `n`. |
| Conversion.UngroupDigits | backend/app.py:227 | A string of plain digits has no underscores to remove. |
| Conversion.ParseDecimalString | backend/app.py:227-230 | The parse `int` applies recovers `n` from `str(n)`, negative numbers included. |
| Conversion.IntOfDecimalString | backend/app.py:227-230 | `int(str(n)) == n`. |
| Conversion.LettersNotDecimal | backend/app.py:227 | The text parse `int` applies rejects `"abc"`, so `int("abc")` raises ValueError. |
| Conversion.FractionNotDecimal | backend/app.py:227 | The text parse rejects `"2.0"`: `int` takes no fraction. |
| Conversion.EmptyNotDecimal | backend/app.py:227 | The text parse rejects the empty string. |
| Playback.Initial | backend/app.py:31-45 | The module-level state is consistent: paused, speed 1, cursor 0, no records, every counter 0. |
| Playback.ZeroCounters | backend/app.py:39-45 | The initial counters have all five keys, each at zero. |
| Playback.AllZeroIsZeroCounters | backend/app.py:222-223 | Zeroing every entry of a full counter map gives exactly the initial counters. |
| Playback.Tally | backend/app.py:172-180 | Counting an event keeps every key and bumps `total_events` by exactly one. |
| Playback.TallyBumpsOne | backend/app.py:172-179 | Counting an event bumps exactly the colour counter of its alert, none for GREEN, and leaves the other colours unchanged. |
| Playback.Loaded | backend/app.py:72-83 | After loading, `total_records` is the length of the data. A missing file gives no data and total 0. Nothing else changes. |
| Playback.LoadedConsistent | backend/app.py:72-83 | Loading with the cursor at the start leaves the counters consistent with the cursor. |
| Playback.StepSpec | backend/app.py:158-197 | An iteration keeps the state well-formed and never changes the data or the speed. |
| Playback.StepCases | backend/app.py:158-200 | Paused, an iteration changes nothing and sends nothing. Running with records left, it sends the next record's decision, bumps `total_events` and exactly the alert's colour counter, and advances the cursor by one. Running at the end, it clears `running`, sends `finished` and leaves the cursor and counters alone. |
| Playback.CountersOfSnoc | backend/app.py:172-180 | Tallying one more record is one counter update. |
| Playback.StepConsistent | backend/app.py:158-197 | An iteration preserves `Consistent`: cursor within the data, counters equal to the tally of the records before it. |
| Playback.CountsAddUp | backend/app.py:172-180 | Every record has one colour, so the five colour counts add up to the number of records. |
| Playback.ColouredWithinTotal | backend/app.py:172-180 | In a consistent state, `total_events` equals the cursor, and red + orange + yellow + blue is at most `total_events`. |
| Playback.Run | backend/app.py:156-200 | n iterations keep the state well-formed and send exactly n outcomes. |
| Playback.PausedRunIdles | backend/app.py:199-200 | While paused, any number of iterations changes nothing and sends nothing. |
| Playback.RunUnfold | backend/app.py:156-200 | n iterations are one iteration followed by n - 1 more. |
| Playback.RunAtEnd | backend/app.py:195-197 | Running at the end, one iteration stops the playback and sends only `finished`. |
| Playback.RunToCompletionTrace | backend/app.py:156-197 | Running from the cursor, `total - cursor + 1` iterations send each remaining record's decision exactly once, in order, and then `finished`. |
| Playback.RunToCompletion | backend/app.py:156-197 | From a consistent running state, those iterations end stopped, with the cursor at the end and the counters equal to the tally of all the data. |
| ControlApi.AsciiLower | backend/app.py:241 | `action.lower()` keeps the length, turns each upper-case ASCII letter into its lower-case counterpart, and keeps every other character. |
| ControlApi.AsciiLowerIdempotent | backend/app.py:241 | Lower-casing twice is lower-casing once. |
| ControlApi.Handle | backend/app.py:213-239 | The `if`/`elif` chain on the action name keeps the state well-formed, and the data and the record count unchanged, whenever it does not raise. |
| ControlApi.ControlSpec | backend/app.py:207-242 | A command keeps the state well-formed and never changes the data or the record count. |
| ControlApi.ControlReplies | backend/app.py:211-241 | The reply is "ok" exactly for START, PAUSE, RESET, and SPEED with an accepted value. It is the 500 reply exactly for a non-string action or SPEED with a value `int` rejects with TypeError. A notice naming the lower-cased action is broadcast exactly when there is a JSON reply. |
| ControlApi.RefusalChangesNothing | backend/app.py:225-239 | A command not answered "ok" leaves the state unchanged. |
| ControlApi.ResetClears | backend/app.py:219-224 | RESET stops the playback, sets the cursor to 0 and every counter to 0, and keeps the speed, data and record count. |
| ControlApi.SpeedOnlyValid | backend/app.py:225-236 | SPEED sets the speed to `int(value)` exactly when that is 1, 2 or 4, and otherwise changes nothing and does not answer "ok". A value `int` rejects with ValueError gets the format error. |
| ControlApi.DecimalSpeedChecked | backend/app.py:225-233 | SPEED with `str(n)`, as the frontend's selector sends it, sets the speed and reports `n` exactly when `n` is 1, 2 or 4. Otherwise ("3", "0", "-1" among them) the reply is the value error and nothing changes. |
| ControlApi.MalformedSpeedRefused | backend/app.py:234-236 | SPEED with text `int` cannot parse gets the format error, and the notice reports the unchanged state. |
| ControlApi.MissingSpeedCrashes | backend/app.py:225-227 | SPEED with a null value ends in the 500 reply with no notice and no change. |
| ControlApi.StartIdempotent | backend/app.py:213-215 | START after START gives the same state, reply and notice as one START. |
| ControlApi.PauseIdempotent | backend/app.py:216-218 | PAUSE after PAUSE gives the same as one PAUSE. |
| ControlApi.StartPauseOnlyRunning | backend/app.py:213-218 | START and PAUSE change only `running`, to true and to false. |
| ControlApi.UnknownActionRefused | backend/app.py:237-241 | An unknown string action gets "Invalid action." A non-string action gets the 500 reply. Neither changes the state. |
| ControlApi.NextStepRefused | backend/app.py:237-241 | `NEXT_STEP` gets "Invalid action." with no change, and its notice has status `next_step`. |
| ControlApi.OnlyResetMovesCursor | backend/app.py:213-239 | Every command but RESET keeps the cursor and the counters. |
| ControlApi.ControlConsistent | backend/app.py:207-242 | No command breaks `Consistent`. |
| Server.Simulation.constructor | backend/app.py:31-45 | The fields start as the module-level dictionaries do: paused, speed 1, no data, zero counters. This state is consistent. |
| Server.Simulation.LoadData | backend/app.py:72-83 | The in-place update of `data` and `total_records` gives exactly `Loaded`. |
| Server.Simulation.Step | backend/app.py:158-200 | The in-place iteration gives exactly `StepSpec`'s state and outcome, and preserves `Consistent`. |
| Server.Simulation.CountAlert | backend/app.py:172-180 | The `if`/`elif` counter updates equal `Tally` and touch only the counters. |
| Server.Simulation.RunFor | backend/app.py:156-200 | n loop iterations give exactly `Run`'s final state and trace. |
| Server.Simulation.ResetCounters | backend/app.py:222-223 | The loop over the counter keys keeps the key set and leaves every entry 0. Nothing else changes. |
| Server.Simulation.SetSpeed | backend/app.py:225-236 | The SPEED branch gives exactly `ControlSpec`'s state and reply for SPEED. |
| Server.Simulation.Apply | backend/app.py:213-239 | The `if`/`elif` chain gives exactly `ControlSpec`'s new state. For a string action it also gives exactly `ControlSpec`'s reply. |
| Server.Simulation.Control | backend/app.py:207-242 | The whole handler, broadcast included, gives exactly `ControlSpec`'s state, reply and notice. |

## Left out

- Socket.IO emits are not modelled as messages. What an iteration or a command would emit is
  returned as a value: `Outcome` and `Notice`. The `counters_update` payload is left out. It
  is built with `datetime.fromisoformat(...).strftime`, which is library date handling.
- `eventlet.sleep` pacing, the `1.0 / speed` delay, and spawning the runner on first connect are
  left out. They are timing and green-thread concurrency. `RunFor` counts iterations instead of
  looping forever.
- The Flask routing, `request.json` parsing and `jsonify` are left out; they are transport.
  A body that is not a JSON object is not modelled.
- SQLAlchemy, `seed_db` and the database URL handling are left out. They are persistence
  through a library.
- The CSV file read itself is left out; it is file I/O. Rows are given records.
- `Playback.StepSpec` assumes that every row's `float(temp)` and `fromisoformat(timestamp)`
  succeed, and so do `Playback.StepCases`, `Playback.StepConsistent` and `Server.Simulation.Step`.
  Records carry the parsed temperature as a real, and a malformed record, which the source does
  not skip, is not represented. The source raises in two places:
  - On an unparsable `temp` it raises before counting anything.
  - On a bad `timestamp` it has already counted the record and emitted `realtime_event`. It then
    raises before `current_index += 1`. The counters end one record ahead of the cursor, which
    breaks `Consistent`, and `running` stays true with no runner left.
- Load errors other than a missing file are not modelled. `load_data` handles
  FileNotFoundError and nothing else.
- `Conversion.IntOf` covers ASCII only. Python's `int` also accepts non-ASCII digits and strips
  non-ASCII whitespace, and neither is modelled.
- `Conversion.IntOf` does not model JSON NaN or Infinity values. Python's decoder accepts them,
  and `int` raises ValueError or OverflowError on them.
- `ControlApi.AsciiLower` lowers ASCII letters only. It is applied to the action names only for
  the broadcast status.
- The message `Action {action} executed.` is left out because every branch replaces it.
- A JSON float is represented as a real, not as a double.
- `Conversion.IntOf` does not model CPython's 4300-digit limit on converting text to `int`.
  For example, `"0" * 4300 + "2"` raises ValueError in CPython, but the model gives speed 2.
- `Conversion.IntOfDecimalString` does not model the same limit on `str(n)`: CPython raises
  ValueError for an `int` of more than 4300 digits, but the round trip holds for every `n`.
