/**
 * Telemetry records and the decision engine of the playback server
 * (backend/app.py, `decision_engine` and the row conversion done by the
 * simulation runner).
 *
 * A CSV row holds text; the runner turns it into an `Event` (the `sos` cell
 * becomes a boolean, an empty `lost_id` cell becomes `None`) and the decision
 * engine classifies the event by a fixed priority ladder:
 * location mismatch > SOS > heat >= 40.0 > lost person > safe.
 */
module Telemetry {
  import opened Wrappers

  /** The five alert colours. */
  datatype Alert = Green | Blue | Yellow | Orange | Red

  /**
   * One row of the pre-recorded CSV file, as the CSV reader yields it: every
   * cell is text except `temp`, which holds the value `float()` yields for
   * its cell (the nearest double, not the decimal the cell spells).
   */
  datatype RawRow = RawRow(
    timestamp: string,
    pilgrimId: string,
    temp: real,
    ground: string,
    nusuk: string,
    sos: string,
    lostId: string)

  /** A converted telemetry record, the input of the decision engine. */
  datatype Event = Event(
    timestamp: string,
    pilgrimId: string,
    temp: real,
    ground: string,
    nusuk: string,
    sos: bool,
    lostId: Option<string>)

  /** The engine's verdict: colour, action text, icon and the event itself. */
  datatype Decision = Decision(alert: Alert, action: string, icon: string, event: Event)

  /** Temperatures at or above this value raise a heat-stress alert. */
  const HeatThreshold: real := 40.0

  const SafeAction: string := "آمن ومطابق للمسار"
  const RouteAction: string := "تنبيه مخالفة مسار حرجة، تحديد المخالفين وإرسال دورية"
  const SosAction: string := "تنبيه استغاثة (SOS)، إرسال إسعاف فوري"
  const HeatAction: string := "تنبيه خطر إجهاد حراري، إرسال فرق ترطيب"
  /** The lost-person action text is this prefix followed by the `lost_id`. */
  const LostPrefix: string := "تنبيه مفقود/منفصل، إشعار المفقود: "

  /** The icon shown with each colour. */
  function IconOf(a: Alert): string {
    match a
    case Green => "✅"
    case Red => "🚨"
    case Orange => "🚑"
    case Yellow => "☀️"
    case Blue => "👤"
  }

  /** The action text shown with each colour; the lost-person text names the event's lost id. */
  function ActionOf(a: Alert, e: Event): string
    requires a == Blue ==> e.lostId.Some?
  {
    match a
    case Green => SafeAction
    case Red => RouteAction
    case Orange => SosAction
    case Yellow => HeatAction
    case Blue => LostPrefix + e.lostId.value
  }

  /** The converted form of a CSV row, as the runner builds it before classifying. */
  function ToEvent(row: RawRow): (e: Event)
    ensures e.timestamp == row.timestamp && e.pilgrimId == row.pilgrimId && e.temp == row.temp
    ensures e.ground == row.ground && e.nusuk == row.nusuk
    ensures e.sos <==> row.sos == "True"
    ensures e.lostId.None? <==> row.lostId == ""
    ensures e.lostId.Some? ==> e.lostId.value == row.lostId
  {
    Event(row.timestamp, row.pilgrimId, row.temp, row.ground, row.nusuk,
          row.sos == "True",
          if row.lostId != "" then Some(row.lostId) else None)
  }

  /** Python truthiness of `lost_id`: neither `None` nor the empty string. */
  predicate HasLostId(e: Event) {
    e.lostId.Some? && e.lostId.value != ""
  }

  /** The decision engine: the first matching rule of the ladder wins. */
  function Decide(e: Event): (d: Decision)
    ensures d.event == e
    ensures Triggers(e, d.alert)
    ensures forall a :: Triggers(e, a) ==> Rank(a) <= Rank(d.alert)
    ensures d.icon == IconOf(d.alert)
    ensures d.alert == Blue ==> e.lostId.Some?
    ensures d.action == ActionOf(d.alert, e)
    ensures d.alert == Blue ==> HasLostId(e) && d.action == LostPrefix + e.lostId.value
  {
    if e.ground != e.nusuk then
      Decision(Red, RouteAction, "🚨", e)
    else if e.sos then
      Decision(Orange, SosAction, "🚑", e)
    else if e.temp >= HeatThreshold then
      Decision(Yellow, HeatAction, "☀️", e)
    else if HasLostId(e) then
      Decision(Blue, LostPrefix + e.lostId.value, "👤", e)
    else
      Decision(Green, SafeAction, "✅", e)
  }

  // ---------------------------------------------------------------------
  // Reference definition: each rule on its own, and the priority between them.

  /** Whether the rule for colour `a` fires on `e`, ignoring every other rule. */
  predicate Triggers(e: Event, a: Alert) {
    match a
    case Red => e.ground != e.nusuk
    case Orange => e.sos
    case Yellow => e.temp >= HeatThreshold
    case Blue => HasLostId(e)
    case Green => true
  }

  /** Priority of a colour when several rules fire: RED > ORANGE > YELLOW > BLUE > GREEN. */
  function Rank(a: Alert): nat {
    match a
    case Green => 0
    case Blue => 1
    case Yellow => 2
    case Orange => 3
    case Red => 4
  }

  /** The highest-priority fired rule is unique, so `Decide`'s contract fixes its colour. */
  lemma HighestTriggeredIsDecided(e: Event, a: Alert)
    requires Triggers(e, a)
    requires forall b :: Triggers(e, b) ==> Rank(b) <= Rank(a)
    ensures Decide(e).alert == a
  {
    var d := Decide(e).alert;
    assert Rank(d) <= Rank(a) && Rank(a) <= Rank(d);
  }

  /** A location mismatch is RED whatever the SOS flag, temperature and lost id are. */
  lemma MismatchIsRed(e: Event)
    requires e.ground != e.nusuk
    ensures Decide(e).alert == Red
    ensures Decide(e).action == RouteAction
  {
  }

  /** With the location matching, an SOS is ORANGE whatever the temperature and lost id are. */
  lemma SosIsOrange(e: Event)
    requires e.ground == e.nusuk && e.sos
    ensures Decide(e).alert == Orange
    ensures Decide(e).action == SosAction
  {
  }

  /** The heat rule compares with `>=`: exactly 40.0 is YELLOW, 39.99 is not. */
  lemma HeatBoundary(e: Event)
    requires e.ground == e.nusuk && !e.sos && !HasLostId(e)
    ensures Decide(e.(temp := 40.0)).alert == Yellow
    ensures Decide(e.(temp := 39.99)).alert == Green
    ensures Decide(e.(temp := 39.99)).action == SafeAction
  {
  }

  /** BLUE exactly when the three earlier rules fail and a lost id is present; its text ends with that id. */
  lemma BlueIffOnlyLostId(e: Event)
    ensures Decide(e).alert == Blue <==>
      e.ground == e.nusuk && !e.sos && e.temp < HeatThreshold && HasLostId(e)
    ensures Decide(e).alert == Blue ==>
      var id := e.lostId.value;
      |id| <= |Decide(e).action| && Decide(e).action[|Decide(e).action| - |id|..] == id
  {
  }

  /** On a converted CSV row, BLUE depends only on the `lost_id` cell being non-empty. */
  lemma RowBlueIffLostCell(row: RawRow)
    requires row.ground == row.nusuk && row.sos != "True" && row.temp < HeatThreshold
    ensures Decide(ToEvent(row)).alert == Blue <==> row.lostId != ""
  {
  }
}
