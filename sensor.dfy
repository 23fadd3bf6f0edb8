/**
 * The sensors of sensor.py, read off the collect coordinator's data (fraction id -> list
 * of collection dates, as get_collections builds it): one sensor per configured fraction
 * showing its next date, and the today / tomorrow / upcoming sensors naming the fractions
 * collected on their date.
 *
 * The clock is the parameter `today`; `strftime` is the parameter `format`.
 */
module Sensor {
  import opened Wrappers
  import opened Dates
  import opened Text
  import opened Api

  /** The coordinator's data: None until a refresh has succeeded. */
  type Data = Option<Calendar>

  /** The configured fractions, logo id -> (color, name), in the options' order. */
  type FractionConfig = seq<(string, (string, string))>

  /** Every date of the calendar is one Python's `date` accepts. */
  predicate DatesValid(cal: Calendar) {
    forall i, d :: 0 <= i < |cal| && d in cal[i].dates ==> Valid(d)
  }

  /** Some fraction lists `d`. */
  predicate Listed(cal: Calendar, d: Date) {
    exists i :: 0 <= i < |cal| && d in cal[i].dates
  }

  /** Fraction `f` is a key and lists `d`. */
  predicate CollectedOn(cal: Calendar, f: string, d: Date) {
    HasKey(cal, f) && d in Lookup(cal, f)
  }

  // ----- RecycleAppEntity: one sensor per fraction -----

  /** `available`: the data is there and has the fraction. */
  function FractionAvailable(data: Data, fraction: string): (r: bool)
    ensures r <==> data.Some? && fraction in Fractions(data.value)
  {
    if data.None? then false
    else
      HasKeyIffFraction(data.value, fraction);
      HasKey(data.value, fraction)
  }

  /** `native_value`: the fraction's first date, None without data for it; IndexError on an empty list. */
  function FractionValue(data: Data, fraction: string): (r: Result<Option<Date>, Failure>)
    ensures r == Ok(None) <==> !FractionAvailable(data, fraction)
    ensures r.Ok? && r.value.Some? ==> FractionAvailable(data, fraction) && Lookup(data.value, fraction) != []
                                       && r.value.value == Lookup(data.value, fraction)[0]
    ensures r.Err? ==> r.error == IndexOutOfRange && FractionAvailable(data, fraction) && Lookup(data.value, fraction) == []
  {
    if !FractionAvailable(data, fraction) then Ok(None)
    else
      var dates := Lookup(data.value, fraction);
      if dates == [] then Err(IndexOutOfRange) else Ok(Some(dates[0]))
  }

  /** On a calendar get_collections built, a fraction sensor has a value exactly when it is available. */
  lemma FractionValueIffAvailable(data: Data, fraction: string)
    requires data.Some? ==> WellFormed(data.value)
    ensures FractionValue(data, fraction).Ok?
    ensures FractionValue(data, fraction).value.Some? <==> FractionAvailable(data, fraction)
  {
    if FractionAvailable(data, fraction) {
      var cal := data.value;
      assert cal[IndexOf(cal, fraction)].dates != [];
    }
  }

  /** `(value - today).days`. */
  function DaysUntil(value: Date, today: Date): (r: int)
    requires Valid(value) && Valid(today)
    ensures r > 0 <==> Before(today, value)
    ensures r == 0 <==> value == today
  {
    BeforeIsOrdinalOrder(today, value);
    Ordinal(value) - Ordinal(today)
  }

  /** Adding the day-number difference to the earlier of two dates reaches the later one. */
  lemma AddOrdinalDifference(a: Date, b: Date)
    requires Valid(a) && Valid(b) && !Before(b, a)
    ensures Ordinal(a) <= Ordinal(b)
    ensures AddDays(a, Ordinal(b) - Ordinal(a)) == Some(b)
  {
    BeforeIsOrdinalOrder(b, a);
    BeforeIsOrdinalOrder(MaxDate, b);
    MaxDateIsLast(b);
    var r := AddDays(a, Ordinal(b) - Ordinal(a));
    BeforeIsOrdinalOrder(r.value, b);
  }

  /**
   * The `days` attribute counts the days from today to the value: adding them to today
   * gives the value, and for a past value adding their opposite to the value gives today.
   */
  lemma DaysUntilInverse(value: Date, today: Date)
    requires Valid(value) && Valid(today)
    ensures DaysUntil(value, today) >= 0 ==> AddDays(today, DaysUntil(value, today)) == Some(value)
    ensures DaysUntil(value, today) < 0 ==> AddDays(value, -DaysUntil(value, today)) == Some(today)
  {
    BeforeIsStrictTotal(value, today, value);
    if Before(value, today) {
      AddOrdinalDifference(value, today);
    } else {
      AddOrdinalDifference(today, value);
    }
  }

  /** The `days` attribute that `async_write_ha_state` sets for a value. */
  function DaysAttribute(value: Option<Date>, today: Date): (r: Option<int>)
    requires Valid(today) && (value.Some? ==> Valid(value.value))
    ensures r.Some? <==> value.Some?
    ensures r.Some? && r.value >= 0 ==> AddDays(today, r.value) == Some(value.value)
    ensures r.Some? && r.value < 0 ==> AddDays(value.value, -r.value) == Some(today)
  {
    if value.Some? then
      DaysUntilInverse(value.value, today);
      Some(DaysUntil(value.value, today))
    else None
  }

  /** A sensor for one fraction, with its `days` attribute. */
  class FractionSensor {
    const fraction: string
    /** `extra_state_attributes["days"]`. */
    var days: Option<int>

    constructor(fraction: string)
      ensures this.fraction == fraction && days == None
    {
      this.fraction := fraction;
      days := None;
    }

    /** `async_write_ha_state`: `days` follows the value; an IndexError leaves it as it was. */
    method WriteState(data: Data, today: Date) returns (failure: Option<Failure>)
      requires Valid(today) && (data.Some? ==> DatesValid(data.value))
      modifies this
      ensures match FractionValue(data, fraction)
        case Err(e) => failure == Some(e) && days == old(days)
        case Ok(value) => failure == None && days == DaysAttribute(value, today)
    {
      var value := FractionValue(data, fraction);
      if value.Err? {
        return Some(value.error);
      }
      if value.value.Some? {
        assert Valid(value.value.value) by {
          var cal := data.value;
          assert value.value.value in cal[IndexOf(cal, fraction)].dates;
        }
      }
      days := DaysAttribute(value.value, today);
      return None;
    }
  }

  // ----- RecycleAppDateSensor: today, tomorrow, upcoming -----

  const TodayKey := "collection_today"
  const TomorrowKey := "collection_tomorrow"
  const UpcomingKey := "collection_upcoming"

  /** The smallest date of `s`, which `sorted(s)[0]` picks. */
  function Earliest(s: seq<Date>): (r: Option<Date>)
    ensures r.None? <==> s == []
    ensures r.Some? ==> r.value in s && forall x :: x in s ==> !Before(x, r.value)
  {
    if s == [] then None
    else
      var rest := Earliest(s[1..]);
      assert forall x :: x in s ==> x == s[0] || x in s[1..];
      if rest.None? then Some(s[0])
      else if !Before(rest.value, s[0]) then
        assert forall x :: x in s[1..] ==> !Before(x, s[0]) by {
          forall x | x in s[1..]
            ensures !Before(x, s[0])
          {
            BeforeIsStrictTotal(rest.value, x, s[0]);
            BeforeIsStrictTotal(x, rest.value, s[0]);
          }
        }
        Some(s[0])
      else
        assert !Before(s[0], rest.value) by {
          BeforeIsStrictTotal(s[0], rest.value, s[0]);
        }
        rest
  }

  /** All the dates of the calendar, fraction after fraction. */
  function AllDates(cal: Calendar): (r: seq<Date>)
    ensures forall d :: d in r <==> Listed(cal, d)
  {
    if cal == [] then []
    else
      var init := cal[..|cal| - 1];
      assert forall i :: 0 <= i < |init| ==> init[i] == cal[i];
      AllDates(init) + cal[|cal| - 1].dates
  }

  /** The dates strictly after `today`, in order. */
  function Later(s: seq<Date>, today: Date): (r: seq<Date>)
    ensures forall d :: d in r <==> d in s && Before(today, d)
  {
    if s == [] then []
    else (if Before(today, s[0]) then [s[0]] else []) + Later(s[1..], today)
  }

  /** `get_upcoming_date`: the earliest date strictly after today, None without data or such a date. */
  function UpcomingDate(data: Data, today: Date): (r: Option<Date>)
    ensures r.Some? ==> data.Some? && Listed(data.value, r.value) && Before(today, r.value)
    ensures r.Some? ==>
      forall i, d :: 0 <= i < |data.value| && d in data.value[i].dates && Before(today, d) ==> !Before(d, r.value)
    ensures r.None? ==>
      data.None? || forall i, d :: 0 <= i < |data.value| && d in data.value[i].dates ==> !Before(today, d)
  {
    if data.None? || data.value == [] then None
    else
      var r := Earliest(Later(AllDates(data.value), today));
      assert forall i, d :: 0 <= i < |data.value| && d in data.value[i].dates ==> Listed(data.value, d);
      r
  }

  /** `RecycleAppDateSensor.native_value`; `today + 1 day` raises OverflowError on `date.max`. */
  function DateSensorValue(key: string, data: Data, today: Date): (r: Result<Option<Date>, Failure>)
    requires Valid(today)
    ensures key == TodayKey ==> r == Ok(Some(today))
    ensures key == TomorrowKey && r.Ok? ==> r.value.Some? && Valid(r.value.value)
                                            && Ordinal(r.value.value) == Ordinal(today) + 1
    ensures r.Err? <==> key == TomorrowKey && today == MaxDate
    ensures key == UpcomingKey ==> r == Ok(UpcomingDate(data, today))
    ensures key != TodayKey && key != TomorrowKey && key != UpcomingKey ==> r == Ok(None)
  {
    if key == TodayKey then Ok(Some(today))
    else if key == TomorrowKey then
      match AddDays(today, 1)
      case None => Err(DateOverflow)
      case Some(tomorrow) => Ok(Some(tomorrow))
    else if key == UpcomingKey then Ok(UpcomingDate(data, today))
    else Ok(None)
  }

  /** The positions, in increasing order, of the configured fractions collected on `d`. */
  function CollectedPositions(config: FractionConfig, cal: Calendar, d: Date): (r: seq<nat>)
    ensures forall j :: 0 <= j < |r| ==> r[j] < |config| && CollectedOn(cal, config[r[j]].0, d)
    ensures forall j, k :: 0 <= j < k < |r| ==> r[j] < r[k]
    ensures forall k :: 0 <= k < |config| && CollectedOn(cal, config[k].0, d) ==> k in r
  {
    if config == [] then []
    else
      var n := |config| - 1;
      assert forall k :: 0 <= k < n ==> config[..n][k] == config[k];
      CollectedPositions(config[..n], cal, d) + (if CollectedOn(cal, config[n].0, d) then [n] else [])
  }

  /**
   * The comprehension of `state`: the names of the configured fractions collected on `d`,
   * one per such fraction, in configuration order.
   */
  function OnDate(config: FractionConfig, cal: Calendar, d: Date): (r: seq<string>)
    ensures |r| <= |config|
    ensures forall name :: name in r <==>
      exists k :: 0 <= k < |config| && config[k].1.1 == name && CollectedOn(cal, config[k].0, d)
  {
    if config == [] then []
    else
      var init := config[..|config| - 1];
      var last := config[|config| - 1];
      assert forall k :: 0 <= k < |init| ==> init[k] == config[k];
      OnDate(init, cal, d) + (if CollectedOn(cal, last.0, d) then [last.1.1] else [])
  }

  /** The names are those of the collected positions, one each and in configuration order. */
  lemma {:induction false} OnDateInConfigOrder(config: FractionConfig, cal: Calendar, d: Date)
    ensures var r, pos := OnDate(config, cal, d), CollectedPositions(config, cal, d);
      |r| == |pos| && forall j :: 0 <= j < |r| ==> r[j] == config[pos[j]].1.1
  {
    if config != [] {
      var n := |config| - 1;
      OnDateInConfigOrder(config[..n], cal, d);
      assert forall k :: 0 <= k < n ==> config[..n][k] == config[k];
    }
  }

  /** A configured fraction is named on every date it is collected. */
  lemma OnDateNamesCollected(config: FractionConfig, cal: Calendar, k: nat, d: Date)
    requires k < |config| && CollectedOn(cal, config[k].0, d)
    ensures config[k].1.1 in OnDate(config, cal, d)
  {
  }

  /** `any(dates and dates[0] == d for dates in data.values())`. */
  function AnyFirstIs(cal: Calendar, d: Date): (r: bool)
    ensures r <==> exists i :: 0 <= i < |cal| && cal[i].dates != [] && cal[i].dates[0] == d
  {
    if cal == [] then false
    else
      assert forall i :: 1 <= i < |cal| ==> cal[i] == cal[1..][i - 1];
      (cal[0].dates != [] && cal[0].dates[0] == d) || AnyFirstIs(cal[1..], d)
  }

  /** `any(dates and any(d > today for d in dates) for dates in data.values())`. */
  function AnyLater(cal: Calendar, today: Date): (r: bool)
    ensures r <==> exists i, d :: 0 <= i < |cal| && d in cal[i].dates && Before(today, d)
  {
    if cal == [] then false
    else
      var here := Later(cal[0].dates, today);
      assert here != [] ==> here[0] in cal[0].dates && Before(today, here[0]);
      assert forall i :: 1 <= i < |cal| ==> cal[i] == cal[1..][i - 1];
      here != [] || AnyLater(cal[1..], today)
  }

  /** Some fraction has a date: the generator of the tomorrow sensor reaches `today + 1 day`. */
  function AnyNonEmpty(cal: Calendar): (r: bool)
    ensures r <==> exists i :: 0 <= i < |cal| && cal[i].dates != []
  {
    if cal == [] then false
    else
      assert forall i :: 1 <= i < |cal| ==> cal[i] == cal[1..][i - 1];
      cal[0].dates != [] || AnyNonEmpty(cal[1..])
  }

  /**
   * `RecycleAppDateSensor.available`. Without data, `data.values()` raises; the tomorrow
   * sensor's `today + 1 day` overflows only once a non-empty list is reached.
   */
  function DateSensorAvailable(key: string, data: Data, today: Date): (r: Result<bool, Failure>)
    requires Valid(today)
    ensures key != TodayKey && key != TomorrowKey && key != UpcomingKey ==> r == Ok(false)
    ensures r.Err? ==> r == Err(NoneAccessed) || r == Err(DateOverflow)
    ensures r == Err(NoneAccessed) <==> data.None? && (key == TodayKey || key == TomorrowKey || key == UpcomingKey)
    ensures r == Err(DateOverflow) <==>
      data.Some? && key == TomorrowKey && AddDays(today, 1).None? && AnyNonEmpty(data.value)
  {
    if key == TodayKey then
      if data.None? then Err(NoneAccessed) else Ok(AnyFirstIs(data.value, today))
    else if key == TomorrowKey then
      if data.None? then Err(NoneAccessed)
      else match AddDays(today, 1)
        case None => if AnyNonEmpty(data.value) then Err(DateOverflow) else Ok(false)
        case Some(tomorrow) => Ok(AnyFirstIs(data.value, tomorrow))
    else if key == UpcomingKey then
      if data.None? then Err(NoneAccessed) else Ok(AnyLater(data.value, today))
    else Ok(false)
  }

  /** Some fraction's first date is `d` exactly when some fraction sensor shows `d`. */
  lemma AnyFirstIsIffFractionValue(cal: Calendar, d: Date)
    requires WellFormed(cal)
    ensures AnyFirstIs(cal, d) <==> exists f :: FractionValue(Some(cal), f) == Ok(Some(d))
  {
    if AnyFirstIs(cal, d) {
      var i :| 0 <= i < |cal| && cal[i].dates != [] && cal[i].dates[0] == d;
      IndexOfKey(cal, i);
      assert FractionValue(Some(cal), cal[i].fraction) == Ok(Some(d));
    }
    if exists f :: FractionValue(Some(cal), f) == Ok(Some(d)) {
      var f :| FractionValue(Some(cal), f) == Ok(Some(d));
      var i := IndexOf(cal, f);
      assert cal[i].dates != [] && cal[i].dates[0] == d;
    }
  }

  /** The today sensor is available exactly when some fraction sensor shows today. */
  lemma TodayAvailableIffFractionToday(cal: Calendar, today: Date)
    requires Valid(today) && WellFormed(cal)
    ensures DateSensorAvailable(TodayKey, Some(cal), today) == Ok(true)
      <==> exists f :: FractionValue(Some(cal), f) == Ok(Some(today))
  {
    AnyFirstIsIffFractionValue(cal, today);
  }

  /**
   * The tomorrow sensor is available exactly when some fraction sensor shows the day after
   * today; on `date.max` there is no such day, and the sensor raises OverflowError as soon as
   * some fraction has a date.
   */
  lemma TomorrowAvailableIffFractionTomorrow(cal: Calendar, today: Date)
    requires Valid(today) && WellFormed(cal)
    ensures AddDays(today, 1).Some? ==>
      (DateSensorAvailable(TomorrowKey, Some(cal), today) == Ok(true)
       <==> exists f :: FractionValue(Some(cal), f) == Ok(Some(AddDays(today, 1).value)))
    ensures AddDays(today, 1).None? ==>
      DateSensorAvailable(TomorrowKey, Some(cal), today) == if AnyNonEmpty(cal) then Err(DateOverflow) else Ok(false)
  {
    if AddDays(today, 1).Some? {
      AnyFirstIsIffFractionValue(cal, AddDays(today, 1).value);
    }
  }

  /** The upcoming sensor is available exactly when it has a value. */
  lemma UpcomingAvailableIffValue(cal: Calendar, today: Date)
    requires Valid(today)
    ensures DateSensorAvailable(UpcomingKey, Some(cal), today) == Ok(UpcomingDate(Some(cal), today).Some?)
  {
    var r := UpcomingDate(Some(cal), today);
    if r.Some? {
      var i :| 0 <= i < |cal| && r.value in cal[i].dates;
      assert AnyLater(cal, today);
    }
  }

  /** The state string: the names joined by ", ", after "<date>: " for the upcoming sensor. */
  function StateText(key: string, formatted: string, names: seq<string>): string {
    if key == UpcomingKey then formatted + ": " + Join(", ", names) else Join(", ", names)
  }

  /** The today, tomorrow or upcoming sensor, with its `date` and `fractions` attributes. */
  class DateSensor {
    const key: string
    const config: FractionConfig
    /** `extra_state_attributes["date"]`. */
    var dateAttribute: Option<string>
    /** `extra_state_attributes["fractions"]`. */
    var fractionsAttribute: Option<seq<string>>
    /** `extra_state_attributes["days"]`. */
    var days: Option<int>

    constructor(key: string, config: FractionConfig)
      ensures this.key == key && this.config == config
      ensures dateAttribute == None && fractionsAttribute == None && days == None
    {
      this.key := key;
      this.config := config;
      dateAttribute := None;
      fractionsAttribute := None;
      days := None;
    }

    /**
     * `state`: None without a date; otherwise the names of the configured fractions collected
     * on it, which also become the `fractions` attribute. Searching absent data raises.
     */
    method State(data: Data, today: Date, format: Date -> string) returns (r: Result<Option<string>, Failure>)
      requires Valid(today)
      modifies this
      ensures match DateSensorValue(key, data, today)
        case Err(e) => r == Err(e) && unchanged(this)
        case Ok(None) => r == Ok(None) && unchanged(this)
        case Ok(Some(d)) =>
          if data.None? && config != [] then r == Err(NoneAccessed) && unchanged(this)
          else
            var names := if data.None? then [] else OnDate(config, data.value, d);
            dateAttribute == Some(format(d)) && fractionsAttribute == Some(names) && days == old(days)
            && r == Ok(Some(StateText(key, format(d), names)))
    {
      var value := DateSensorValue(key, data, today);
      if value.Err? {
        return Err(value.error);
      }
      if value.value.None? {
        return Ok(None);
      }
      var d := value.value.value;
      if data.None? && config != [] {
        return Err(NoneAccessed);
      }
      var names := if data.None? then [] else OnDate(config, data.value, d);
      var formatted := format(d);
      dateAttribute := Some(formatted);
      fractionsAttribute := Some(names);
      return Ok(Some(StateText(key, formatted, names)));
    }

    /** `async_write_ha_state`, inherited: `days` follows this sensor's own value. */
    method WriteState(data: Data, today: Date) returns (failure: Option<Failure>)
      requires Valid(today) && (data.Some? ==> DatesValid(data.value))
      modifies this
      ensures match DateSensorValue(key, data, today)
        case Err(e) => failure == Some(e) && unchanged(this)
        case Ok(value) => failure == None && days == DaysAttribute(value, today)
                          && dateAttribute == old(dateAttribute) && fractionsAttribute == old(fractionsAttribute)
    {
      var value := DateSensorValue(key, data, today);
      if value.Err? {
        return Some(value.error);
      }
      if value.value.Some? && key == UpcomingKey {
        var cal := data.value;
        var i :| 0 <= i < |cal| && value.value.value in cal[i].dates;
      }
      days := DaysAttribute(value.value, today);
      return None;
    }
  }
}
