/**
 * The collection calendar of calendar.py: the next collection as one event naming every
 * fraction collected that day, and the list of all collection events for the calendar view.
 *
 * Home Assistant's entity registry and state machine are the `Registry` parameter; a
 * fraction takes part only when its sensor is registered and has a state.
 */
module CollectCalendar {
  import opened Wrappers
  import opened Dates
  import opened Text
  import opened Dicts
  import opened Api
  import opened Sensor

  /** A state of `hass.states`, reduced to its `friendly_name` attribute. */
  datatype EntityState = EntityState(friendlyName: Option<string>)

  /** The sensor entity ids by unique id, and the current state by entity id. */
  datatype Registry = Registry(entityIds: map<string, string>, states: map<string, EntityState>)

  datatype Event = Event(start: Date, end: Date, summary: string)

  const CalendarSuffix := "-calendar"

  /** `-calendar` ends `s` and starts nowhere earlier in it. */
  predicate EndsWithSuffixOnly(s: string) {
    var n := |s| - |CalendarSuffix|;
    n >= 0 && s[n..] == CalendarSuffix && forall i :: 0 <= i < n ==> !OccursAt(s, CalendarSuffix, i)
  }

  /** `-calendar` starts nowhere in `s`. */
  predicate LacksSuffix(s: string) {
    forall i :: 0 <= i < |s| ==> !OccursAt(s, CalendarSuffix, i)
  }

  /**
   * `unique_id.replace("-calendar", "-")`, to which a fraction id is appended to find its
   * sensor. The calendar's id is the entry's id followed by `-calendar`, and a fraction
   * sensor's id is the entry's id, `-` and the fraction: for an entry id in which
   * `-calendar` does not start, the base id is the entry's id followed by `-`.
   */
  function BaseId(uniqueId: string): (r: string)
    ensures LacksSuffix(uniqueId) ==> r == uniqueId
    ensures EndsWithSuffixOnly(uniqueId) ==> r == uniqueId[..|uniqueId| - |CalendarSuffix|] + "-"
  {
    var n := |uniqueId| - |CalendarSuffix|;
    if LacksSuffix(uniqueId) then
      assert forall i :: !OccursAt(uniqueId, CalendarSuffix, i);
      assert n >= 0 && uniqueId[n..] == CalendarSuffix ==> OccursAt(uniqueId, CalendarSuffix, n);
      ReplaceAbsent(uniqueId, CalendarSuffix, "-");
      Replace(uniqueId, CalendarSuffix, "-")
    else if EndsWithSuffixOnly(uniqueId) then
      assert uniqueId == uniqueId[..n] + CalendarSuffix;
      ReplaceTrailing(uniqueId[..n], CalendarSuffix, "-");
      Replace(uniqueId, CalendarSuffix, "-")
    else
      Replace(uniqueId, CalendarSuffix, "-")
  }

  /** `async_get_entity_id(SENSOR, DOMAIN, base + f)`, kept only when truthy. */
  function SensorEntityId(reg: Registry, base: string, f: string): (r: Option<string>)
    ensures r.Some? ==> r.value != "" && base + f in reg.entityIds
  {
    var key := base + f;
    if key in reg.entityIds && reg.entityIds[key] != "" then Some(reg.entityIds[key]) else None
  }

  /** The state of the sensor of fraction `f`, when it is registered and has one. */
  function SensorState(reg: Registry, base: string, f: string): Option<EntityState> {
    match SensorEntityId(reg, base, f)
    case None => None
    case Some(id) => if id in reg.states then Some(reg.states[id]) else None
  }

  predicate Participates(reg: Registry, base: string, f: string) {
    SensorState(reg, base, f).Some?
  }

  /**
   * `state.attributes.get(ATTR_FRIENDLY_NAME, fractions[f][1])`. The default is evaluated
   * first, so an unconfigured fraction raises KeyError even when the state has a name.
   */
  function Label(config: FractionConfig, f: string, state: EntityState): (r: Result<string, Failure>)
    ensures r.Err? <==> f !in Assign(config)
  {
    if f !in Assign(config) then Err(MissingKey)
    else Ok(state.friendlyName.GetOr(Assign(config)[f].1))
  }

  // ----- the next event (`event`) -----

  /** The loop's variables `next_collect` and `labels`. */
  datatype Selection = Selection(next: Date, labels: Option<seq<string>>)

  /**
   * One iteration: a fraction whose first date is later than the selection's is passed
   * over, an earlier one restarts the labels, an equal one adds its label. Appending to
   * labels that are still None raises, which happens when the first fraction to take part
   * is collected on `date.max`.
   */
  function Step(sel: Selection, p: FractionDates, reg: Registry, base: string, config: FractionConfig)
    : (r: Result<Selection, Failure>)
    ensures !Participates(reg, base, p.fraction) ==> r == Ok(sel)
    ensures r.Err? ==> p.dates == [] || r.error == NoneAccessed || p.fraction !in Assign(config)
    ensures r.Ok? && r.value != sel ==>
      p.dates != [] && r.value.labels.Some? && r.value.labels.value != []
      && !Before(sel.next, r.value.next) && (r.value.next == sel.next || r.value.next == p.dates[0])
  {
    match SensorState(reg, base, p.fraction)
    case None => Ok(sel)
    case Some(state) =>
      if p.dates == [] then Err(IndexOutOfRange)
      else if Before(sel.next, p.dates[0]) then Ok(sel)
      else
        var next := if Before(p.dates[0], sel.next) then p.dates[0] else sel.next;
        var labels := if Before(p.dates[0], sel.next) then Some([]) else sel.labels;
        if labels.None? then Err(NoneAccessed)
        else match Label(config, p.fraction, state)
          case Err(e) => Err(e)
          case Ok(name) => Ok(Selection(next, Some(labels.value + [name])))
  }

  /** The selection after the loop has visited every fraction of `cal`, from `date.max` and no labels. */
  function Select(cal: Calendar, reg: Registry, base: string, config: FractionConfig): (r: Result<Selection, Failure>)
    ensures r.Ok? && r.value.labels.None? ==> r.value.next == MaxDate
    ensures r.Ok? && r.value.labels.Some? ==> r.value.labels.value != []
  {
    if cal == [] then Ok(Selection(MaxDate, None))
    else match Select(cal[..|cal| - 1], reg, base, config)
      case Err(e) => Err(e)
      case Ok(sel) => Step(sel, cal[|cal| - 1], reg, base, config)
  }

  /** `entity_ids`: the registered sensors' entity ids, in fraction order. */
  function EntityIds(cal: Calendar, reg: Registry, base: string): seq<string> {
    if cal == [] then []
    else
      var last := SensorEntityId(reg, base, cal[|cal| - 1].fraction);
      EntityIds(cal[..|cal| - 1], reg, base) + (if last.Some? then [last.value] else [])
  }

  /** The event of a selection: none without labels, else the day with the labels joined by " - ". */
  function EventOf(sel: Selection): (r: Option<Event>)
    ensures r.Some? <==> sel.labels.Some? && sel.labels.value != []
    ensures r.Some? ==> r.value.start == sel.next == r.value.end && r.value.summary == Join(" - ", sel.labels.value)
  {
    if sel.labels.None? || sel.labels.value == [] then None
    else Some(Event(sel.next, sel.next, Join(" - ", sel.labels.value)))
  }

  /** The labels of the participating fractions whose first date is `d`, in fraction order. */
  function LabelsOn(cal: Calendar, d: Date, reg: Registry, base: string, config: FractionConfig)
    : Result<seq<string>, Failure>
  {
    if cal == [] then Ok([])
    else match LabelsOn(cal[..|cal| - 1], d, reg, base, config)
      case Err(e) => Err(e)
      case Ok(labels) =>
        var p := cal[|cal| - 1];
        match SensorState(reg, base, p.fraction)
        case None => Ok(labels)
        case Some(state) =>
          if p.dates == [] || p.dates[0] != d then Ok(labels)
          else match Label(config, p.fraction, state)
            case Err(e) => Err(e)
            case Ok(name) => Ok(labels + [name])
  }

  /** A date no participating fraction starts with has no labels. */
  lemma {:induction false} LabelsOnNone(cal: Calendar, d: Date, reg: Registry, base: string, config: FractionConfig)
    requires forall i :: 0 <= i < |cal| && Participates(reg, base, cal[i].fraction) && cal[i].dates != []
                         ==> cal[i].dates[0] != d
    ensures LabelsOn(cal, d, reg, base, config) == Ok([])
  {
    if cal != [] {
      var init := cal[..|cal| - 1];
      assert forall i :: 0 <= i < |init| ==> init[i] == cal[i];
      LabelsOnNone(init, d, reg, base, config);
    }
  }

  /**
   * What the selection means: without labels nothing took part; with labels, its date is
   * the earliest first date of a participating fraction and the labels are those of every
   * participating fraction starting that day, in fraction order.
   */
  ghost predicate Chosen(cal: Calendar, reg: Registry, base: string, config: FractionConfig, sel: Selection) {
    (sel.labels.None? ==> sel.next == MaxDate && forall i :: 0 <= i < |cal| ==> !Participates(reg, base, cal[i].fraction))
    && (sel.labels.Some? ==>
          sel.labels.value != []
          && (exists i :: 0 <= i < |cal| && Participates(reg, base, cal[i].fraction)
                          && cal[i].dates != [] && cal[i].dates[0] == sel.next)
          && LabelsOn(cal, sel.next, reg, base, config) == Ok(sel.labels.value))
    && (forall i :: 0 <= i < |cal| && Participates(reg, base, cal[i].fraction) && cal[i].dates != []
                    ==> !Before(cal[i].dates[0], sel.next))
  }

  /** One more iteration keeps the selection the earliest date with all its labels. */
  lemma ChosenAfterStep(cal: Calendar, reg: Registry, base: string, config: FractionConfig, sel0: Selection)
    requires cal != [] && DatesValid(cal)
    requires Chosen(cal[..|cal| - 1], reg, base, config, sel0)
    requires Step(sel0, cal[|cal| - 1], reg, base, config).Ok?
    ensures Chosen(cal, reg, base, config, Step(sel0, cal[|cal| - 1], reg, base, config).value)
  {
    var init := cal[..|cal| - 1];
    var p := cal[|cal| - 1];
    assert forall i :: 0 <= i < |init| ==> init[i] == cal[i];
    var sel := Step(sel0, p, reg, base, config).value;
    if Participates(reg, base, p.fraction) {
      var first := p.dates[0];
      assert Valid(first);
      MaxDateIsLast(first);
      BeforeIsStrictTotal(first, sel0.next, first);
      if Before(sel0.next, first) {
        assert sel == sel0;
        assert !Before(first, sel.next);
      } else if Before(first, sel0.next) {
        forall i | 0 <= i < |init| && Participates(reg, base, init[i].fraction) && init[i].dates != []
          ensures !Before(init[i].dates[0], first) && init[i].dates[0] != first
        {
          BeforeIsStrictTotal(init[i].dates[0], first, sel0.next);
          BeforeIsStrictTotal(first, sel0.next, init[i].dates[0]);
        }
        LabelsOnNone(init, first, reg, base, config);
        assert sel.next == first;
      } else {
        BeforeIsStrictTotal(first, sel0.next, sel0.next);
        assert first == sel0.next;
        assert sel.next == sel0.next;
      }
    } else {
      assert sel == sel0;
    }
  }

  /** Every selection the loop completes is the earliest date with all its labels. */
  lemma {:induction false} SelectChoosesEarliest(cal: Calendar, reg: Registry, base: string, config: FractionConfig)
    requires DatesValid(cal) && Select(cal, reg, base, config).Ok?
    ensures Chosen(cal, reg, base, config, Select(cal, reg, base, config).value)
  {
    if cal != [] {
      var init := cal[..|cal| - 1];
      assert forall i :: 0 <= i < |init| ==> init[i] == cal[i];
      assert DatesValid(init);
      SelectChoosesEarliest(init, reg, base, config);
      ChosenAfterStep(cal, reg, base, config, Select(init, reg, base, config).value);
    }
  }

  /**
   * The event `event` returns from loaded data: none exactly when no fraction takes part;
   * otherwise a one-day event on the earliest first date, summarizing its labels.
   */
  lemma NextEventIsEarliest(cal: Calendar, reg: Registry, base: string, config: FractionConfig)
    requires DatesValid(cal) && Select(cal, reg, base, config).Ok?
    ensures var e := EventOf(Select(cal, reg, base, config).value);
      (e.None? <==> forall i :: 0 <= i < |cal| ==> !Participates(reg, base, cal[i].fraction))
      && (e.Some? ==>
            e.value.start == e.value.end
            && (forall i :: 0 <= i < |cal| && Participates(reg, base, cal[i].fraction) && cal[i].dates != []
                            ==> !Before(cal[i].dates[0], e.value.start))
            && LabelsOn(cal, e.value.start, reg, base, config).Ok?
            && e.value.summary == Join(" - ", LabelsOn(cal, e.value.start, reg, base, config).value))
  {
    SelectChoosesEarliest(cal, reg, base, config);
  }

  lemma {:induction false} SelectErrPersists(cal: Calendar, reg: Registry, base: string, config: FractionConfig, i: nat)
    requires i <= |cal| && Select(cal[..i], reg, base, config).Err?
    ensures Select(cal, reg, base, config) == Select(cal[..i], reg, base, config)
    decreases |cal| - i
  {
    if i < |cal| {
      assert cal[..i + 1][..i] == cal[..i];
      SelectErrPersists(cal, reg, base, config, i + 1);
    } else {
      assert cal[..i] == cal;
    }
  }

  /** The entity behind the collection calendar, with its state-change listener. */
  class CalendarEntity {
    const uniqueId: string
    const config: FractionConfig
    /** `_remove_change_listener` is set: a state-change listener is registered. */
    var listening: bool
    /** The entity ids the registered listener watches. */
    var tracked: seq<string>

    constructor(uniqueId: string, config: FractionConfig)
      ensures this.uniqueId == uniqueId && this.config == config && !listening && tracked == []
    {
      this.uniqueId := uniqueId;
      this.config := config;
      listening := false;
      tracked := [];
    }

    /**
     * `event`: drops the previous listener, then scans the fractions for the earliest
     * first date. Without an event it listens to the sensors it found, to be woken once
     * one of them gets a state.
     */
    method NextEvent(data: Data, reg: Registry) returns (r: Result<Option<Event>, Failure>)
      modifies this
      ensures data.None? ==> r == Ok(None) && !listening && tracked == old(tracked)
      ensures data.Some? ==> match Select(data.value, reg, BaseId(uniqueId), config)
        case Err(e) => r == Err(e) && !listening && tracked == old(tracked)
        case Ok(sel) =>
          r == Ok(EventOf(sel)) && listening == EventOf(sel).None?
          && tracked == if EventOf(sel).None? then EntityIds(data.value, reg, BaseId(uniqueId)) else old(tracked)
    {
      listening := false;
      if data.None? {
        return Ok(None);
      }
      var sel, entityIds := ScanFractions(data.value, reg, BaseId(uniqueId));
      if sel.Err? {
        return Err(sel.error);
      }
      if sel.value.labels.None? || sel.value.labels.value == [] {
        listening := true;
        tracked := entityIds;
        return Ok(None);
      }
      return Ok(EventOf(sel.value));
    }

    /**
     * The loop over the fractions: the earliest first date among the participating
     * fractions with the labels collected on it, and the entity ids of the registered sensors.
     */
    method ScanFractions(cal: Calendar, reg: Registry, base: string)
      returns (sel: Result<Selection, Failure>, entityIds: seq<string>)
      ensures sel == Select(cal, reg, base, config)
      ensures sel.Ok? ==> entityIds == EntityIds(cal, reg, base)
    {
      var next := MaxDate;
      var labels: Option<seq<string>> := None;
      entityIds := [];
      for i := 0 to |cal|
        invariant Select(cal[..i], reg, base, config) == Ok(Selection(next, labels))
        invariant entityIds == EntityIds(cal[..i], reg, base)
      {
        var p := cal[i];
        assert cal[..i + 1][..i] == cal[..i];
        var entityId := SensorEntityId(reg, base, p.fraction);
        if entityId.None? {
          continue;
        }
        entityIds := entityIds + [entityId.value];
        if entityId.value !in reg.states {
          continue;
        }
        var state := reg.states[entityId.value];
        if p.dates == [] {
          SelectErrPersists(cal, reg, base, config, i + 1);
          return Err(IndexOutOfRange), entityIds;
        }
        if Before(next, p.dates[0]) {
          continue;
        }
        if Before(p.dates[0], next) {
          labels := Some([]);
          next := p.dates[0];
        }
        if labels.None? {
          SelectErrPersists(cal, reg, base, config, i + 1);
          return Err(NoneAccessed), entityIds;
        }
        var name := Label(config, p.fraction, state);
        if name.Err? {
          SelectErrPersists(cal, reg, base, config, i + 1);
          return Err(name.error), entityIds;
        }
        labels := Some(labels.value + [name.value]);
      }
      assert cal[..|cal|] == cal;
      sel := Ok(Selection(next, labels));
    }

    /** `async_will_remove_from_hass`: the listener is dropped. */
    method WillRemove()
      modifies this
      ensures !listening && tracked == old(tracked)
    {
      listening := false;
    }
  }

  // ----- the event list (`async_get_events`) -----

  /** The dates of the participating fractions, fraction after fraction. */
  function ParticipantDates(cal: Calendar, reg: Registry, base: string): seq<Date> {
    if cal == [] then []
    else
      var p := cal[|cal| - 1];
      ParticipantDates(cal[..|cal| - 1], reg, base) + (if Participates(reg, base, p.fraction) then p.dates else [])
  }

  function Starts(events: seq<Event>): (r: seq<Date>)
    ensures |r| == |events| && forall k :: 0 <= k < |r| ==> r[k] == events[k].start
  {
    if events == [] then [] else Starts(events[..|events| - 1]) + [events[|events| - 1].start]
  }

  lemma {:induction false} StartsAppend(a: seq<Event>, b: seq<Event>)
    ensures Starts(a + b) == Starts(a) + Starts(b)
  {
  }

  /**
   * The events of one fraction: one per date, labelled as in `event`. The label is computed
   * per date, so a fraction without dates needs none.
   */
  function FractionEvents(p: FractionDates, reg: Registry, base: string, config: FractionConfig)
    : (r: Result<seq<Event>, Failure>)
    ensures r.Ok? ==> Starts(r.value) == (if Participates(reg, base, p.fraction) then p.dates else [])
    ensures r.Ok? ==> forall e :: e in r.value ==> e.start == e.end
  {
    match SensorState(reg, base, p.fraction)
    case None => Ok([])
    case Some(state) =>
      if p.dates == [] then Ok([])
      else match Label(config, p.fraction, state)
        case Err(e) => Err(e)
        case Ok(name) => Ok(seq(|p.dates|, k requires 0 <= k < |p.dates| => Event(p.dates[k], p.dates[k], name)))
  }

  /** The comprehension of `async_get_events`, before sorting. */
  function CollectEvents(cal: Calendar, reg: Registry, base: string, config: FractionConfig)
    : (r: Result<seq<Event>, Failure>)
    ensures r.Ok? ==> Starts(r.value) == ParticipantDates(cal, reg, base)
    ensures r.Ok? ==> forall e :: e in r.value ==> e.start == e.end
  {
    if cal == [] then Ok([])
    else match CollectEvents(cal[..|cal| - 1], reg, base, config)
      case Err(e) => Err(e)
      case Ok(events) =>
        match FractionEvents(cal[|cal| - 1], reg, base, config)
        case Err(e) => Err(e)
        case Ok(more) =>
          StartsAppend(events, more);
          Ok(events + more)
  }

  predicate SortedByStart(s: seq<Event>) {
    forall i, j :: 0 <= i < j < |s| ==> !Before(s[j].start, s[i].start)
  }

  /** `e` placed before the first element that does not start earlier. */
  function InsertByStart(e: Event, s: seq<Event>): (r: seq<Event>)
    ensures multiset(r) == multiset(s) + multiset{e}
  {
    if s == [] || !Before(s[0].start, e.start) then [e] + s
    else
      assert s == [s[0]] + s[1..];
      [s[0]] + InsertByStart(e, s[1..])
  }

  /** `sorted(events, key=lambda e: e.start)`, by insertion. */
  function SortByStart(s: seq<Event>): (r: seq<Event>)
    ensures multiset(r) == multiset(s)
  {
    if s == [] then []
    else
      assert s == [s[0]] + s[1..];
      InsertByStart(s[0], SortByStart(s[1..]))
  }

  lemma {:induction false} InsertKeepsSorted(e: Event, s: seq<Event>)
    requires SortedByStart(s)
    ensures SortedByStart(InsertByStart(e, s))
  {
    if s != [] && Before(s[0].start, e.start) {
      InsertKeepsSorted(e, s[1..]);
      var r := InsertByStart(e, s);
      var t := InsertByStart(e, s[1..]);
      assert r == [s[0]] + t;
      forall x | x in t
        ensures !Before(x.start, s[0].start)
      {
        assert x in multiset(t);
        if x != e {
          assert x in s[1..];
        } else {
          BeforeIsStrictTotal(e.start, s[0].start, e.start);
        }
      }
      forall i, j | 0 <= i < j < |r|
        ensures !Before(r[j].start, r[i].start)
      {
        if i == 0 {
          assert r[j] == t[j - 1] && r[j] in t;
        }
      }
    }
  }

  lemma {:induction false} SortByStartSorted(s: seq<Event>)
    ensures SortedByStart(SortByStart(s))
  {
    if s != [] {
      SortByStartSorted(s[1..]);
      InsertKeepsSorted(s[0], SortByStart(s[1..]));
    }
  }

  /** The events starting on `d`, in order. */
  function WithStart(s: seq<Event>, d: Date): seq<Event> {
    if s == [] then [] else (if s[0].start == d then [s[0]] else []) + WithStart(s[1..], d)
  }

  lemma {:induction false} InsertWithStart(e: Event, s: seq<Event>, d: Date)
    ensures WithStart(InsertByStart(e, s), d) == WithStart([e] + s, d)
  {
    if s != [] && Before(s[0].start, e.start) {
      InsertWithStart(e, s[1..], d);
      assert ([s[0]] + InsertByStart(e, s[1..]))[1..] == InsertByStart(e, s[1..]);
      assert ([e] + s[1..])[1..] == s[1..];
      assert ([e] + s)[1..] == s;
      BeforeIsStrictTotal(s[0].start, e.start, s[0].start);
    }
  }

  /** The sort is stable: the events of any one day keep their order. */
  lemma {:induction false} SortByStartStable(s: seq<Event>, d: Date)
    ensures WithStart(SortByStart(s), d) == WithStart(s, d)
  {
    if s != [] {
      SortByStartStable(s[1..], d);
      InsertWithStart(s[0], SortByStart(s[1..]), d);
      assert ([s[0]] + SortByStart(s[1..]))[1..] == SortByStart(s[1..]);
    }
  }

  /** `async_get_events` over the collections fetched for the requested range. */
  function AllEvents(collections: Calendar, reg: Registry, base: string, config: FractionConfig)
    : (r: Result<seq<Event>, Failure>)
    ensures r.Ok? <==> CollectEvents(collections, reg, base, config).Ok?
    ensures r.Err? ==> r.error == CollectEvents(collections, reg, base, config).error
    ensures r.Ok? ==> SortedByStart(r.value)
    ensures r.Ok? ==> multiset(r.value) == multiset(CollectEvents(collections, reg, base, config).value)
  {
    match CollectEvents(collections, reg, base, config)
    case Err(e) => Err(e)
    case Ok(events) =>
      SortByStartSorted(events);
      Ok(SortByStart(events))
  }

  /**
   * The event list holds one one-day event per date of every participating fraction,
   * sorted by start, with the events of a day in fraction order.
   */
  lemma AllEventsSorted(collections: Calendar, reg: Registry, base: string, config: FractionConfig, d: Date)
    requires CollectEvents(collections, reg, base, config).Ok?
    ensures var events := CollectEvents(collections, reg, base, config).value;
      var r := AllEvents(collections, reg, base, config);
      r.Ok? && SortedByStart(r.value) && multiset(r.value) == multiset(events)
      && WithStart(r.value, d) == WithStart(events, d)
      && multiset(Starts(events)) == multiset(ParticipantDates(collections, reg, base))
      && forall e :: e in r.value ==> e.start == e.end
  {
    var events := CollectEvents(collections, reg, base, config).value;
    SortByStartSorted(events);
    SortByStartStable(events, d);
    var r := SortByStart(events);
    forall e | e in r
      ensures e.start == e.end
    {
      assert e in multiset(r);
    }
  }
}
