# RecycleApp for Home Assistant, modelled in Dafny

This is a model of the core of the RecycleApp custom integration for Home Assistant. The integration reads waste-collection schedules from the Belgian RecycleApp (FostPlus) public API. The model covers four parts:

- **The API client** (`api.py`):
  - lazy session set-up and endpoint discovery;
  - a GET/POST helper that makes at most two attempts;
  - the `__load_all` pagination loop;
  - the normalisers behind `get_zip_code`, `get_street`, `get_recycling_parks`, `get_fractions` and `get_collections`.
- **The sensors** (`sensor.py`):
  - the per-fraction sensor: its value, its availability and its `days` attribute;
  - the today, tomorrow and upcoming date sensors: their value, availability, state text and attributes.
- **The collection calendar** (`calendar.py`):
  - the next event, chosen by a loop over the fractions, with its state-change listener;
  - the sorted list of all events.
- **Date localization** (`helpers.py`):
  - the translation maps;
  - the single-pass substitution of `%[aAbBdmYy]` directives.

The project is laid out as follows:

- **Modules:**
  - `Dates`: proleptic Gregorian dates between `date.min` and `date.max`, with ordinal arithmetic.
  - `Text`: `strip`, `lower`, `split`, `join`, `replace` and `filter(None, …)` on `seq<char>`.
  - `Dicts`: building a dict from pairs, where the last write wins.
  - `JsonValues`: JSON values and their truthiness.
  - `Api`: the payload types, the exceptions the client lets escape (`Failure`), and every pure normaliser.
  - `ApiClient`: the `FostPlusApi` class, with the network as a parameter.
  - `Sensor`: the sensors.
  - `CollectCalendar`: the calendar.
  - `Helpers`: date localization.
- **Classes.** Objects whose fields the integration updates are classes:
  - `FostPlusApi` (session, endpoint, and the log of requests sent);
  - `FractionSensor` and `DateSensor` (their extra state attributes);
  - `CalendarEntity` (its listener).
- **Loops.** Each loop of the source is a method proved against a specification function:
  - the retry loop (`Send`);
  - the pagination loop (`FetchPages`);
  - the park loop (`BuildParks`);
  - the collection loop (`BuildCalendar`);
  - the next-event loop (`ScanFractions`, called by `NextEvent`).
- **Error paths.** The exceptions the modelled code raises on the data it is given are `Result` errors:
  - `KeyError`, `IndexError`, `ValueError` and `OverflowError`;
  - the `TypeError` raised by subscripting `None`;
  - the `AttributeError` raised after a failed discovery;
  - `FostPlusApiException`.

  Some exception paths are not modelled; they are listed under "Left out".

Places where the code decides, and where it is modelled as written:

- `get_collections` issues one request for the whole period, with a `size` parameter and no pagination (`api.py:272-274`).
- `__load_all` returns the items gathered so far when a page is absent or lacks `items`/`pages`; it does not raise (`api.py:87-88`, `api.py:95`).
- `__ensure_initialization` sets the session before discovering the endpoint (`api.py:37-50`). A failed discovery is therefore not retried. Later calls then fail on the missing `__endpoint` attribute (`EndpointMissing`).
- The calendar's `event` starts from `date.max` with `labels = None` (`calendar.py:155-156`). If the first participating fraction is collected on `date.max`, the loop appends to `None`. `Step` models this as `NoneAccessed`.
- In `event` and `async_get_events`, the default passed to `state.attributes.get(…, self._fractions[f][1])` is evaluated before the lookup (`calendar.py:181-185`, `calendar.py:248-250`). An unconfigured fraction therefore raises `KeyError` even when its state has a friendly name.
- The date sensors' `state` tests `fraction_id in self.coordinator.data` (`sensor.py:262`). Without data this raises as soon as a fraction is configured. `available` iterates `coordinator.data.values()` (`sensor.py:287`), which raises without data.

## Model

| member | source | states |
|---|---|---|
| Dates.NextDay | custom_components/recycle_app/sensor.py:232 | the day after a valid date other than `date.max` is valid, later, and exactly one ordinal further |
| Dates.AddDays | custom_components/recycle_app/api.py:269 | `d + timedelta(days=n)` is a valid date exactly `n` ordinals later, or fails (OverflowError) only when that would pass `date.max` |
| Dates.BeforeIsStrictTotal | custom_components/recycle_app/sensor.py:240-248 | date comparison is irreflexive, transitive and total, so `sorted(...)[0]` is well defined |
| Dates.MaxDateIsLast | custom_components/recycle_app/calendar.py:155 | no valid date comes after `date.max`, the loop's starting bound |
| Dates.BeforeIsOrdinalOrder | custom_components/recycle_app/sensor.py:189 | one date is before another iff its ordinal is smaller, and dates are equal iff their ordinals are |
| Text.TrimStart | custom_components/recycle_app/api.py:137 | removes exactly the leading whitespace: the result is a suffix, starts with no space, and everything cut is space |
| Text.TrimEnd | custom_components/recycle_app/api.py:137 | removes exactly the trailing whitespace: the result is a prefix, ends with no space, and everything cut is space |
| Text.Lower | custom_components/recycle_app/api.py:137 | `lower()` keeps the length and lowers each character |
| Text.StripEnds | custom_components/recycle_app/api.py:137 | a stripped text is empty or neither starts nor ends with whitespace |
| Text.NormalizeIdempotent | custom_components/recycle_app/api.py:137-144 | `strip().lower()` applied twice equals applied once, so the query and the service's names are compared in the same form |
| Text.NonEmpty | custom_components/recycle_app/api.py:187-192 | `filter(None, parts)` keeps only non-empty parts, each taken from the input |
| Text.NonEmptyNone | custom_components/recycle_app/api.py:187-192 | `filter(None, parts)` is empty iff every part is empty |
| Text.JoinNonEmptyEmpty | custom_components/recycle_app/api.py:187-192 | the joined location is empty iff every address part is empty |
| Text.NonEmptyAppend | custom_components/recycle_app/api.py:187-192 | filtering distributes over concatenation |
| Text.JoinNonEmptySkipsEmpty | custom_components/recycle_app/api.py:187-192 | a missing (empty) address part leaves no double separator: the location is as if the part were absent |
| Text.JoinNonEmptyFour | custom_components/recycle_app/api.py:187-192 | with all four address parts present, the location is street, house number, zip code and city separated by single spaces |
| Text.JoinNonEmptyTwo | custom_components/recycle_app/api.py:193-196 | joining two optional texts gives one, the other, or both around the separator |
| Text.Split | custom_components/recycle_app/api.py:286 | `split(c)` gives at least one part and no part holds the separator |
| Text.SplitJoin | custom_components/recycle_app/api.py:286 | joining the parts of `split(c)` with `c` gives the text back |
| Text.Replace | custom_components/recycle_app/calendar.py:157 | `str.replace` with a replacement no longer than the pattern never lengthens the text (its results on a trailing or absent pattern are ReplaceTrailing and ReplaceAbsent) |
| Text.ReplaceTrailing | custom_components/recycle_app/calendar.py:157 | a pattern that ends the text and starts nowhere earlier is the only part replaced: `u + pat` becomes `u + rep` |
| Text.ReplaceAbsent | custom_components/recycle_app/calendar.py:157 | a unique id without `-calendar` is used unchanged as the base id |
| Text.ReplaceLeading | custom_components/recycle_app/helpers.py:18 | replacing a leading pattern that does not recur in the rest gives the replacement then the rest |
| Dicts.Assign | custom_components/recycle_app/api.py:182 | a dict built from pairs has exactly the keys of the pairs |
| Dicts.LastAssignmentWins | custom_components/recycle_app/api.py:182 | the value of a key is the value of its last pair |
| Dicts.AssignSnoc | custom_components/recycle_app/api.py:182 | one more assignment updates exactly that key |
| Api.ItemMatches | custom_components/recycle_app/api.py:114-118 | one `(id, "code - name")` pair per localized name of an item, in order; KeyError iff a name lacks the language |
| Api.ZipCodeMatches | custom_components/recycle_app/api.py:114-118 | succeeds iff every name of every item has the language (KeyError otherwise), with one pair per name |
| Api.ZipCodeMatchAt | custom_components/recycle_app/api.py:114-118 | the j-th name of the i-th item is the pair at position (names of earlier items) + j, in item-then-name order |
| Api.ScanStreets | custom_components/recycle_app/api.py:140-147 | the `next(...)` scan stops at the first item whose normalized name equals the query or that lacks the language |
| Api.ResolveStreet | custom_components/recycle_app/api.py:139-152 | a result is the id and localized name of one of the items; IndexError iff `total == 1` with no items; `invalid_streetname` only with another total; otherwise only KeyError |
| Api.StreetSingleResultTrusted | custom_components/recycle_app/api.py:139-152 | with `total == 1`, the first item is returned whatever its name |
| Api.StreetFirstExactMatch | custom_components/recycle_app/api.py:139-150 | with another total, the first matching item is returned with its name as the service spells it |
| Api.StreetResultMatches | custom_components/recycle_app/api.py:139-150 | with another total, a result always comes from a matching item preceded by no matching item |
| Api.StreetNotFound | custom_components/recycle_app/api.py:139-149 | with another total, `invalid_streetname` is raised iff no item matches |
| Api.CoordinatesOf | custom_components/recycle_app/api.py:175-180 | coordinates are set iff the location holds a truthy list or tuple of exactly two values, and then come from it |
| Api.CoordinatesArePairLonLat | custom_components/recycle_app/api.py:178-186 | a `[lon, lat]` pair becomes latitude `lat`, longitude `lon` |
| Api.ParkDescription | custom_components/recycle_app/api.py:193-196 | the description is the access text and the specific text, separated by a blank line only when both exist |
| Api.ParkRecordOf | custom_components/recycle_app/api.py:182-197 | the record's name is the display name in the language; its coordinates are those of the item's location; its location is the non-empty parts of street, house number, zip code and city joined by spaces, empty iff all four are empty; exception days and opening periods are the item's |
| Api.ParkLocationFull | custom_components/recycle_app/api.py:187-192 | a park with street, house number, zip code and city all given has the location "street number zip city" |
| Api.ParkEntries | custom_components/recycle_app/api.py:173-197 | one `(id, record)` entry per item, in item order |
| Api.BuildParks | custom_components/recycle_app/api.py:168-199 | the loop yields the park directory, or KeyError when a display name lacks the language |
| Api.ParkDirectory | custom_components/recycle_app/api.py:168-199 | the directory is built iff every item has a display name in the language, KeyError otherwise |
| Api.ParkDirectoryKeys | custom_components/recycle_app/api.py:173-182 | the directory has an entry for exactly the ids the items carry |
| Api.ParkDirectoryLastWins | custom_components/recycle_app/api.py:182-197 | the entry of an id is the record of the last item with that id |
| Api.FractionWindow | custom_components/recycle_app/api.py:224-228 | from 1 January of the collection year (this year from June, the previous one before) to 31 December of the next; today lies inside |
| Api.FractionWindowExamples | custom_components/recycle_app/api.py:225-228 | March 2024 asks for 2023-01-01..2024-12-31; July 2024 for 2024-01-01..2025-12-31 |
| Api.FractionEntry | custom_components/recycle_app/api.py:232-240 | an item without logo, or whose logo id is not allowed, yields no entry; one with an allowed logo id and a name in the language yields the fraction's colour and that name; a KeyError is raised iff the item has no fraction, its logo has no id, or its allowed fraction has no name in the language |
| Api.FractionEntries | custom_components/recycle_app/api.py:232-240 | the entries are built iff every item's entry is; every entry's key is an allowed collection type |
| Api.FractionCatalog | custom_components/recycle_app/api.py:232-240 | the catalog is built iff every item's entry is, and its keys are allowed collection types |
| Api.FractionEntriesKeys | custom_components/recycle_app/api.py:232-240 | an entry for an id exists iff the id is allowed and some item carries that logo id |
| Api.FractionCatalogKeys | custom_components/recycle_app/api.py:232-240 | the catalog's keys are exactly the allowed logo ids some item carries; each maps to the colour and localized name of the last item carrying that logo id |
| Api.FractionCatalogLastItem | custom_components/recycle_app/api.py:232-240 | a key's entry comes from the last item carrying that logo id: a later item with the same id overwrites |
| Api.IndexOf | custom_components/recycle_app/api.py:291 | the position of a fraction in the calendar is its first occurrence, or the end when absent |
| Api.TimestampDate | custom_components/recycle_app/api.py:286-290 | skipped (None) iff the date part before `T` starts with `-` or is empty; any date produced is valid |
| Api.ParseInt | custom_components/recycle_app/api.py:290 | `int()` of a non-empty digit string is its decimal value; a part split on `-` holds no sign, so every value read is non-negative |
| Api.ParseDigits | custom_components/recycle_app/api.py:290 | `int()` reads a zero-padded digit string back as its number |
| Api.TimestampRoundTrip | custom_components/recycle_app/api.py:286-290 | an ISO `YYYY-MM-DD` timestamp, with or without a `T…` time, is read back as its date |
| Api.KeptRecord | custom_components/recycle_app/api.py:276-290 | a kept record is not replaced, has an allowed fraction id and carries its timestamp's date |
| Api.KeptRecordSkips | custom_components/recycle_app/api.py:276-290 | a replaced record, one whose logo id is missing or not allowed, and one with an empty timestamp are skipped; an exception comes only from the timestamp of a kept record; a record that is not replaced, has an allowed fraction id and a parsed date is kept as (fraction id, date) |
| Api.KeptRecords | custom_components/recycle_app/api.py:275-290 | every kept record's fraction is an allowed collection type |
| Api.KeepNext | custom_components/recycle_app/api.py:275-293 | one iteration succeeds iff the loop had succeeded and the record raises nothing; a skipped record leaves what was kept unchanged and a kept record is appended to it |
| Api.KeptRecordsMembership | custom_components/recycle_app/api.py:275-290 | a (fraction, date) pair is kept iff some item is kept as exactly that pair |
| Api.KeptRecordsErr | custom_components/recycle_app/api.py:275-290 | the loop raises iff some record raises |
| Api.KeptRecordsErrPersists | custom_components/recycle_app/api.py:275-290 | an exception on a record ends the loop: no later item changes the outcome |
| Api.ReplacedRecordIgnored | custom_components/recycle_app/api.py:276-277 | a replaced record can sit anywhere without changing the calendar |
| Api.SkippedRecordIgnored | custom_components/recycle_app/api.py:276-288 | a replaced, disallowed or undated record can sit anywhere without changing the result |
| Api.Dedup | custom_components/recycle_app/api.py:292-293 | first-occurrence deduplication: no duplicates, same elements |
| Api.DatesOf | custom_components/recycle_app/api.py:291-293 | the dates recorded for a fraction are exactly those of its records |
| Api.AddDateKeys | custom_components/recycle_app/api.py:291-293 | adding a date keeps keys unique and appends the fraction as a new key only when it is absent |
| Api.AddDateLookup | custom_components/recycle_app/api.py:291-293 | the fraction's list gains the date at the end only when it is not already there |
| Api.AddDateOthers | custom_components/recycle_app/api.py:291-293 | other fractions' keys and dates are unchanged |
| Api.GroupKeys | custom_components/recycle_app/api.py:291-295 | the calendar's keys are the records' fractions in first-seen order, without duplicates |
| Api.GroupLookup | custom_components/recycle_app/api.py:291-295 | a fraction's dates are its records' dates in first-seen order, without duplicates |
| Api.CalendarKeysAllowed | custom_components/recycle_app/api.py:283-295 | every key of the returned calendar is unique and an allowed collection type |
| Api.CalendarMembership | custom_components/recycle_app/api.py:275-295 | a date is listed under a fraction iff some kept record of that fraction carries it |
| Api.CalendarListsKeptItems | custom_components/recycle_app/api.py:275-295 | a date is listed under a fraction iff some item of the response is kept as that fraction on that date |
| Api.CollectionCalendar | custom_components/recycle_app/api.py:275-295 | an exception iff some record raises; otherwise a calendar with unique keys and non-empty date lists |
| Api.BuildCalendar | custom_components/recycle_app/api.py:270-295 | the loop yields the grouped calendar of the kept records, or the first exception |
| ApiClient.Attempts | custom_components/recycle_app/api.py:62-66 | one or two attempts, a second only after a first answer other than 200 |
| ApiClient.Exchange | custom_components/recycle_app/api.py:62-66 | the body of the first 200 answer, or None iff both attempts failed |
| ApiClient.BaseUrl | custom_components/recycle_app/api.py:33-50 | requests go to the discovered endpoint; on a first call the settings decide whether discovery fails |
| ApiClient.InitializeIdempotent | custom_components/recycle_app/api.py:26-35 | a second initialization changes nothing and sends nothing |
| ApiClient.Required | custom_components/recycle_app/api.py:113-116 | subscripting the `None` of two failed attempts raises; a body passes through unchanged, and an earlier error is kept |
| ApiClient.Collect | custom_components/recycle_app/api.py:83-95 | the pagination loop only appends to the items already gathered |
| ApiClient.AsksInOrderPrepend | custom_components/recycle_app/api.py:85-93 | the requests for one page, followed by the requests in order from the next page, are in order from this page |
| ApiClient.CollectRequests | custom_components/recycle_app/api.py:83-93 | the pagination loop asks, after the earlier log, for page 1 first and then the same page or the next, with the same action and size |
| ApiClient.CollectConcatenates | custom_components/recycle_app/api.py:85-95 | the loop appends the remaining pages' items in order |
| ApiClient.LoadAllFlattens | custom_components/recycle_app/api.py:68-95 | `__load_all` returns all declared pages concatenated, or those before the first absent page |
| ApiClient.CollectionPeriod | custom_components/recycle_app/api.py:266-269 | from the given date or today; until the given date or exactly 56 days later; OverflowError only for a default end past `date.max` |
| ApiClient.FostPlusApi.constructor | custom_components/recycle_app/api.py:23-24 | a new client has no session, no endpoint and has sent nothing |
| ApiClient.FostPlusApi.Initialize | custom_components/recycle_app/api.py:26-50 | the first call fetches the settings once and sets the endpoint to `API + "/public/v1"`, or fails; later calls do nothing |
| ApiClient.FostPlusApi.Send | custom_components/recycle_app/api.py:52-66 | `__get`/`__post`: initialize, then send the request once or twice, returning the first 200 body or None |
| ApiClient.FostPlusApi.LoadAll | custom_components/recycle_app/api.py:68-95 | `__load_all`: the concatenated pages and the requests sent, as the pagination loop defines them |
| ApiClient.FostPlusApi.FetchPages | custom_components/recycle_app/api.py:83-95 | the while loop gathers what `Collect` specifies and sends exactly its requests |
| ApiClient.FostPlusApi.GetZipCode | custom_components/recycle_app/api.py:97-118 | one GET of `zipcodes?q=…`, then the zip code pairs of its items |
| ApiClient.FostPlusApi.GetStreet | custom_components/recycle_app/api.py:120-152 | one POST for the stripped, lower-cased street, then the street resolution |
| ApiClient.FostPlusApi.GetRecyclingParks | custom_components/recycle_app/api.py:154-199 | one GET of at most 100 parks, then the park directory (empty without `items`) |
| ApiClient.FostPlusApi.GetFractions | custom_components/recycle_app/api.py:201-240 | every page of the collections of the fraction window, then the fraction catalog |
| ApiClient.FostPlusApi.GetCollections | custom_components/recycle_app/api.py:242-295 | the period is computed before anything is sent; one GET, then KeyError without `items` or the collection calendar |
| Sensor.FractionAvailable | custom_components/recycle_app/sensor.py:178-183 | available iff there is data and the fraction is one of its keys |
| Sensor.FractionValue | custom_components/recycle_app/sensor.py:170-176 | None iff the fraction is not in the data; otherwise its first date, or IndexError on an empty list |
| Sensor.FractionValueIffAvailable | custom_components/recycle_app/sensor.py:170-183 | on loaded data the sensor has a value exactly when it is available |
| Sensor.DaysUntil | custom_components/recycle_app/sensor.py:189-190 | `delta.days` is positive iff the date is after today and zero iff it is today |
| Sensor.AddOrdinalDifference | custom_components/recycle_app/sensor.py:189-190 | adding the ordinal difference of two dates to the earlier gives the later |
| Sensor.DaysUntilInverse | custom_components/recycle_app/sensor.py:189-190 | today plus `days` is the date when `days >= 0`; the date plus `-days` is today when `days < 0` |
| Sensor.DaysAttribute | custom_components/recycle_app/sensor.py:187-192 | `days` is set iff there is a value; today plus `days` is the value, or the value plus `-days` is today for a past date |
| Sensor.FractionSensor.constructor | custom_components/recycle_app/sensor.py:145-148 | a new sensor has `days` None |
| Sensor.FractionSensor.WriteState | custom_components/recycle_app/sensor.py:186-194 | `days` follows the value; an IndexError leaves it unchanged |
| Sensor.Earliest | custom_components/recycle_app/sensor.py:240-248 | `sorted(...)[0]`: an element no other element precedes, None iff empty |
| Sensor.AllDates | custom_components/recycle_app/sensor.py:242-244 | every date of every fraction, and no other |
| Sensor.Later | custom_components/recycle_app/sensor.py:245 | exactly the dates after today |
| Sensor.UpcomingDate | custom_components/recycle_app/sensor.py:237-249 | the earliest listed date after today, or None without data or without such a date |
| Sensor.DateSensorValue | custom_components/recycle_app/sensor.py:227-235 | today, tomorrow (OverflowError iff today is `date.max`), the upcoming date, or None for another key |
| Sensor.OnDate | custom_components/recycle_app/sensor.py:259-264 | a name is listed iff a configured fraction with that name is collected on the date |
| Sensor.CollectedPositions | custom_components/recycle_app/sensor.py:259-264 | the positions, in increasing order, of exactly the configured fractions collected on the date |
| Sensor.OnDateInConfigOrder | custom_components/recycle_app/sensor.py:259-264 | the list has one name per configured fraction collected on the date, in configuration order |
| Sensor.OnDateNamesCollected | custom_components/recycle_app/sensor.py:259-264 | every configured fraction collected on the date is named |
| Sensor.AnyFirstIs | custom_components/recycle_app/sensor.py:285-293 | true iff some fraction's first date is the given day |
| Sensor.AnyLater | custom_components/recycle_app/sensor.py:295-298 | true iff some fraction has a date after today |
| Sensor.AnyNonEmpty | custom_components/recycle_app/sensor.py:290-293 | true iff some fraction has a date, the only case where tomorrow's date is computed |
| Sensor.DateSensorAvailable | custom_components/recycle_app/sensor.py:281-299 | false for an unknown key; raises without data; OverflowError iff tomorrow is asked for on `date.max` with a non-empty date list |
| Sensor.AnyFirstIsIffFractionValue | custom_components/recycle_app/sensor.py:285-293 | some fraction's first date is the day iff some fraction sensor shows that day |
| Sensor.TodayAvailableIffFractionToday | custom_components/recycle_app/sensor.py:284-288 | the today sensor is available iff some fraction sensor shows today |
| Sensor.TomorrowAvailableIffFractionTomorrow | custom_components/recycle_app/sensor.py:289-293 | the tomorrow sensor is available iff some fraction sensor shows tomorrow; on `date.max` it raises iff some list is non-empty |
| Sensor.UpcomingAvailableIffValue | custom_components/recycle_app/sensor.py:237-249 | the upcoming sensor is available iff it has a value |
| Sensor.DateSensor.constructor | custom_components/recycle_app/sensor.py:202-224 | a new date sensor keeps its key and fractions, with no attributes set |
| Sensor.DateSensor.State | custom_components/recycle_app/sensor.py:252-278 | None without a date; otherwise sets the `date` and `fractions` attributes and returns the state text, raising without data when fractions are configured |
| Sensor.DateSensor.WriteState | custom_components/recycle_app/sensor.py:186-194 | `days` follows the date sensor's own value; the other attributes are untouched |
| CollectCalendar.BaseId | custom_components/recycle_app/calendar.py:157 | for the calendar id `u + "-calendar"` set at line 76 (with `-calendar` starting nowhere earlier) the base id is `u + "-"`, so base id + fraction is the fraction sensor's id; an id without `-calendar` is kept unchanged |
| CollectCalendar.SensorEntityId | custom_components/recycle_app/calendar.py:164-168 | a sensor is used only when registered under base id + fraction with a non-empty entity id |
| CollectCalendar.Label | custom_components/recycle_app/calendar.py:181-185 | KeyError iff the fraction is not configured, even when the state has a friendly name |
| CollectCalendar.EventOf | custom_components/recycle_app/calendar.py:193-203 | an event iff there are labels: a one-day event summarizing them joined by " - " |
| CollectCalendar.Step | custom_components/recycle_app/calendar.py:163-185 | a fraction without a sensor state changes nothing; a changed selection has non-empty labels and a date no later than before, either the previous date or the fraction's first date; the only errors are IndexError, the append to None and KeyError |
| CollectCalendar.Select | custom_components/recycle_app/calendar.py:155-185 | without labels the date is still `date.max`; labels, once set, are never empty |
| CollectCalendar.ChosenAfterStep | custom_components/recycle_app/calendar.py:163-185 | one iteration keeps the selection the earliest first date with all its labels |
| CollectCalendar.SelectChoosesEarliest | custom_components/recycle_app/calendar.py:155-185 | the loop ends at the earliest first date of a participating fraction, with the labels of all fractions starting that day |
| CollectCalendar.NextEventIsEarliest | custom_components/recycle_app/calendar.py:149-203 | no event iff no fraction takes part; otherwise a one-day event on the earliest first date, with its labels |
| CollectCalendar.SelectErrPersists | custom_components/recycle_app/calendar.py:163-185 | an exception in the loop is the outcome whatever follows |
| CollectCalendar.CalendarEntity.constructor | custom_components/recycle_app/calendar.py:118-147 | a new calendar entity has no listener |
| CollectCalendar.CalendarEntity.NextEvent | custom_components/recycle_app/calendar.py:149-203 | drops the listener; returns the selected event; listens to the found sensors exactly when there is no event |
| CollectCalendar.CalendarEntity.ScanFractions | custom_components/recycle_app/calendar.py:162-184 | the loop over the fractions ends with exactly the selection `Select` defines (its exceptions included) and, when it completes, the entity ids of the registered sensors in fraction order |
| CollectCalendar.CalendarEntity.WillRemove | custom_components/recycle_app/calendar.py:205-213 | the listener is dropped |
| CollectCalendar.FractionEvents | custom_components/recycle_app/calendar.py:244-260 | one one-day event per date of a participating fraction, none otherwise |
| CollectCalendar.CollectEvents | custom_components/recycle_app/calendar.py:244-260 | the events start on the participating fractions' dates, fraction after fraction |
| CollectCalendar.InsertByStart | custom_components/recycle_app/calendar.py:262 | insertion adds exactly the element |
| CollectCalendar.SortByStart | custom_components/recycle_app/calendar.py:262 | sorting is a permutation |
| CollectCalendar.InsertKeepsSorted | custom_components/recycle_app/calendar.py:262 | insertion keeps the list sorted by start |
| CollectCalendar.SortByStartSorted | custom_components/recycle_app/calendar.py:262 | the result is sorted by start |
| CollectCalendar.InsertWithStart | custom_components/recycle_app/calendar.py:262 | insertion keeps the order of the events of each day |
| CollectCalendar.SortByStartStable | custom_components/recycle_app/calendar.py:262 | sorting is stable: the events of a day keep their order |
| CollectCalendar.AllEvents | custom_components/recycle_app/calendar.py:244-262 | fails iff building the events fails, with the same error; otherwise the events sorted by start, as a permutation |
| CollectCalendar.AllEventsSorted | custom_components/recycle_app/calendar.py:244-262 | the event list is a stably sorted permutation of the participating fractions' one-day events |
| Helpers.GroupPairs | custom_components/recycle_app/helpers.py:17-36 | exactly the translations under the prefix, with the prefix replaced by "" in the key |
| Helpers.TranslationMapEntries | custom_components/recycle_app/helpers.py:17-36 | a key is in a map iff some translation under the prefix strips to it, and it maps to that translation's text |
| Helpers.PrefixStripped | custom_components/recycle_app/helpers.py:18-20 | a key made of the prefix and a name maps to that name |
| Helpers.DirectiveTable | custom_components/recycle_app/helpers.py:39-48 | the table has exactly the eight directives `%A %a %B %b %d %m %Y %y` |
| Helpers.NumericDirectivesUntranslated | custom_components/recycle_app/helpers.py:44-47 | `%d %m %Y %y` always give the English numeric text |
| Helpers.NamesFallBackToEnglish | custom_components/recycle_app/helpers.py:40-43 | names are looked up by the English full name and fall back to English |
| Helpers.SubstituteNoDirective | custom_components/recycle_app/helpers.py:56 | a format without directives is unchanged |
| Helpers.SubstituteAppend | custom_components/recycle_app/helpers.py:56 | a format cut after any character but `%` is substituted piece by piece |
| Helpers.SubstituteDirective | custom_components/recycle_app/helpers.py:51-56 | each directive is replaced by its table text verbatim, in a single pass |
| Helpers.SubstituteOtherPercent | custom_components/recycle_app/helpers.py:56 | a `%` before any other character is copied and scanning resumes after it |
| Helpers.LocalizedDate | custom_components/recycle_app/helpers.py:8-58 | `get_localized_date` returns a format without directives unchanged |

## Left out

- HTTP details are not modelled: headers, JSON decoding, URL formatting and query escaping. Requests are values of `Action`, and `server(req, k)` is the answer to attempt `k`.
- The clock (`datetime.now()`) is a parameter `now`/`today`. So are the English `strftime` output of a date and the formatted date a sensor shows.
- `COLLECTION_TYPES` (`const.py`) is not part of this model; it is the parameter `types`.
- `async_get_translations` is not modelled; the translations are the parameter `translations`.
- Home Assistant's entity registry and state machine are modelled as maps (`Registry`). `slugify`, entity ids and device info are not modelled.
- The state-change callback is not modelled. Registering the listener is the `listening` flag and the watched ids.
- `RecycleAppEntity.state` (`value.strftime(...)`) and entity construction details (icons, names, translation keys) are not modelled.
- `async_setup_entry` in `sensor.py` and `calendar.py` is not modelled. Neither are `__init__.py`, `config_flow.py` and `opening_hours_entity.py`.
- `Text.Lower` lowers ASCII and Latin-1 letters only, not the full Unicode case mapping of `str.lower`.
- `Api.ParseInt` accepts surrounding whitespace, an optional `+` and ASCII decimal digits. It leaves out the other forms Python's `int()` accepts: underscores between digits and non-ASCII digits.
- `ApiClient.FostPlusApi.LoadAll` takes a ghost bound on the page counts the service declares, for termination. A service announcing unboundedly many pages is not modelled.
- `ApiClient.FostPlusApi.LoadAll` initializes the client before the first page. The original does so inside the first page's request; the requests sent and the exceptions raised are the same.
- Transport exceptions of `requests` (`ConnectionError`, `Timeout` and the like) are not modelled: `server(req, k)` always answers.
- The `KeyError` of a missing mandatory field is not modelled. A payload that has these fields is a value of the payload types: `items` in `get_zip_code`, `total`, an item's `id`, `exceptionDays`, `openingPeriods` and the fraction's `color`.
- JSON values of an unexpected type (a number where a string is expected, a string where a list is) and the `TypeError`s they cause are not modelled. Each field has the type the code expects.
- Api.TimestampDate: a year beyond the C `int` range makes `date()` raise `OverflowError` rather than `ValueError`. Both are modelled as `InvalidValue`; years 10000 up to that range raise `ValueError`, as modelled.
- A JSON `null` body from a 200 answer is modelled only where the caller tests it (`__load_all`). Elsewhere a body is the decoded payload type.
- `Helpers.LocalizedDate` states only that a format without directives is unchanged. What it does to directives is stated by `Helpers.SubstituteDirective` and `Helpers.SubstituteOtherPercent` on `Helpers.Substitute`.
