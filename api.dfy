/**
 * The normalisation layer of the FostPlus API client (`FostPlusApi` in api.py):
 * the decoded JSON payloads of the RecycleApp service, and the pure functions that turn
 * them into zip-code matches, a street, the recycling-park directory, the fraction catalog
 * and the collection calendar. The HTTP side (session, retry, pagination) is in ApiClient.
 *
 * Payload fields the source reads with `.get(...)` or tests with `in` are `Option`s; fields
 * it subscripts with `[...]` are mandatory, except where another reader is defensive about
 * the same field, in which case the strict reader fails with `MissingKey` as Python's
 * KeyError does.
 */
module Api {
  import opened Wrappers
  import opened Dates
  import opened Text
  import opened JsonValues
  import opened Dicts

  /** The exceptions the client lets escape, one constructor per kind. */
  datatype Failure =
    | InitializationError   // app.settings.json unreadable or without "API"
    | EndpointMissing       // AttributeError: a session exists but no endpoint was discovered
    | NoData                // the `None` of a request that failed twice was subscripted
    | MissingKey            // KeyError on a subscripted field or language
    | IndexOutOfRange       // IndexError
    | InvalidValue          // ValueError from `int(...)` or `date(...)`
    | DateOverflow          // OverflowError from date arithmetic
    | InvalidStreetName     // FostPlusApiException("invalid_streetname")
    | NoneAccessed          // TypeError or AttributeError: `None` searched or its method called

  /** A name per language code, e.g. `{"fr": ..., "nl": ...}`. */
  type Localized = map<string, string>

  // ----- zip codes (get_zip_code) -----

  datatype ZipCodeItem = ZipCodeItem(id: string, code: string, names: seq<Localized>)
  datatype ZipCodesBody = ZipCodesBody(items: seq<ZipCodeItem>)

  /** `f'{item["code"]} - {name[language]}'`. */
  function ZipCodeLabel(item: ZipCodeItem, name: string): string {
    item.code + " - " + name
  }

  function NameCount(items: seq<ZipCodeItem>): nat {
    if items == [] then 0 else |items[0].names| + NameCount(items[1..])
  }

  predicate HasAllNames(items: seq<ZipCodeItem>, language: string) {
    forall i, j :: 0 <= i < |items| && 0 <= j < |items[i].names| ==> language in items[i].names[j]
  }

  /** The pairs of one item, one per localized name, in order. */
  function ItemMatches(item: ZipCodeItem, names: seq<Localized>, language: string)
    : (r: Result<seq<(string, string)>, Failure>)
    ensures r.Ok? <==> forall j :: 0 <= j < |names| ==> language in names[j]
    ensures r.Err? ==> r.error == MissingKey
    ensures r.Ok? ==> |r.value| == |names| && forall j :: 0 <= j < |names| ==>
      r.value[j] == (item.id, ZipCodeLabel(item, names[j][language]))
  {
    if names == [] then Ok([])
    else if language !in names[0] then Err(MissingKey)
    else match ItemMatches(item, names[1..], language)
      case Err(e) => Err(e)
      case Ok(rest) => Ok([(item.id, ZipCodeLabel(item, names[0][language]))] + rest)
  }

  /**
   * The list comprehension of get_zip_code: one (id, label) pair per item and name, in
   * item-then-name order; a name without the requested language raises KeyError.
   */
  function ZipCodeMatches(items: seq<ZipCodeItem>, language: string)
    : (r: Result<seq<(string, string)>, Failure>)
    ensures r.Ok? <==> HasAllNames(items, language)
    ensures r.Err? ==> r.error == MissingKey
    ensures r.Ok? ==> |r.value| == NameCount(items)
  {
    if items == [] then Ok([])
    else
      match ItemMatches(items[0], items[0].names, language)
      case Err(e) => Err(e)
      case Ok(first) =>
        match ZipCodeMatches(items[1..], language)
        case Err(e) =>
          assert !HasAllNames(items[1..], language);
          Err(e)
        case Ok(rest) => Ok(first + rest)
  }

  lemma NameCountAppend(a: seq<ZipCodeItem>, b: seq<ZipCodeItem>)
    ensures NameCount(a + b) == NameCount(a) + NameCount(b)
  {
    if a != [] {
      assert (a + b)[1..] == a[1..] + b;
      NameCountAppend(a[1..], b);
    } else {
      assert a + b == b;
    }
  }

  /** A successful match list is the first item's pairs followed by the others'. */
  lemma ZipCodeMatchesCons(items: seq<ZipCodeItem>, language: string)
    requires items != [] && ZipCodeMatches(items, language).Ok?
    ensures ItemMatches(items[0], items[0].names, language).Ok?
    ensures ZipCodeMatches(items[1..], language).Ok?
    ensures ZipCodeMatches(items, language).value
      == ItemMatches(items[0], items[0].names, language).value + ZipCodeMatches(items[1..], language).value
  {
  }

  lemma NameCountPrefix(items: seq<ZipCodeItem>, i: nat)
    requires 0 < i <= |items|
    ensures NameCount(items[..i]) == |items[0].names| + NameCount(items[1..][..i - 1])
  {
    assert items[..i] == [items[0]] + items[1..][..i - 1];
    NameCountAppend([items[0]], items[1..][..i - 1]);
    assert [items[0]][1..] == [];
  }

  /**
   * Exactly one pair per (item, name), in nested order: the j-th name of the i-th item is
   * at position NameCount(items[..i]) + j.
   */
  lemma {:induction false} ZipCodeMatchAt(items: seq<ZipCodeItem>, language: string, i: nat, j: nat)
    requires ZipCodeMatches(items, language).Ok?
    requires i < |items| && j < |items[i].names|
    ensures NameCount(items[..i]) + j < |ZipCodeMatches(items, language).value|
    ensures ZipCodeMatches(items, language).value[NameCount(items[..i]) + j]
      == (items[i].id, ZipCodeLabel(items[i], items[i].names[j][language]))
  {
    assert ItemMatches(items[0], items[0].names, language).Ok? && ZipCodeMatches(items[1..], language).Ok? by {
      ZipCodeMatchesCons(items, language);
    }
    var first := ItemMatches(items[0], items[0].names, language).value;
    var rest := ZipCodeMatches(items[1..], language).value;
    var all := ZipCodeMatches(items, language).value;
    assert all == first + rest by {
      ZipCodeMatchesCons(items, language);
    }
    var pair := (items[i].id, ZipCodeLabel(items[i], items[i].names[j][language]));
    if i == 0 {
      assert NameCount(items[..0]) == 0 by {
        assert items[..0] == [];
      }
      assert j < |first| && first[j] == pair;
      assert all[j] == first[j];
    } else {
      var k := NameCount(items[1..][..i - 1]) + j;
      assert k < |rest| && rest[k] == pair by {
        ZipCodeMatchAt(items[1..], language, i - 1, j);
        assert items[1..][i - 1] == items[i];
      }
      assert NameCount(items[..i]) + j == |first| + k by {
        NameCountPrefix(items, i);
      }
      assert all[|first| + k] == rest[k];
    }
  }

  // ----- streets (get_street) -----

  datatype StreetItem = StreetItem(id: string, names: Localized)
  datatype StreetsBody = StreetsBody(total: int, items: seq<StreetItem>)

  /** The street's name in `language`, trimmed and lower-cased, equals the (normalized) query. */
  predicate NamedAs(item: StreetItem, query: string, language: string) {
    language in item.names && Normalize(item.names[language]) == query
  }

  /**
   * Where the generator of get_street stops, scanning from index `from`: past the items
   * that carry the language and do not match, at the first match or at the first item
   * without the language (where Python raises KeyError).
   */
  function ScanStreets(items: seq<StreetItem>, query: string, language: string, from: nat): (n: nat)
    requires from <= |items|
    ensures from <= n <= |items|
    ensures forall i :: from <= i < n ==> language in items[i].names && !NamedAs(items[i], query, language)
    ensures n < |items| ==> language !in items[n].names || NamedAs(items[n], query, language)
    decreases |items| - from
  {
    if from == |items| || language !in items[from].names || NamedAs(items[from], query, language) then from
    else ScanStreets(items, query, language, from + 1)
  }

  /** `next((i for i in items if i["names"][language].strip().lower() == street), None)`. */
  function FirstNamed(items: seq<StreetItem>, query: string, language: string)
    : Result<Option<StreetItem>, Failure>
  {
    var n := ScanStreets(items, query, language, 0);
    if n == |items| then Ok(None)
    else if language !in items[n].names then Err(MissingKey)
    else Ok(Some(items[n]))
  }

  /**
   * The decision of get_street once the service has answered, for a query already trimmed and
   * lower-cased: a total of exactly one trusts `items[0]` without looking at its name; any
   * other total requires an exact match, else `invalid_streetname`. The name returned is the
   * localized name as the service spells it.
   */
  function ResolveStreet(query: string, body: StreetsBody, language: string)
    : (r: Result<(string, string), Failure>)
    ensures r.Ok? ==> exists i :: 0 <= i < |body.items| && language in body.items[i].names
                                 && r.value == (body.items[i].id, body.items[i].names[language])
    ensures r == Err(IndexOutOfRange) <==> body.total == 1 && body.items == []
    ensures r == Err(InvalidStreetName) ==> body.total != 1
    ensures r.Err? ==> r.error in {IndexOutOfRange, InvalidStreetName, MissingKey}
  {
    if body.total != 1 then
      match FirstNamed(body.items, query, language)
      case Err(e) => Err(e)
      case Ok(None) => Err(InvalidStreetName)
      case Ok(Some(item)) => Ok((item.id, item.names[language]))
    else if body.items == [] then Err(IndexOutOfRange)
    else if language !in body.items[0].names then Err(MissingKey)
    else Ok((body.items[0].id, body.items[0].names[language]))
  }

  /** A single result is returned whatever its name, even when it does not match the query. */
  lemma StreetSingleResultTrusted(query: string, body: StreetsBody, language: string)
    requires body.total == 1 && body.items != [] && language in body.items[0].names
    ensures ResolveStreet(query, body, language) == Ok((body.items[0].id, body.items[0].names[language]))
  {
  }

  /**
   * Any other total: the street returned is the first item whose trimmed, lower-cased name
   * equals the query, with its name unnormalized.
   */
  lemma StreetFirstExactMatch(query: string, body: StreetsBody, language: string, k: nat)
    requires body.total != 1 && k < |body.items|
    requires NamedAs(body.items[k], query, language)
    requires forall i :: 0 <= i < k ==> language in body.items[i].names && !NamedAs(body.items[i], query, language)
    ensures ResolveStreet(query, body, language) == Ok((body.items[k].id, body.items[k].names[language]))
  {
    var n := ScanStreets(body.items, query, language, 0);
    assert n == k;
  }

  /**
   * Conversely, whenever a street is returned for any other total, it is an item whose
   * trimmed, lower-cased name equals the query and no earlier item matches.
   */
  lemma StreetResultMatches(query: string, body: StreetsBody, language: string)
    requires body.total != 1 && ResolveStreet(query, body, language).Ok?
    ensures var n := ScanStreets(body.items, query, language, 0);
      n < |body.items| && NamedAs(body.items[n], query, language)
      && ResolveStreet(query, body, language).value == (body.items[n].id, body.items[n].names[language])
      && forall i :: 0 <= i < n ==> !NamedAs(body.items[i], query, language)
  {
  }

  /** With any other total, `invalid_streetname` is raised exactly when no item matches. */
  lemma StreetNotFound(query: string, body: StreetsBody, language: string)
    requires body.total != 1
    requires forall i :: 0 <= i < |body.items| ==> language in body.items[i].names
    ensures ResolveStreet(query, body, language) == Err(InvalidStreetName)
      <==> forall i :: 0 <= i < |body.items| ==> !NamedAs(body.items[i], query, language)
  {
  }

  // ----- recycling parks (get_recycling_parks) -----

  datatype ParkLocation = ParkLocation(coordinates: Option<Json>)
  datatype AccessRules = AccessRules(description: Option<Localized>)
  datatype ParkRules = ParkRules(access: Option<AccessRules>, specific: Option<Localized>)
  datatype ParkInfo = ParkInfo(rules: Option<ParkRules>)

  datatype ParkItem = ParkItem(
    id: Option<string>,
    displayName: Localized,
    exceptionDays: Json,
    openingPeriods: Json,
    location: Option<ParkLocation>,
    street: Option<string>,
    houseNumber: Option<string>,
    zipcode: Option<string>,
    city: Option<string>,
    info: Option<ParkInfo>)

  datatype ParksBody = ParksBody(items: Option<seq<ParkItem>>)

  datatype Coordinates = Coordinates(latitude: Option<Json>, longitude: Option<Json>)

  datatype ParkRecord = ParkRecord(
    name: string,
    exceptions: Json,
    periods: Json,
    coordinates: Coordinates,
    location: string,
    description: string)

  /**
   * The defensive coordinate extraction: a JSON array of exactly two elements is read as
   * [longitude, latitude]; anything else, or no coordinates at all, gives (None, None).
   */
  function CoordinatesOf(location: Option<ParkLocation>): (c: Coordinates)
    ensures (c.latitude.Some? || c.longitude.Some?) <==>
      location.Some? && location.value.coordinates.Some?
      && location.value.coordinates.value.Array? && |location.value.coordinates.value.elems| == 2
    ensures c.latitude.Some? ==>
      (c.longitude.Some? && [c.longitude.value, c.latitude.value] == location.value.coordinates.value.elems)
  {
    if location.None? then Coordinates(None, None)
    else match location.value.coordinates
      case Some(coordinates) =>
        if Truthy(coordinates) && coordinates.Array? && |coordinates.elems| == 2
        then Coordinates(Some(coordinates.elems[1]), Some(coordinates.elems[0]))
        else Coordinates(None, None)
      case None => Coordinates(None, None)
  }

  /** `item.get('info', {}).get('rules', {}).get('access', {}).get('description', {}).get(language, '')`. */
  function AccessText(item: ParkItem, language: string): string {
    if item.info.None? || item.info.value.rules.None? then ""
    else
      var rules := item.info.value.rules.value;
      if rules.access.None? || rules.access.value.description.None? then ""
      else
        var texts := rules.access.value.description.value;
        if language in texts then texts[language] else ""
  }

  /** `item.get('info', {}).get('rules', {}).get('specific', {}).get(language, '')`. */
  function SpecificText(item: ParkItem, language: string): string {
    if item.info.None? || item.info.value.rules.None? || item.info.value.rules.value.specific.None? then ""
    else
      var texts := item.info.value.rules.value.specific.value;
      if language in texts then texts[language] else ""
  }

  /** The record of one park; `item["displayName"][language]` is the only strict read. */
  function ParkRecordOf(item: ParkItem, language: string): (r: ParkRecord)
    requires language in item.displayName
    ensures r.name == item.displayName[language]
    ensures r.exceptions == item.exceptionDays && r.periods == item.openingPeriods
    ensures r.coordinates == CoordinatesOf(item.location)
    ensures r.location == JoinNonEmpty(" ", [item.street.GetOr(""), item.houseNumber.GetOr(""),
                                             item.zipcode.GetOr(""), item.city.GetOr("")])
    ensures r.location == [] <==> item.street.GetOr("") == [] && item.houseNumber.GetOr("") == []
                                  && item.zipcode.GetOr("") == [] && item.city.GetOr("") == []
  {
    var address := [item.street.GetOr(""), item.houseNumber.GetOr(""), item.zipcode.GetOr(""), item.city.GetOr("")];
    JoinNonEmptyEmpty(" ", address);
    assert (forall i :: 0 <= i < |address| ==> address[i] == []) <==>
      address[0] == [] && address[1] == [] && address[2] == [] && address[3] == [];
    ParkRecord(
      item.displayName[language],
      item.exceptionDays,
      item.openingPeriods,
      CoordinatesOf(item.location),
      JoinNonEmpty(" ", address),
      JoinNonEmpty("\n\n", [AccessText(item, language), SpecificText(item, language)]))
  }

  /** `[4.35, 50.85]` is longitude 4.35, latitude 50.85: the first element is the longitude. */
  lemma CoordinatesArePairLonLat(lon: Json, lat: Json)
    ensures CoordinatesOf(Some(ParkLocation(Some(Array([lon, lat]))))) == Coordinates(Some(lat), Some(lon))
  {
  }

  /** A park with all four address parts is located at "street number zipcode city". */
  lemma ParkLocationFull(item: ParkItem, language: string)
    requires language in item.displayName
    requires item.street.GetOr("") != [] && item.houseNumber.GetOr("") != []
    requires item.zipcode.GetOr("") != [] && item.city.GetOr("") != []
    ensures ParkRecordOf(item, language).location ==
      item.street.value + " " + item.houseNumber.value + " " + item.zipcode.value + " " + item.city.value
  {
    JoinNonEmptyFour(" ", item.street.value, item.houseNumber.value, item.zipcode.value, item.city.value);
  }

  /** The description is the access text and the specific text, with a blank line between them only when both exist. */
  lemma ParkDescription(item: ParkItem, language: string)
    requires language in item.displayName
    ensures var a, b := AccessText(item, language), SpecificText(item, language);
      ParkRecordOf(item, language).description ==
        if a == [] then b else if b == [] then a else a + "\n\n" + b
  {
    JoinNonEmptyTwo("\n\n", AccessText(item, language), SpecificText(item, language));
  }

  predicate HasDisplayNames(items: seq<ParkItem>, language: string) {
    forall i :: 0 <= i < |items| ==> language in items[i].displayName
  }

  function ParkEntries(items: seq<ParkItem>, language: string): (r: seq<(Option<string>, ParkRecord)>)
    requires HasDisplayNames(items, language)
    ensures |r| == |items|
    ensures forall i :: 0 <= i < |items| ==> r[i] == (items[i].id, ParkRecordOf(items[i], language))
  {
    if items == [] then []
    else ParkEntries(items[..|items| - 1], language) + [(items[|items| - 1].id, ParkRecordOf(items[|items| - 1], language))]
  }

  /** The dict get_recycling_parks returns for the items of the response. */
  function ParkDirectory(items: seq<ParkItem>, language: string): (r: Result<map<Option<string>, ParkRecord>, Failure>)
    ensures r.Ok? <==> forall i :: 0 <= i < |items| ==> language in items[i].displayName
    ensures r.Err? ==> r.error == MissingKey
  {
    if HasDisplayNames(items, language) then Ok(Assign(ParkEntries(items, language))) else Err(MissingKey)
  }

  /**
   * The loop of get_recycling_parks: one entry per distinct `id`, filled in item order so
   * that a later item with the same id replaces an earlier one.
   */
  method BuildParks(items: seq<ParkItem>, language: string)
    returns (r: Result<map<Option<string>, ParkRecord>, Failure>)
    ensures r == ParkDirectory(items, language)
  {
    var result: map<Option<string>, ParkRecord> := map[];
    for i := 0 to |items|
      invariant HasDisplayNames(items[..i], language)
      invariant result == Assign(ParkEntries(items[..i], language))
    {
      var item := items[i];
      if language !in item.displayName {
        assert !HasDisplayNames(items, language);
        return Err(MissingKey);
      }
      ParkEntriesStep(items, language, i);
      result := result[item.id := ParkRecordOf(item, language)];
    }
    assert items[..|items|] == items;
    return Ok(result);
  }

  /** One more item sets its id's entry to its record. */
  lemma ParkEntriesStep(items: seq<ParkItem>, language: string, i: nat)
    requires i < |items| && HasDisplayNames(items[..i], language) && language in items[i].displayName
    ensures HasDisplayNames(items[..i + 1], language)
    ensures Assign(ParkEntries(items[..i + 1], language))
      == Assign(ParkEntries(items[..i], language))[items[i].id := ParkRecordOf(items[i], language)]
  {
    var longer := items[..i + 1];
    forall k | 0 <= k < i + 1
      ensures language in longer[k].displayName
    {
      if k < i {
        assert longer[k] == items[..i][k];
      }
    }
    assert longer[..i] == items[..i] && longer[i] == items[i];
    AssignSnoc(ParkEntries(items[..i], language), (items[i].id, ParkRecordOf(items[i], language)));
  }

  /** The directory has an entry for exactly the ids the items carry. */
  lemma ParkDirectoryKeys(items: seq<ParkItem>, language: string, id: Option<string>)
    requires ParkDirectory(items, language).Ok?
    ensures id in ParkDirectory(items, language).value <==> exists i :: 0 <= i < |items| && items[i].id == id
  {
    var entries := ParkEntries(items, language);
    assert forall i :: 0 <= i < |items| ==> entries[i].0 == items[i].id;
  }

  /** The entry of an id holds the record of the last item carrying that id. */
  lemma ParkDirectoryLastWins(items: seq<ParkItem>, language: string, id: Option<string>)
    requires ParkDirectory(items, language).Ok?
    requires id in ParkDirectory(items, language).value
    ensures exists i :: (0 <= i < |items| && items[i].id == id
      && ParkDirectory(items, language).value[id] == ParkRecordOf(items[i], language)
      && forall j :: i < j < |items| ==> items[j].id != id)
  {
    var entries := ParkEntries(items, language);
    var m := Assign(entries);
    assert ParkDirectory(items, language).value == m;
    LastAssignmentWins(entries, id);
    var i := LastIndex(entries, id);
    assert m[id] == entries[i].1 == ParkRecordOf(items[i], language);
    assert forall j :: i < j < |items| ==> items[j].id == entries[j].0;
    assert 0 <= i < |items| && items[i].id == id && m[id] == ParkRecordOf(items[i], language);
  }

  // ----- fraction catalog (get_fractions) -----

  datatype Logo = Logo(id: Option<string>)
  datatype FractionInfo = FractionInfo(logo: Option<Logo>, color: string, name: Localized)
  datatype CollectionException = CollectionException(replacedBy: Option<Json>)
  datatype CollectionItem = CollectionItem(
    exception: Option<CollectionException>,
    fraction: Option<FractionInfo>,
    timestamp: Option<string>)

  /** The paginated envelope: `items` and `pages` may be missing from a malformed page. */
  datatype Envelope<T> = Envelope(items: Option<seq<T>>, pages: Option<int>)

  /** The month from which the collection year is the current year. */
  const CollectionYearStartMonth := 6

  /**
   * The window get_fractions asks for: 1 January of the collection year (the current year
   * from June on, the previous year before) to 31 December of the year after it.
   */
  function FractionWindow(now: Date): (w: (Date, Date))
    requires Valid(now)
    ensures var startYear := if now.month >= CollectionYearStartMonth then now.year else now.year - 1;
      w.0 == Date(startYear, 1, 1) && w.1 == Date(startYear + 1, 12, 31)
    ensures !Before(now, w.0) && Before(now, w.1)
  {
    var startYear := if now.month >= CollectionYearStartMonth then now.year else now.year - 1;
    (Date(startYear, 1, 1), Date(startYear + 1, 12, 31))
  }

  lemma FractionWindowExamples()
    ensures FractionWindow(Date(2024, 3, 15)) == (Date(2023, 1, 1), Date(2024, 12, 31))
    ensures FractionWindow(Date(2024, 7, 1)) == (Date(2024, 1, 1), Date(2025, 12, 31))
  {
  }

  /**
   * What the dict comprehension of get_fractions makes of one item: skipped (None) when it
   * has no `logo` or its logo id is not an allowed collection type, otherwise the entry
   * logo id -> (color, name). Subscripting a missing `fraction`, logo `id` or language
   * raises KeyError.
   */
  function FractionEntry(item: CollectionItem, types: set<string>, language: string)
    : (r: Result<Option<(string, (string, string))>, Failure>)
    ensures r.Ok? && r.value.Some? ==> r.value.value.0 in types
    ensures r.Ok? && r.value.Some? ==>
      HasLogoId(item, r.value.value.0) && language in item.fraction.value.name
      && r.value.value.1 == (item.fraction.value.color, item.fraction.value.name[language])
    ensures r.Ok? && r.value.None? ==> forall id :: HasLogoId(item, id) ==> id !in types
    ensures item.fraction.Some? && item.fraction.value.logo.None? ==> r == Ok(None)
    ensures FractionIdOf(item).Some? && FractionIdOf(item).value !in types ==> r == Ok(None)
    ensures FractionIdOf(item).Some? && FractionIdOf(item).value in types && language in item.fraction.value.name ==>
      r == Ok(Some((FractionIdOf(item).value, (item.fraction.value.color, item.fraction.value.name[language]))))
    ensures r.Err? <==>
      item.fraction.None?
      || (item.fraction.value.logo.Some? && item.fraction.value.logo.value.id.None?)
      || (FractionIdOf(item).Some? && FractionIdOf(item).value in types && language !in item.fraction.value.name)
    ensures r.Err? ==> r.error == MissingKey
  {
    if item.fraction.None? then Err(MissingKey)
    else
      var fraction := item.fraction.value;
      if fraction.logo.None? then Ok(None)
      else if fraction.logo.value.id.None? then Err(MissingKey)
      else if fraction.logo.value.id.value !in types then Ok(None)
      else if language !in fraction.name then Err(MissingKey)
      else Ok(Some((fraction.logo.value.id.value, (fraction.color, fraction.name[language]))))
  }

  /** The entries of the comprehension, in item order, or its first exception. */
  function FractionEntries(items: seq<CollectionItem>, types: set<string>, language: string)
    : (r: Result<seq<(string, (string, string))>, Failure>)
    ensures r.Ok? ==> forall e :: e in r.value ==> e.0 in types
    ensures r.Ok? <==> forall i :: 0 <= i < |items| ==> FractionEntry(items[i], types, language).Ok?
  {
    assert forall i :: 0 <= i < |items| - 1 ==> items[..|items| - 1][i] == items[i];
    if items == [] then Ok([])
    else match FractionEntries(items[..|items| - 1], types, language)
      case Err(e) => Err(e)
      case Ok(entries) =>
        match FractionEntry(items[|items| - 1], types, language)
        case Err(e) => Err(e)
        case Ok(None) => Ok(entries)
        case Ok(Some(entry)) => Ok(entries + [entry])
  }

  /** get_fractions' result: logo id -> (color, localized name). */
  function FractionCatalog(items: seq<CollectionItem>, types: set<string>, language: string)
    : (r: Result<map<string, (string, string)>, Failure>)
    ensures r.Ok? <==> forall i :: 0 <= i < |items| ==> FractionEntry(items[i], types, language).Ok?
    ensures r.Ok? ==> forall id :: id in r.value ==> id in types
  {
    match FractionEntries(items, types, language)
    case Err(e) => Err(e)
    case Ok(entries) => Ok(Assign(entries))
  }

  /** The id of an item's fraction logo when it has one. */
  predicate HasLogoId(item: CollectionItem, id: string) {
    item.fraction.Some? && item.fraction.value.logo.Some? && item.fraction.value.logo.value.id == Some(id)
  }

  lemma {:induction false} FractionEntriesKeys(items: seq<CollectionItem>, types: set<string>, language: string, id: string)
    requires FractionEntries(items, types, language).Ok?
    ensures var entries := FractionEntries(items, types, language).value;
      (exists k :: 0 <= k < |entries| && entries[k].0 == id) <==>
      (id in types && exists i :: 0 <= i < |items| && HasLogoId(items[i], id))
  {
    if items != [] {
      var n := |items|;
      var prefix := items[..n - 1];
      FractionEntriesKeys(prefix, types, language, id);
      assert forall i :: 0 <= i < n - 1 ==> prefix[i] == items[i];
      var entries := FractionEntries(items, types, language).value;
      var before := FractionEntries(prefix, types, language).value;
      assert forall k :: 0 <= k < |before| ==> entries[k] == before[k];
      if id in types && HasLogoId(items[n - 1], id) {
        assert entries[|entries| - 1].0 == id;
      }
    }
  }

  /**
   * The catalog's keys are exactly the allowed logo ids that some item carries; items
   * without a logo contribute nothing, and a later item with the same logo id overwrites.
   */
  lemma FractionCatalogKeys(items: seq<CollectionItem>, types: set<string>, language: string, id: string)
    requires FractionCatalog(items, types, language).Ok?
    ensures id in FractionCatalog(items, types, language).value <==>
      id in types && exists i :: 0 <= i < |items| && HasLogoId(items[i], id)
    ensures id in FractionCatalog(items, types, language).value ==>
      exists i :: (0 <= i < |items| && HasLogoId(items[i], id) && language in items[i].fraction.value.name
        && FractionCatalog(items, types, language).value[id]
           == (items[i].fraction.value.color, items[i].fraction.value.name[language])
        && forall j :: i < j < |items| ==> !HasLogoId(items[j], id))
  {
    FractionEntriesKeys(items, types, language, id);
    if id in FractionCatalog(items, types, language).value {
      FractionCatalogLastItem(items, types, language, id);
      var i :| LastCarrier(items, language, id, i, FractionCatalog(items, types, language).value[id]);
    }
  }

  /** Item `i` is the last of `items` carrying logo `id`, and `v` is its color and name. */
  predicate LastCarrier(items: seq<CollectionItem>, language: string, id: string, i: int, v: (string, string)) {
    0 <= i < |items| && HasLogoId(items[i], id) && language in items[i].fraction.value.name
    && v == (items[i].fraction.value.color, items[i].fraction.value.name[language])
    && forall j :: i < j < |items| ==> !HasLogoId(items[j], id)
  }

  /** An item without logo `id` appended after the last carrier leaves it the last carrier. */
  lemma LastCarrierSnoc(items: seq<CollectionItem>, language: string, id: string, i: int, v: (string, string))
    requires items != [] && !HasLogoId(items[|items| - 1], id)
    requires LastCarrier(items[..|items| - 1], language, id, i, v)
    ensures LastCarrier(items, language, id, i, v)
  {
    var prefix := items[..|items| - 1];
    assert prefix[i] == items[i];
    forall j | i < j < |items| ensures !HasLogoId(items[j], id) {
      if j < |items| - 1 { assert prefix[j] == items[j]; }
    }
  }

  /** The entry of a logo id is the color and name of the last item carrying it. */
  lemma {:induction false} FractionCatalogLastItem(items: seq<CollectionItem>, types: set<string>, language: string, id: string)
    requires FractionCatalog(items, types, language).Ok? && id in FractionCatalog(items, types, language).value
    ensures exists i :: LastCarrier(items, language, id, i, FractionCatalog(items, types, language).value[id])
  {
    var n := |items| - 1;
    var prefix := items[..n];
    FractionCatalogSnoc(items, types, language);
    var e := FractionEntry(items[n], types, language).value;
    if e.None? || e.value.0 != id {
      FractionCatalogLastItem(prefix, types, language, id);
      var i :| LastCarrier(prefix, language, id, i, FractionCatalog(prefix, types, language).value[id]);
      LastCarrierSnoc(items, language, id, i, FractionCatalog(prefix, types, language).value[id]);
    } else {
      assert LastCarrier(items, language, id, n, FractionCatalog(items, types, language).value[id]);
    }
  }

  /** The catalog after one more item: its entry, when it has one, is assigned last. */
  lemma FractionCatalogSnoc(items: seq<CollectionItem>, types: set<string>, language: string)
    requires items != [] && FractionCatalog(items, types, language).Ok?
    ensures FractionCatalog(items[..|items| - 1], types, language).Ok?
    ensures FractionEntry(items[|items| - 1], types, language).Ok?
    ensures var before := FractionCatalog(items[..|items| - 1], types, language).value;
      var e := FractionEntry(items[|items| - 1], types, language).value;
      FractionCatalog(items, types, language).value == if e.None? then before else before[e.value.0 := e.value.1]
  {
    var n := |items| - 1;
    var entries := FractionEntries(items[..n], types, language).value;
    var e := FractionEntry(items[n], types, language).value;
    if e.Some? {
      AssignSnoc(entries, e.value);
    }
  }


  // ----- collection calendar (get_collections) -----

  /** One key of the calendar: a fraction's logo id and its collection dates. */
  datatype FractionDates = FractionDates(fraction: string, dates: seq<Date>)

  /** fraction id -> dates, in the insertion order of the source's dict. */
  type Calendar = seq<FractionDates>

  function Fractions(cal: Calendar): (r: seq<string>)
    ensures |r| == |cal| && forall i :: 0 <= i < |cal| ==> r[i] == cal[i].fraction
  {
    if cal == [] then [] else Fractions(cal[..|cal| - 1]) + [cal[|cal| - 1].fraction]
  }

  predicate DuplicateFree<T(==)>(s: seq<T>) {
    forall i, j :: 0 <= i < j < |s| ==> s[i] != s[j]
  }

  /** What every calendar get_collections returns satisfies: distinct keys, non-empty lists. */
  predicate WellFormed(cal: Calendar) {
    DuplicateFree(Fractions(cal)) && forall i :: 0 <= i < |cal| ==> cal[i].dates != []
  }

  /** The position of `f` among the keys, or |cal| when it is not a key. */
  function IndexOf(cal: Calendar, f: string): (n: nat)
    ensures n <= |cal|
    ensures n < |cal| ==> cal[n].fraction == f
    ensures forall i :: 0 <= i < n ==> cal[i].fraction != f
  {
    if cal == [] then 0
    else if cal[0].fraction == f then 0
    else
      var n := IndexOf(cal[1..], f);
      assert forall i :: 1 <= i <= n ==> cal[i] == cal[1..][i - 1];
      n + 1
  }

  /** `f in cal`. */
  predicate HasKey(cal: Calendar, f: string) {
    IndexOf(cal, f) < |cal|
  }

  /** `cal[f]`, for a key. */
  function Lookup(cal: Calendar, f: string): seq<Date>
    requires HasKey(cal, f)
  {
    cal[IndexOf(cal, f)].dates
  }

  predicate IsDigit(c: char) {
    '0' <= c <= '9'
  }

  function DigitValue(c: char): nat
    requires IsDigit(c)
  {
    c as int - '0' as int
  }

  function DigitsValue(s: string): nat
    requires forall i :: 0 <= i < |s| ==> IsDigit(s[i])
  {
    if s == [] then 0 else 10 * DigitsValue(s[..|s| - 1]) + DigitValue(s[|s| - 1])
  }

  /**
   * `int(s)` for the strings a date part can be: optional surrounding whitespace, an
   * optional `+`, then decimal digits. None where Python raises ValueError.
   */
  function ParseInt(s: string): (r: Option<int>)
    ensures r.Some? ==> r.value >= 0
    ensures s != [] && (forall i :: 0 <= i < |s| ==> IsDigit(s[i])) ==> r == Some(DigitsValue(s))
  {
    assert s != [] && (forall i :: 0 <= i < |s| ==> IsDigit(s[i])) ==> Strip(s) == s by {
      if s != [] && forall i :: 0 <= i < |s| ==> IsDigit(s[i]) {
        assert !IsSpace(s[0]) && !IsSpace(s[|s| - 1]);
        assert TrimStart(s) == s;
      }
    }
    var t := Strip(s);
    var u := if t != [] && t[0] == '+' then t[1..] else t;
    if u != [] && forall i :: 0 <= i < |u| ==> IsDigit(u[i]) then Some(DigitsValue(u)) else None
  }

  /**
   * `item.get("timestamp", "").split("T")[0].split("-")` and the `date(...)` built from it:
   * Ok(None) when the first part is empty (the record is skipped); IndexError or ValueError
   * for a timestamp without three numeric parts or naming no valid day.
   */
  function TimestampDate(ts: string): (r: Result<Option<Date>, Failure>)
    ensures r == Ok(None) <==> Split(Split(ts, 'T')[0], '-')[0] == ""
    ensures r.Ok? && r.value.Some? ==> Valid(r.value.value)
  {
    var parts := Split(Split(ts, 'T')[0], '-');
    if parts[0] == "" then Ok(None)
    else match ParseInt(parts[0])
      case None => Err(InvalidValue)
      case Some(y) =>
        if |parts| < 2 then Err(IndexOutOfRange)
        else match ParseInt(parts[1])
          case None => Err(InvalidValue)
          case Some(m) =>
            if |parts| < 3 then Err(IndexOutOfRange)
            else match ParseInt(parts[2])
              case None => Err(InvalidValue)
              case Some(d) => if Valid(Date(y, m, d)) then Ok(Some(Date(y, m, d))) else Err(InvalidValue)
  }

  /** The record is marked as replaced by another one (`exception.replacedBy` is truthy). */
  predicate Replaced(item: CollectionItem) {
    item.exception.Some? && item.exception.value.replacedBy.Some? && Truthy(item.exception.value.replacedBy.value)
  }

  /** `item.get("fraction", {}).get("logo", {}).get("id", None)`. */
  function FractionIdOf(item: CollectionItem): Option<string> {
    if item.fraction.None? || item.fraction.value.logo.None? then None
    else item.fraction.value.logo.value.id
  }

  /**
   * What the loop of get_collections keeps of one record: nothing for a replaced record,
   * one whose logo id is not an allowed collection type, or one with an empty timestamp;
   * otherwise its fraction id and date.
   */
  function KeptRecord(item: CollectionItem, types: set<string>): (r: Result<Option<(string, Date)>, Failure>)
    ensures r.Ok? && r.value.Some? ==>
      !Replaced(item) && FractionIdOf(item) == Some(r.value.value.0) && r.value.value.0 in types
      && TimestampDate(item.timestamp.GetOr("")) == Ok(Some(r.value.value.1))
  {
    if Replaced(item) then Ok(None)
    else match FractionIdOf(item)
      case None => Ok(None)
      case Some(f) =>
        if f !in types then Ok(None)
        else match TimestampDate(item.timestamp.GetOr(""))
          case Err(e) => Err(e)
          case Ok(None) => Ok(None)
          case Ok(Some(d)) => Ok(Some((f, d)))
  }

  /**
   * The three records the loop skips: a replaced one whatever its other fields, one whose
   * logo id is missing or not an allowed type, and one with an empty timestamp. A record
   * raises only through its timestamp, and only when it is none of the first two.
   */
  lemma KeptRecordSkips(item: CollectionItem, types: set<string>)
    ensures Replaced(item) ==> KeptRecord(item, types) == Ok(None)
    ensures FractionIdOf(item).None? || FractionIdOf(item).value !in types ==> KeptRecord(item, types) == Ok(None)
    ensures TimestampDate(item.timestamp.GetOr("")) == Ok(None) ==> KeptRecord(item, types) == Ok(None)
    ensures KeptRecord(item, types).Err? ==>
      !Replaced(item) && FractionIdOf(item).Some? && FractionIdOf(item).value in types
      && TimestampDate(item.timestamp.GetOr("")) == Err(KeptRecord(item, types).error)
    ensures var ts := TimestampDate(item.timestamp.GetOr(""));
      (!Replaced(item) && FractionIdOf(item).Some? && FractionIdOf(item).value in types && ts.Ok? && ts.value.Some?)
      ==> KeptRecord(item, types) == Ok(Some((FractionIdOf(item).value, ts.value.value)))
  {
  }

  /** The kept (fraction, date) records in arrival order, or the first exception. */
  function KeptRecords(items: seq<CollectionItem>, types: set<string>): (r: Result<seq<(string, Date)>, Failure>)
    ensures r.Ok? ==> forall k :: 0 <= k < |r.value| ==> r.value[k].0 in types
  {
    if items == [] then Ok([])
    else KeepNext(KeptRecords(items[..|items| - 1], types), items[|items| - 1], types)
  }

  /** One iteration of the loop: the first exception stays, otherwise what is kept of `item` is appended. */
  function KeepNext(kept: Result<seq<(string, Date)>, Failure>, item: CollectionItem, types: set<string>)
    : (r: Result<seq<(string, Date)>, Failure>)
    ensures r.Ok? ==> kept.Ok? && |kept.value| <= |r.value| && r.value[..|kept.value|] == kept.value
    ensures r.Ok? <==> kept.Ok? && KeptRecord(item, types).Ok?
    ensures kept.Ok? && KeptRecord(item, types) == Ok(None) ==> r == kept
    ensures kept.Ok? && KeptRecord(item, types).Ok? && KeptRecord(item, types).value.Some? ==>
      r == Ok(kept.value + [KeptRecord(item, types).value.value])
  {
    match kept
    case Err(e) => Err(e)
    case Ok(records) =>
      match KeptRecord(item, types)
      case Err(e) => Err(e)
      case Ok(None) => Ok(records)
      case Ok(Some(record)) => Ok(records + [record])
  }

  /** `fraction = result[f]; if d not in fraction: fraction.append(d)` on a defaultdict(list). */
  function AddDate(cal: Calendar, f: string, d: Date): Calendar {
    var n := IndexOf(cal, f);
    if n == |cal| then cal + [FractionDates(f, [d])]
    else if d in cal[n].dates then cal
    else cal[n := FractionDates(f, cal[n].dates + [d])]
  }

  /** The calendar the loop builds from kept records. */
  function Group(records: seq<(string, Date)>): Calendar {
    if records == [] then []
    else
      var last := records[|records| - 1];
      AddDate(Group(records[..|records| - 1]), last.0, last.1)
  }

  /** get_collections' result for the items of the response. */
  function CollectionCalendar(items: seq<CollectionItem>, types: set<string>): (r: Result<Calendar, Failure>)
    ensures r.Err? <==> exists i :: 0 <= i < |items| && KeptRecord(items[i], types).Err?
    ensures r.Ok? ==> WellFormed(r.value)
  {
    KeptRecordsErr(items, types);
    match KeptRecords(items, types)
    case Err(e) => Err(e)
    case Ok(records) =>
      GroupKeys(records);
      Ok(Group(records))
  }

  /** The loop raises exactly when some record raises. */
  lemma {:induction false} KeptRecordsErr(items: seq<CollectionItem>, types: set<string>)
    ensures KeptRecords(items, types).Err? <==> exists i :: 0 <= i < |items| && KeptRecord(items[i], types).Err?
  {
    if items != [] {
      var n := |items| - 1;
      var prefix := items[..n];
      KeptRecordsErr(prefix, types);
      assert KeptRecords(items, types) == KeepNext(KeptRecords(prefix, types), items[n], types);
      if KeptRecords(items, types).Err? {
        if KeptRecords(prefix, types).Err? {
          var j :| 0 <= j < n && KeptRecord(prefix[j], types).Err?;
          assert prefix[j] == items[j];
        } else {
          assert KeptRecord(items[n], types).Err?;
        }
      } else {
        forall i | 0 <= i < |items|
          ensures KeptRecord(items[i], types).Ok?
        {
          if i < n {
            assert prefix[i] == items[i];
          } else {
            assert i == n;
          }
        }
      }
    }
  }



  /** The loop of get_collections. */
  method BuildCalendar(items: seq<CollectionItem>, types: set<string>) returns (r: Result<Calendar, Failure>)
    ensures r == CollectionCalendar(items, types)
  {
    var result: Calendar := [];
    ghost var records: seq<(string, Date)> := [];
    for i := 0 to |items|
      invariant KeptRecords(items[..i], types) == Ok(records)
      invariant result == Group(records)
    {
      var item := items[i];
      assert items[..i + 1] == items[..i] + [item];
      KeptRecordsSnoc(items[..i], item, types);
      if Replaced(item) {
        continue;
      }
      var fractionId := FractionIdOf(item);
      if fractionId.None? || fractionId.value !in types {
        continue;
      }
      var date := TimestampDate(item.timestamp.GetOr(""));
      if date.Err? {
        KeptRecordsErrPersists(items, types, i + 1);
        return Err(date.error);
      }
      if date.value.None? {
        continue;
      }
      var record := (fractionId.value, date.value.value);
      assert KeptRecord(item, types) == Ok(Some(record));
      var n := IndexOf(result, record.0);
      if n == |result| {
        result := result + [FractionDates(record.0, [record.1])];
      } else if record.1 !in result[n].dates {
        result := result[n := FractionDates(record.0, result[n].dates + [record.1])];
      }
      GroupSnoc(records, record);
      records := records + [record];
    }
    assert items[..|items|] == items;
    return Ok(result);
  }

  /** One more record adds its date to the grouped calendar. */
  lemma GroupSnoc(records: seq<(string, Date)>, record: (string, Date))
    ensures Group(records + [record]) == AddDate(Group(records), record.0, record.1)
  {
    assert (records + [record])[..|records|] == records;
  }

  /** An exception raised for a prefix of the items is raised for all of them. */
  lemma {:induction false} KeptRecordsErrPersists(items: seq<CollectionItem>, types: set<string>, i: nat)
    requires i <= |items| && KeptRecords(items[..i], types).Err?
    ensures KeptRecords(items, types) == KeptRecords(items[..i], types)
    decreases |items| - i
  {
    if i < |items| {
      var next := items[..i + 1];
      assert next[..i] == items[..i] && next[i] == items[i];
      assert KeptRecords(next, types) == KeepNext(KeptRecords(items[..i], types), items[i], types);
      KeptRecordsErrPersists(items, types, i + 1);
    } else {
      assert items[..i] == items;
    }
  }

  /** The first occurrence of every element, in order of first occurrence. */
  function Dedup<T(==, !new)>(s: seq<T>): (r: seq<T>)
    ensures DuplicateFree(r)
    ensures forall x :: x in r <==> x in s
  {
    if s == [] then []
    else
      var p := Dedup(s[..|s| - 1]);
      assert s == s[..|s| - 1] + [s[|s| - 1]];
      if s[|s| - 1] in p then p else p + [s[|s| - 1]]
  }

  /** The fraction ids of the kept records, in arrival order. */
  function RecordFractions(records: seq<(string, Date)>): (r: seq<string>)
    ensures |r| == |records| && forall k :: 0 <= k < |r| ==> r[k] == records[k].0
  {
    if records == [] then [] else RecordFractions(records[..|records| - 1]) + [records[|records| - 1].0]
  }

  /** The dates of the kept records of fraction `f`, in arrival order. */
  function DatesOf(records: seq<(string, Date)>, f: string): (r: seq<Date>)
    ensures forall d :: d in r <==> (f, d) in records
  {
    if records == [] then []
    else
      var last := records[|records| - 1];
      assert records == records[..|records| - 1] + [last];
      DatesOf(records[..|records| - 1], f) + (if last.0 == f then [last.1] else [])
  }

  /** With distinct keys, the index of a key is the one position that holds it. */
  lemma {:induction false} IndexOfKey(cal: Calendar, i: nat)
    requires DuplicateFree(Fractions(cal)) && i < |cal|
    ensures IndexOf(cal, cal[i].fraction) == i
  {
    var n := IndexOf(cal, cal[i].fraction);
    assert n <= i;
    assert Fractions(cal)[n] == Fractions(cal)[i];
  }

  /** Adding one (fraction, date) record keeps the calendar well formed; a new fraction becomes the last key. */
  lemma AddDateKeys(cal: Calendar, f: string, d: Date)
    requires WellFormed(cal)
    ensures WellFormed(AddDate(cal, f, d))
    ensures Fractions(AddDate(cal, f, d)) == if HasKey(cal, f) then Fractions(cal) else Fractions(cal) + [f]
    ensures HasKey(AddDate(cal, f, d), f)
  {
    var r := AddDate(cal, f, d);
    if IndexOf(cal, f) == |cal| {
      assert Fractions(r) == Fractions(cal) + [f];
      IndexOfKey(r, |cal|);
    } else {
      assert Fractions(r) == Fractions(cal);
      IndexOfKey(r, IndexOf(cal, f));
    }
  }

  /** Adding one (fraction, date) record appends the date to that fraction's list unless it is there already. */
  lemma AddDateLookup(cal: Calendar, f: string, d: Date)
    requires WellFormed(cal)
    ensures HasKey(AddDate(cal, f, d), f)
    ensures Lookup(AddDate(cal, f, d), f) ==
      (if !HasKey(cal, f) then [d] else if d in Lookup(cal, f) then Lookup(cal, f) else Lookup(cal, f) + [d])
  {
    AddDateKeys(cal, f, d);
    IndexOfKey(AddDate(cal, f, d), IndexOf(cal, f));
  }

  /** Adding a record of fraction `f` leaves every other fraction `g` as it was. */
  lemma AddDateOthers(cal: Calendar, f: string, d: Date, g: string)
    requires WellFormed(cal) && g != f
    ensures HasKey(AddDate(cal, f, d), g) <==> HasKey(cal, g)
    ensures HasKey(cal, g) ==> Lookup(AddDate(cal, f, d), g) == Lookup(cal, g)
  {
    var r := AddDate(cal, f, d);
    var n := IndexOf(cal, f);
    AddDateKeys(cal, f, d);
    assert forall i :: 0 <= i < |cal| && i != n ==> r[i] == cal[i];
    assert n < |r| && r[n].fraction == f && |r| <= |cal| + 1;
    if HasKey(cal, g) {
      var i := IndexOf(cal, g);
      assert r[i] == cal[i];
      IndexOfKey(r, i);
    }
    if HasKey(r, g) {
      var i := IndexOf(r, g);
      assert i != n;
      assert i < |cal| && r[i] == cal[i];
    }
  }

  /** `f in cal` is membership among the keys. */
  lemma HasKeyIffFraction(cal: Calendar, f: string)
    ensures HasKey(cal, f) <==> f in Fractions(cal)
  {
    if f in Fractions(cal) {
      var i :| 0 <= i < |cal| && Fractions(cal)[i] == f;
      assert IndexOf(cal, f) <= i;
    }
  }

  /**
   * The calendar built from kept records is well formed and its keys are the distinct
   * fractions in order of first arrival.
   */
  lemma {:induction false} GroupKeys(records: seq<(string, Date)>)
    ensures WellFormed(Group(records))
    ensures Fractions(Group(records)) == Dedup(RecordFractions(records))
  {
    if records != [] {
      var init := records[..|records| - 1];
      var last := records[|records| - 1];
      GroupKeys(init);
      AddDateKeys(Group(init), last.0, last.1);
      HasKeyIffFraction(Group(init), last.0);
      assert RecordFractions(records)[..|records| - 1] == RecordFractions(init);
    }
  }

  /** A fraction no kept record carries has no dates. */
  lemma {:induction false} DatesOfAbsent(records: seq<(string, Date)>, f: string)
    requires f !in RecordFractions(records)
    ensures DatesOf(records, f) == []
  {
    if records != [] {
      var init := records[..|records| - 1];
      assert RecordFractions(records)[..|records| - 1] == RecordFractions(init);
      assert RecordFractions(records)[|records| - 1] != f;
      DatesOfAbsent(init, f);
    }
  }

  /** Each list of that calendar holds the fraction's dates once each, in order of first arrival. */
  lemma {:induction false} GroupLookup(records: seq<(string, Date)>, f: string)
    requires HasKey(Group(records), f)
    ensures Lookup(Group(records), f) == Dedup(DatesOf(records, f))
  {
    var init := records[..|records| - 1];
    var last := records[|records| - 1];
    GroupKeys(init);
    AddDateLookup(Group(init), last.0, last.1);
    if f != last.0 {
      AddDateOthers(Group(init), last.0, last.1, f);
    }
    if f == last.0 {
      var ds := DatesOf(records, f);
      assert ds == DatesOf(init, f) + [last.1];
      assert ds[..|ds| - 1] == DatesOf(init, f);
      if HasKey(Group(init), f) {
        GroupLookup(init, f);
      } else {
        HasKeyIffFraction(Group(init), f);
        DatesOfAbsent(init, f);
      }
    } else {
      GroupLookup(init, f);
      assert DatesOf(records, f) == DatesOf(init, f);
    }
  }

  /** Every key of a calendar get_collections returns is an allowed collection type. */
  lemma CalendarKeysAllowed(items: seq<CollectionItem>, types: set<string>)
    requires CollectionCalendar(items, types).Ok?
    ensures WellFormed(CollectionCalendar(items, types).value)
    ensures forall f :: f in Fractions(CollectionCalendar(items, types).value) ==> f in types
  {
    var records := KeptRecords(items, types).value;
    GroupKeys(records);
    forall f | f in Fractions(Group(records))
      ensures f in types
    {
      assert f in RecordFractions(records);
    }
  }

  /**
   * A date is listed under a fraction exactly when some kept record of that fraction
   * carries it.
   */
  lemma CalendarMembership(items: seq<CollectionItem>, types: set<string>, f: string, d: Date)
    requires CollectionCalendar(items, types).Ok?
    ensures var cal := CollectionCalendar(items, types).value;
      HasKey(cal, f) && d in Lookup(cal, f) <==> (f, d) in KeptRecords(items, types).value
  {
    var records := KeptRecords(items, types).value;
    GroupKeys(records);
    var cal := Group(records);
    HasKeyIffFraction(cal, f);
    if (f, d) in records {
      var k :| 0 <= k < |records| && records[k] == (f, d);
      assert RecordFractions(records)[k] == f;
    }
    if HasKey(cal, f) {
      GroupLookup(records, f);
    }
  }

  /** A (fraction, date) pair is kept exactly when some item is kept as that pair. */
  lemma {:induction false} KeptRecordsMembership(items: seq<CollectionItem>, types: set<string>, f: string, d: Date)
    requires KeptRecords(items, types).Ok?
    ensures (f, d) in KeptRecords(items, types).value <==>
      exists i :: 0 <= i < |items| && KeptRecord(items[i], types) == Ok(Some((f, d)))
  {
    if items != [] {
      var n := |items| - 1;
      var prefix := items[..n];
      assert KeptRecords(items, types) == KeepNext(KeptRecords(prefix, types), items[n], types);
      KeptRecordsMembership(prefix, types, f, d);
      var before := KeptRecords(prefix, types).value;
      var k := KeptRecord(items[n], types);
      assert KeptRecords(items, types).value == if k.value.Some? then before + [k.value.value] else before;
      assert (f, d) in KeptRecords(items, types).value ==>
        exists i :: 0 <= i < |items| && KeptRecord(items[i], types) == Ok(Some((f, d)))
      by {
        if (f, d) in before {
          var j :| 0 <= j < n && KeptRecord(prefix[j], types) == Ok(Some((f, d)));
          assert prefix[j] == items[j];
        }
      }
      assert (exists i :: 0 <= i < |items| && KeptRecord(items[i], types) == Ok(Some((f, d)))) ==>
        (f, d) in KeptRecords(items, types).value
      by {
        if exists i :: 0 <= i < |items| && KeptRecord(items[i], types) == Ok(Some((f, d))) {
          var i :| 0 <= i < |items| && KeptRecord(items[i], types) == Ok(Some((f, d)));
          if i < n {
            assert prefix[i] == items[i];
          } else {
            assert i == n;
          }
        }
      }
    }
  }

  /**
   * get_collections lists a date under a fraction exactly when some item of the response
   * is kept as that fraction and date: not replaced, of an allowed type, and dated.
   */
  lemma CalendarListsKeptItems(items: seq<CollectionItem>, types: set<string>, f: string, d: Date)
    requires CollectionCalendar(items, types).Ok?
    ensures var cal := CollectionCalendar(items, types).value;
      HasKey(cal, f) && d in Lookup(cal, f) <==>
      exists i :: 0 <= i < |items| && KeptRecord(items[i], types) == Ok(Some((f, d)))
  {
    CalendarMembership(items, types, f, d);
    KeptRecordsMembership(items, types, f, d);
  }

  /**
   * A record the loop skips (replaced, of another type, or without a timestamp) can sit
   * anywhere among the items without changing the outcome.
   */
  lemma {:induction false} SkippedRecordIgnored(before: seq<CollectionItem>, x: CollectionItem, after: seq<CollectionItem>, types: set<string>)
    requires KeptRecord(x, types) == Ok(None)
    ensures KeptRecords(before + [x] + after, types) == KeptRecords(before + after, types)
    decreases |after|
  {
    if after == [] {
      assert before + [x] + after == before + [x] && before + after == before;
      KeptRecordsSnoc(before, x, types);
    } else {
      var init := after[..|after| - 1];
      var y := after[|after| - 1];
      assert after == init + [y];
      SkippedRecordIgnored(before, x, init, types);
      SkippedRecordStep(before, x, init, y, types);
    }
  }

  /** The inductive step of `SkippedRecordIgnored`: one more item after the skipped one. */
  lemma SkippedRecordStep(before: seq<CollectionItem>, x: CollectionItem, init: seq<CollectionItem>, y: CollectionItem, types: set<string>)
    requires KeptRecords(before + [x] + init, types) == KeptRecords(before + init, types)
    ensures KeptRecords(before + [x] + (init + [y]), types) == KeptRecords(before + (init + [y]), types)
  {
    KeptRecordsSnocAgree(before + [x] + init, before + init, y, types);
    assert before + [x] + (init + [y]) == (before + [x] + init) + [y];
    assert before + (init + [y]) == (before + init) + [y];
  }

  /** A record marked as replaced leaves the calendar as it would be without it, whatever its other fields. */
  lemma ReplacedRecordIgnored(before: seq<CollectionItem>, x: CollectionItem, after: seq<CollectionItem>, types: set<string>)
    requires Replaced(x)
    ensures CollectionCalendar(before + [x] + after, types) == CollectionCalendar(before + after, types)
  {
    KeptRecordSkips(x, types);
    SkippedRecordIgnored(before, x, after, types);
  }

  /** Two item lists the loop treats alike are still treated alike after the same next item. */
  lemma KeptRecordsSnocAgree(a: seq<CollectionItem>, b: seq<CollectionItem>, y: CollectionItem, types: set<string>)
    requires KeptRecords(a, types) == KeptRecords(b, types)
    ensures KeptRecords(a + [y], types) == KeptRecords(b + [y], types)
  {
    KeptRecordsSnoc(a, y, types);
    KeptRecordsSnoc(b, y, types);
  }

  /** Appending an item extends the kept records by what is kept of it. */
  lemma KeptRecordsSnoc(items: seq<CollectionItem>, x: CollectionItem, types: set<string>)
    ensures KeptRecords(items + [x], types) == KeepNext(KeptRecords(items, types), x, types)
  {
    var l := items + [x];
    assert l[..|l| - 1] == items && l[|l| - 1] == x;
  }

  // ----- the timestamp format -----

  function DigitChar(k: nat): (c: char)
    requires k < 10
    ensures IsDigit(c) && DigitValue(c) == k
  {
    ('0' as int + k) as char
  }

  /** `n` in decimal, zero-padded to `width` digits, as strftime writes `%Y`, `%m` and `%d`. */
  function Digits(n: nat, width: nat): (s: string)
    ensures s != [] && forall i :: 0 <= i < |s| ==> IsDigit(s[i])
    ensures DigitsValue(s) == n
    decreases n + width
  {
    var last := [DigitChar(n % 10)];
    if n < 10 && width <= 1 then last
    else
      var front := Digits(n / 10, if width > 0 then width - 1 else 0);
      assert (front + last)[..|front|] == front;
      front + last
  }

  /** The date part of an ISO 8601 timestamp, `YYYY-MM-DD`. */
  function IsoDate(d: Date): string
    requires Valid(d)
  {
    Digits(d.year, 4) + "-" + Digits(d.month, 2) + "-" + Digits(d.day, 2)
  }

  /** Splitting a text whose first piece holds no separator. */
  lemma {:induction false} SplitPrefix(a: string, b: string, c: char)
    requires c !in a
    ensures Split(a + b, c) == [a + Split(b, c)[0]] + Split(b, c)[1..]
  {
    var parts := Split(b, c);
    if a == [] {
      assert a + b == b;
      assert a + parts[0] == parts[0];
      assert parts == [parts[0]] + parts[1..];
    } else {
      SplitPrefix(a[1..], b, c);
      var rest := Split(a[1..] + b, c);
      assert rest[0] == a[1..] + parts[0] && rest[1..] == parts[1..];
      SplitCons(a[0], a[1..] + b, c);
      assert [a[0]] + (a[1..] + b) == a + b;
      assert [a[0]] + rest[0] == a + parts[0];
    }
  }

  /** Splitting a text that starts with a non-separator character. */
  lemma SplitCons(x: char, s: string, c: char)
    requires x != c
    ensures Split([x] + s, c) == [[x] + Split(s, c)[0]] + Split(s, c)[1..]
  {
    assert ([x] + s)[1..] == s;
  }

  /** The part of a timestamp before its `T` is the ISO date. */
  lemma IsoDatePart(d: Date, time: string)
    requires Valid(d)
    requires time == [] || time[0] == 'T'
    ensures Split(IsoDate(d) + time, 'T')[0] == IsoDate(d)
  {
    var iso := IsoDate(d);
    assert 'T' !in iso;
    SplitPrefix(iso, time, 'T');
    if time != [] {
      assert Split(time, 'T')[0] == "";
    }
  }

  /** A field free of the separator, then the separator: the field is the first part. */
  lemma SplitField(a: string, rest: string, c: char)
    requires c !in a
    ensures Split(a + [c] + rest, c) == [a] + Split(rest, c)
  {
    SplitPrefix(a, [c] + rest, c);
    assert a + [c] + rest == a + ([c] + rest);
    assert ([c] + rest)[1..] == rest;
    assert Split([c] + rest, c) == [""] + Split(rest, c);
    assert a + "" == a;
  }

  /** The ISO date splits at its dashes into year, month and day. */
  lemma IsoDateFields(d: Date)
    requires Valid(d)
    ensures Split(IsoDate(d), '-') == [Digits(d.year, 4), Digits(d.month, 2), Digits(d.day, 2)]
  {
    var y, m, dd := Digits(d.year, 4), Digits(d.month, 2), Digits(d.day, 2);
    SplitPrefix(dd, [], '-');
    assert dd + [] == dd;
    assert Split(dd, '-') == [dd];
    SplitField(m, dd, '-');
    SplitField(y, m + "-" + dd, '-');
    assert IsoDate(d) == y + "-" + (m + "-" + dd);
  }

  /** Python's `int` reads back what `Digits` writes. */
  lemma ParseDigits(n: nat, width: nat)
    ensures ParseInt(Digits(n, width)) == Some(n)
  {
  }

  /**
   * Round trip of the timestamp parsing: a timestamp whose date part is `IsoDate(d)`,
   * alone or followed by a `T` and a time of day, is read as `d`.
   */
  lemma TimestampRoundTrip(d: Date, time: string)
    requires Valid(d)
    requires time == [] || time[0] == 'T'
    ensures TimestampDate(IsoDate(d) + time) == Ok(Some(d))
  {
    IsoDatePart(d, time);
    IsoDateFields(d);
    ParseDigits(d.year, 4);
    ParseDigits(d.month, 2);
    ParseDigits(d.day, 2);
  }
}
