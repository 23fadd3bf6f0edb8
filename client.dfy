/**
 * The HTTP side of the FostPlus API client (`FostPlusApi` in api.py): lazy session set-up
 * with endpoint discovery, the two-attempt GET/POST helpers, the pagination loop and the
 * public `get_*` calls, which hand the decoded payloads to the normalisers of module Api.
 *
 * The network is a parameter: `server(req, k)` is the response to the k-th attempt
 * (from 0) of request `req`, and `settings` is the "API" entry of app.settings.json,
 * None when that document cannot be fetched or lacks the entry. The client keeps a log of
 * the requests it sends, so that how often and in which order it asks can be stated.
 */
module ApiClient {
  import opened Wrappers
  import opened Dates
  import opened Text
  import opened Api

  datatype Verb = Get | Post

  /** The action part of a URL, with its query parameters. */
  datatype Action =
    | ZipCodes(zipCode: int)
    | Streets(query: string, zipCodeId: string)
    | RecyclingParks(zipCodeId: string, size: int, language: string)
    | Collections(zipCodeId: string, streetId: string, houseNumber: int, fromDate: Date, untilDate: Date)
    | Paged(base: Action, page: nat, size: int)
    | Sized(base: Action, size: int)

  /** The settings document, or `{endpoint}/{action}`. */
  datatype Url = AppSettings | Endpoint(base: string, action: Action)

  datatype Request = Request(verb: Verb, url: Url)

  datatype Response<B> = Response(status: int, body: B)

  const PublicApiPath := "/public/v1"
  const MaxAttempts := 2
  const StatusOk := 200
  const DefaultPageSize := 100
  /** get_collections' default period: eight weeks. */
  const DefaultCollectionDays := 56
  const SettingsRequest := Request(Get, AppSettings)
  /** The page size the park request asks for in its query. */
  const ParkPageSize := 100

  // ----- retry -----

  /** How many times a request is sent: again only after a first answer other than 200. */
  function Attempts<B>(server: (Request, nat) -> Response<B>, req: Request): (n: nat)
    ensures 1 <= n <= MaxAttempts
    ensures forall k :: 0 <= k < n - 1 ==> server(req, k).status != StatusOk
  {
    if server(req, 0).status == StatusOk then 1 else MaxAttempts
  }

  /**
   * The decoded body of the first 200 answer among the attempts, or None when every attempt
   * failed.
   */
  function Exchange<B>(server: (Request, nat) -> Response<B>, req: Request): (r: Option<B>)
    ensures r.Some? ==>
      (server(req, Attempts(server, req) - 1).status == StatusOk
       && r.value == server(req, Attempts(server, req) - 1).body)
    ensures r.None? <==> forall k :: 0 <= k < MaxAttempts ==> server(req, k).status != StatusOk
  {
    var last := server(req, Attempts(server, req) - 1);
    if last.status == StatusOk then Some(last.body) else None
  }

  function Repeat(req: Request, n: nat): (log: seq<Request>)
    ensures |log| == n && forall k :: 0 <= k < n ==> log[k] == req
  {
    if n == 0 then [] else Repeat(req, n - 1) + [req]
  }

  // ----- initialization -----

  /** The endpoint once initialization has run: discovered on the first call only. */
  function EndpointAfterInit(session: bool, endpoint: Option<string>, settings: Option<string>): Option<string> {
    if session then endpoint
    else if settings.Some? then Some(settings.value + PublicApiPath)
    else None
  }

  /** The requests initialization sends: the settings document, on the first call only. */
  function InitLog(session: bool): seq<Request> {
    if session then [] else [SettingsRequest]
  }

  /**
   * The base URL a request goes to, or the exception raised before anything is sent: the
   * failed discovery itself, or, on later calls, the missing `__endpoint` attribute.
   */
  function BaseUrl(session: bool, endpoint: Option<string>, settings: Option<string>): (r: Result<string, Failure>)
    ensures r.Ok? ==> EndpointAfterInit(session, endpoint, settings) == Some(r.value)
    ensures !session ==> (r.Ok? <==> settings.Some?)
  {
    if !session && settings.None? then Err(InitializationError)
    else match EndpointAfterInit(session, endpoint, settings)
      case None => Err(EndpointMissing)
      case Some(base) => Ok(base)
  }

  /** What `__get`/`__post` return, given the state before the call. */
  function Reply<B>(base: Result<string, Failure>, verb: Verb, action: Action, server: (Request, nat) -> Response<B>)
    : Result<Option<B>, Failure>
  {
    match base
    case Err(e) => Err(e)
    case Ok(b) => Ok(Exchange(server, Request(verb, Endpoint(b, action))))
  }

  /** The requests `__get`/`__post` send after initialization. */
  function ReplyLog<B>(base: Result<string, Failure>, verb: Verb, action: Action, server: (Request, nat) -> Response<B>)
    : seq<Request>
  {
    match base
    case Err(_) => []
    case Ok(b) =>
      var req := Request(verb, Endpoint(b, action));
      Repeat(req, Attempts(server, req))
  }

  /** Initialization is idempotent: a second call changes nothing and sends nothing. */
  lemma InitializeIdempotent(session: bool, endpoint: Option<string>, settings: Option<string>, later: Option<string>)
    ensures EndpointAfterInit(true, EndpointAfterInit(session, endpoint, settings), later)
      == EndpointAfterInit(session, endpoint, settings)
    ensures InitLog(true) == []
    ensures session && endpoint.Some? ==> BaseUrl(session, endpoint, later) == Ok(endpoint.value)
  {
  }

  /** A payload subscripted after the request failed twice: `None[...]` raises. */
  function Required<B>(reply: Result<Option<B>, Failure>): (r: Result<B, Failure>)
    ensures r.Ok? <==> reply.Ok? && reply.value.Some?
    ensures reply.Ok? && reply.value.Some? ==> r.value == reply.value.value
    ensures reply.Ok? && reply.value.None? ==> r == Err(NoData)
    ensures reply.Err? ==> r == Err(reply.error)
  {
    match reply
    case Err(e) => Err(e)
    case Ok(None) => Err(NoData)
    case Ok(Some(body)) => Ok(body)
  }

  // ----- pagination -----

  function PageRequest(base: string, action: Action, page: nat, size: int): Request {
    Request(Get, Endpoint(base, Paged(action, page, size)))
  }

  function PageOf(req: Request): nat {
    match req.url
    case Endpoint(_, Paged(_, page, _)) => page
    case _ => 0
  }

  /** Every page count the service declares is at most `bound`. */
  ghost predicate PagesBounded<T>(server: (Request, nat) -> Response<Option<Envelope<T>>>, bound: nat) {
    forall req, k :: server(req, k).body.Some? && server(req, k).body.value.pages.Some? ==>
      server(req, k).body.value.pages.value <= bound
  }

  /**
   * The loop of `__load_all` from page `page` on, with the items gathered and the requests
   * sent so far: each page is fetched with the retry helper; an absent or malformed page
   * ends the loop keeping what was gathered; otherwise its items are appended and the next
   * page follows unless this one was the last the service declared.
   */
  function Collect<T>(server: (Request, nat) -> Response<Option<Envelope<T>>>, base: string, action: Action,
                      size: int, page: nat, bound: nat, items: seq<T>, log: seq<Request>): (r: (seq<T>, seq<Request>))
    requires 1 <= page && PagesBounded(server, bound)
    ensures |items| <= |r.0| && r.0[..|items|] == items
    decreases bound - page
  {
    var req := PageRequest(base, action, page, size);
    var sentNow := log + Repeat(req, Attempts(server, req));
    match Exchange(server, req)
    case None => (items, sentNow)
    case Some(body) =>
      if body.None? || body.value.items.None? || body.value.pages.None? then (items, sentNow)
      else if page + 1 > body.value.pages.value then (items + body.value.items.value, sentNow)
      else Collect(server, base, action, size, page + 1, bound, items + body.value.items.value, sentNow)
  }

  /**
   * From index `from` on, `all` asks for page `page` first and then, request by request,
   * for the same page or the next, always with the same action and page size.
   */
  ghost predicate AsksInOrder(all: seq<Request>, from: nat, base: string, action: Action, size: int, page: nat) {
    from < |all| && all[from] == PageRequest(base, action, page, size)
    && (forall k :: from <= k < |all| ==> all[k] == PageRequest(base, action, PageOf(all[k]), size))
    && (forall k :: from < k < |all| ==> PageOf(all[k]) == PageOf(all[k - 1]) || PageOf(all[k]) == PageOf(all[k - 1]) + 1)
  }

  /** Requests for one page, followed by nothing or by requests in order from the next page. */
  lemma AsksInOrderPrepend(all: seq<Request>, from: nat, m: nat, base: string, action: Action, size: int, page: nat)
    requires from < m <= |all|
    requires forall k :: from <= k < m ==> all[k] == PageRequest(base, action, page, size)
    requires m == |all| || AsksInOrder(all, m, base, action, size, page + 1)
    ensures AsksInOrder(all, from, base, action, size, page)
  {
    forall k | from < k < |all|
      ensures PageOf(all[k]) == PageOf(all[k - 1]) || PageOf(all[k]) == PageOf(all[k - 1]) + 1
    {
      if k < m {
        assert all[k] == all[k - 1];
      } else if k == m {
        assert all[k - 1] == PageRequest(base, action, page, size);
      }
    }
  }

  /**
   * What `__load_all` asks for: after the requests already sent, the same action and page
   * size throughout, starting at `page`, each page (after its retries) followed by the next.
   */
  lemma {:induction false} CollectRequests<T>(server: (Request, nat) -> Response<Option<Envelope<T>>>, base: string,
      action: Action, size: int, page: nat, bound: nat, items: seq<T>, log: seq<Request>)
    requires 1 <= page && PagesBounded(server, bound)
    ensures var all := Collect(server, base, action, size, page, bound, items, log).1;
      |log| < |all| && all[..|log|] == log && AsksInOrder(all, |log|, base, action, size, page)
    decreases bound - page
  {
    var req := PageRequest(base, action, page, size);
    var sentNow := log + Repeat(req, Attempts(server, req));
    var all := Collect(server, base, action, size, page, bound, items, log).1;
    var e := Exchange(server, req);
    if e.Some? && e.value.Some? && e.value.value.items.Some? && e.value.value.pages.Some?
      && page + 1 <= e.value.value.pages.value
    {
      var more := items + e.value.value.items.value;
      CollectRequests(server, base, action, size, page + 1, bound, more, sentNow);
      assert all == Collect(server, base, action, size, page + 1, bound, more, sentNow).1;
      forall k | |log| <= k < |sentNow|
        ensures all[k] == req
      {
        assert all[k] == all[..|sentNow|][k] == sentNow[k];
      }
      AsksInOrderPrepend(all, |log|, |sentNow|, base, action, size, page);
    } else {
      assert all == sentNow;
      AsksInOrderPrepend(all, |log|, |sentNow|, base, action, size, page);
    }
  }

  function Flatten<T>(pages: seq<seq<T>>): seq<T> {
    if pages == [] then [] else pages[0] + Flatten(pages[1..])
  }

  /**
   * The service answers pages 1 .. |pages| (each after its retries) with those pages'
   * items and the same declared page count `total`.
   */
  ghost predicate AnswersPages<T>(server: (Request, nat) -> Response<Option<Envelope<T>>>, base: string, action: Action,
                                  size: int, pages: seq<seq<T>>, total: int)
  {
    forall p :: 1 <= p <= |pages| ==>
      Exchange(server, PageRequest(base, action, p, size)) == Some(Some(Envelope(Some(pages[p - 1]), Some(total))))
  }

  /** The loop appends the remaining pages, in order, to what it has gathered. */
  lemma {:induction false} CollectConcatenates<T>(server: (Request, nat) -> Response<Option<Envelope<T>>>,
      base: string, action: Action, size: int, bound: nat, pages: seq<seq<T>>, total: int, from: nat,
      items: seq<T>, log: seq<Request>)
    requires PagesBounded(server, bound) && 1 <= from <= |pages| + 1 && (from <= |pages| || |pages| < total)
    requires AnswersPages(server, base, action, size, pages, total) && |pages| <= total
    requires |pages| == total || Exchange(server, PageRequest(base, action, |pages| + 1, size)).None?
    ensures Collect(server, base, action, size, from, bound, items, log).0 == items + Flatten(pages[from - 1..])
    decreases |pages| + 1 - from
  {
    var req := PageRequest(base, action, from, size);
    var sentNow := log + Repeat(req, Attempts(server, req));
    if from <= |pages| {
      var more := items + pages[from - 1];
      assert pages[from - 1..] == [pages[from - 1]] + pages[from..];
      if from < |pages| {
        CollectConcatenates(server, base, action, size, bound, pages, total, from + 1, more, sentNow);
        assert pages[from - 1..][1..] == pages[from..];
      } else {
        assert pages[from..] == [];
        if |pages| < total {
          assert Collect(server, base, action, size, from + 1, bound, more, sentNow).0 == more;
        }
      }
    } else {
      assert pages[from - 1..] == [];
    }
  }

  /**
   * `__load_all` concatenates the pages in order: all of them when the service declares
   * `|pages|` pages, and those before the first absent page when one is missing.
   */
  lemma LoadAllFlattens<T>(server: (Request, nat) -> Response<Option<Envelope<T>>>,
      base: string, action: Action, size: int, bound: nat, pages: seq<seq<T>>, total: int)
    requires PagesBounded(server, bound)
    requires AnswersPages(server, base, action, size, pages, total) && |pages| <= total && 1 <= total
    requires |pages| == total || Exchange(server, PageRequest(base, action, |pages| + 1, size)).None?
    ensures Collect(server, base, action, size, 1, bound, [], []).0 == Flatten(pages)
  {
    CollectConcatenates(server, base, action, size, bound, pages, total, 1, [], []);
    assert pages[0..] == pages;
  }

  // ----- what a public call fetches -----

  /** The payload `__get`/`__post` hand to a caller that subscripts it. */
  function Fetched<B>(session: bool, endpoint: Option<string>, settings: Option<string>, verb: Verb, action: Action,
                      server: (Request, nat) -> Response<B>): Result<B, Failure>
  {
    Required(Reply(BaseUrl(session, endpoint, settings), verb, action, server))
  }

  /** The requests one `__get`/`__post` sends, initialization included. */
  function FetchLog<B>(session: bool, endpoint: Option<string>, settings: Option<string>, verb: Verb, action: Action,
                       server: (Request, nat) -> Response<B>): seq<Request>
  {
    InitLog(session) + ReplyLog(BaseUrl(session, endpoint, settings), verb, action, server)
  }

  /** `__load_all`'s result and the request log after it, from the state before the call. */
  function Loaded<T>(session: bool, endpoint: Option<string>, sent: seq<Request>, settings: Option<string>,
                     server: (Request, nat) -> Response<Option<Envelope<T>>>, action: Action, size: int, bound: nat)
    : (Result<seq<T>, Failure>, seq<Request>)
    requires PagesBounded(server, bound)
  {
    match BaseUrl(session, endpoint, settings)
    case Err(e) => (Err(e), sent + InitLog(session))
    case Ok(base) =>
      var c := Collect(server, base, action, size, 1, bound, [], sent + InitLog(session));
      (Ok(c.0), c.1)
  }

  /**
   * The period get_collections asks for: from `fromDate`, today by default, until
   * `untilDate`, by default eight weeks after the start; OverflowError past the last date.
   */
  function CollectionPeriod(fromDate: Option<Date>, untilDate: Option<Date>, now: Date): (r: Result<(Date, Date), Failure>)
    requires Valid(now) && (fromDate.Some? ==> Valid(fromDate.value)) && (untilDate.Some? ==> Valid(untilDate.value))
    ensures r.Ok? ==> r.value.0 == fromDate.GetOr(now) && Valid(r.value.0) && Valid(r.value.1)
    ensures r.Ok? && untilDate.Some? ==> r.value.1 == untilDate.value
    ensures r.Ok? && untilDate.None? ==> Ordinal(r.value.1) == Ordinal(r.value.0) + DefaultCollectionDays
    ensures r.Err? ==> r == Err(DateOverflow) && untilDate.None?
                       && Ordinal(fromDate.GetOr(now)) + DefaultCollectionDays > Ordinal(MaxDate)
  {
    var start := fromDate.GetOr(now);
    if untilDate.Some? then Ok((start, untilDate.value))
    else match AddDays(start, DefaultCollectionDays)
      case None => Err(DateOverflow)
      case Some(end) => Ok((start, end))
  }

  // ----- the client -----

  class FostPlusApi {
    /** Whether `__session` has been created. */
    var session: bool
    /** `__endpoint`, unset until discovery succeeds. */
    var endpoint: Option<string>
    /** The requests sent so far, in order. */
    var sent: seq<Request>

    ghost predicate Valid()
      reads this
    {
      endpoint.Some? ==> session
    }

    constructor()
      ensures Valid() && !session && endpoint == None && sent == []
    {
      session := false;
      endpoint := None;
      sent := [];
    }

    /**
     * `initialize` / `__ensure_initialization`: on the first call, create the session and
     * then discover the endpoint. The session is set before discovery, so a failed discovery
     * is not retried by later calls.
     */
    method Initialize(settings: Option<string>) returns (failure: Option<Failure>)
      requires Valid()
      modifies this
      ensures Valid() && session
      ensures endpoint == EndpointAfterInit(old(session), old(endpoint), settings)
      ensures sent == old(sent) + InitLog(old(session))
      ensures failure == (if !old(session) && settings.None? then Some(InitializationError) else None)
    {
      if session {
        return None;
      }
      session := true;
      sent := sent + [SettingsRequest];
      if settings.None? {
        return Some(InitializationError);
      }
      endpoint := Some(settings.value + PublicApiPath);
      return None;
    }

    /** `__get` (verb Get) and `__post` (verb Post): at most two attempts, the first 200 wins. */
    method Send<B>(verb: Verb, action: Action, settings: Option<string>, server: (Request, nat) -> Response<B>)
      returns (r: Result<Option<B>, Failure>)
      requires Valid()
      modifies this
      ensures Valid() && session
      ensures endpoint == EndpointAfterInit(old(session), old(endpoint), settings)
      ensures r == Reply(BaseUrl(old(session), old(endpoint), settings), verb, action, server)
      ensures sent == old(sent) + InitLog(old(session))
        + ReplyLog(BaseUrl(old(session), old(endpoint), settings), verb, action, server)
    {
      var failure := Initialize(settings);
      if failure.Some? {
        return Err(failure.value);
      }
      if endpoint.None? {
        return Err(EndpointMissing);
      }
      var req := Request(verb, Endpoint(endpoint.value, action));
      ghost var start := sent;
      for attempt := 0 to MaxAttempts
        invariant session && endpoint == Some(req.url.base)
        invariant sent == start + Repeat(req, attempt)
        invariant forall k :: 0 <= k < attempt ==> server(req, k).status != StatusOk
      {
        sent := sent + [req];
        var response := server(req, attempt);
        if response.status == StatusOk {
          assert Attempts(server, req) == attempt + 1;
          return Ok(Some(response.body));
        }
      }
      return Ok(None);
    }

    /**
     * `__load_all`: pages 1, 2, ... of `action`, `size` items each, concatenated, until a
     * page is absent or malformed or the declared last page has been read.
     */
    method LoadAll<T>(action: Action, size: int, settings: Option<string>,
                      server: (Request, nat) -> Response<Option<Envelope<T>>>, ghost bound: nat)
      returns (r: Result<seq<T>, Failure>)
      requires Valid() && PagesBounded(server, bound)
      modifies this
      ensures Valid() && session
      ensures endpoint == EndpointAfterInit(old(session), old(endpoint), settings)
      ensures (r, sent) == Loaded(old(session), old(endpoint), old(sent), settings, server, action, size, bound)
    {
      // The first page's request initializes the client; doing so up front sends the same
      // requests and raises the same exceptions, and leaves every page to a ready client.
      var failure := Initialize(settings);
      if failure.Some? {
        return Err(failure.value);
      }
      if endpoint.None? {
        return Err(EndpointMissing);
      }
      assert BaseUrl(old(session), old(endpoint), settings) == Ok(endpoint.value);
      var items := FetchPages(action, size, settings, server, bound);
      return Ok(items);
    }

    /** The loop of `__load_all`, once the client is initialized. */
    method FetchPages<T>(action: Action, size: int, settings: Option<string>,
                         server: (Request, nat) -> Response<Option<Envelope<T>>>, ghost bound: nat)
      returns (items: seq<T>)
      requires session && endpoint.Some? && PagesBounded(server, bound)
      modifies this
      ensures session && endpoint == old(endpoint)
      ensures (items, sent) == Collect(server, old(endpoint).value, action, size, 1, bound, [], old(sent))
    {
      ghost var base := endpoint.value;
      items := [];
      var page: nat := 1;
      ghost var whole := Collect(server, base, action, size, 1, bound, [], sent);
      while true
        invariant 1 <= page <= bound + 1
        invariant session && endpoint == Some(base)
        invariant whole == Collect(server, base, action, size, page, bound, items, sent)
        decreases bound + 1 - page
      {
        ghost var before := sent;
        ghost var req := PageRequest(base, action, page, size);
        var response := Send(Get, Paged(action, page, size), settings, server);
        assert response == Ok(Exchange(server, req)) && sent == before + Repeat(req, Attempts(server, req)) by {
          assert BaseUrl(true, Some(base), settings) == Ok(base);
        }
        if response.value.None? || response.value.value.None?
          || response.value.value.value.items.None? || response.value.value.value.pages.None?
        {
          break;
        }
        var envelope := response.value.value.value;
        items := items + envelope.items.value;
        page := page + 1;
        if page > envelope.pages.value {
          break;
        }
      }
    }

    /** get_zip_code: every (id, "code - name") pair of the matching zip codes. */
    method GetZipCode(zipCode: int, language: string, settings: Option<string>,
                      server: (Request, nat) -> Response<ZipCodesBody>)
      returns (r: Result<seq<(string, string)>, Failure>)
      requires Valid()
      modifies this
      ensures Valid() && session
      ensures endpoint == EndpointAfterInit(old(session), old(endpoint), settings)
      ensures sent == old(sent) + FetchLog(old(session), old(endpoint), settings, Get, ZipCodes(zipCode), server)
      ensures r == match Fetched(old(session), old(endpoint), settings, Get, ZipCodes(zipCode), server)
                   case Err(e) => Err(e)
                   case Ok(body) => ZipCodeMatches(body.items, language)
    {
      var reply := Send(Get, ZipCodes(zipCode), settings, server);
      var body := Required(reply);
      if body.Err? {
        return Err(body.error);
      }
      r := ZipCodeMatches(body.value.items, language);
    }

    /** get_street: the street is searched for, and compared, stripped and in lower case. */
    method GetStreet(street: string, zipCodeId: string, language: string, settings: Option<string>,
                     server: (Request, nat) -> Response<StreetsBody>)
      returns (r: Result<(string, string), Failure>)
      requires Valid()
      modifies this
      ensures Valid() && session
      ensures endpoint == EndpointAfterInit(old(session), old(endpoint), settings)
      ensures sent == old(sent)
        + FetchLog(old(session), old(endpoint), settings, Post, Streets(Normalize(street), zipCodeId), server)
      ensures r == match Fetched(old(session), old(endpoint), settings, Post, Streets(Normalize(street), zipCodeId), server)
                   case Err(e) => Err(e)
                   case Ok(body) => ResolveStreet(Normalize(street), body, language)
    {
      var query := Normalize(street);
      var reply := Send(Post, Streets(query, zipCodeId), settings, server);
      var body := Required(reply);
      if body.Err? {
        return Err(body.error);
      }
      r := ResolveStreet(query, body.value, language);
    }

    /**
     * get_recycling_parks: one page of at most 100 parks; a payload without `items` gives
     * an empty directory, a failed request raises on `None.get`.
     */
    method GetRecyclingParks(zipCodeId: string, language: string, settings: Option<string>,
                             server: (Request, nat) -> Response<ParksBody>)
      returns (r: Result<map<Option<string>, ParkRecord>, Failure>)
      requires Valid()
      modifies this
      ensures Valid() && session
      ensures endpoint == EndpointAfterInit(old(session), old(endpoint), settings)
      ensures sent == old(sent)
        + FetchLog(old(session), old(endpoint), settings, Get, RecyclingParks(zipCodeId, ParkPageSize, language), server)
      ensures r == match Fetched(old(session), old(endpoint), settings, Get, RecyclingParks(zipCodeId, ParkPageSize, language), server)
                   case Err(e) => Err(e)
                   case Ok(body) => ParkDirectory(body.items.GetOr([]), language)
    {
      var reply := Send(Get, RecyclingParks(zipCodeId, ParkPageSize, language), settings, server);
      var body := Required(reply);
      if body.Err? {
        return Err(body.error);
      }
      r := BuildParks(body.value.items.GetOr([]), language);
    }

    /**
     * get_fractions: every page of the collections of the collection year and the next,
     * reduced to the allowed fractions' colour and localized name. `now` is the clock.
     */
    method GetFractions(zipCodeId: string, streetId: string, houseNumber: int, language: string, size: int,
                        now: Date, types: set<string>, settings: Option<string>,
                        server: (Request, nat) -> Response<Option<Envelope<CollectionItem>>>, ghost bound: nat)
      returns (r: Result<map<string, (string, string)>, Failure>)
      requires Valid() && Dates.Valid(now) && PagesBounded(server, bound)
      modifies this
      ensures Valid() && session
      ensures endpoint == EndpointAfterInit(old(session), old(endpoint), settings)
      ensures var w := FractionWindow(now);
              var loaded := Loaded(old(session), old(endpoint), old(sent), settings, server,
                                   Collections(zipCodeId, streetId, houseNumber, w.0, w.1), size, bound);
              sent == loaded.1
              && r == match loaded.0
                      case Err(e) => Err(e)
                      case Ok(items) => FractionCatalog(items, types, language)
    {
      var window := FractionWindow(now);
      var items := LoadAll(Collections(zipCodeId, streetId, houseNumber, window.0, window.1), size, settings, server, bound);
      if items.Err? {
        return Err(items.error);
      }
      r := FractionCatalog(items.value, types, language);
    }

    /**
     * get_collections: one request for the period (no pagination), grouped by fraction.
     * The default end date is computed before anything is sent; its OverflowError leaves
     * the client as it was.
     */
    method GetCollections(zipCodeId: string, streetId: string, houseNumber: int,
                          fromDate: Option<Date>, untilDate: Option<Date>, size: int,
                          now: Date, types: set<string>, settings: Option<string>,
                          server: (Request, nat) -> Response<Envelope<CollectionItem>>)
      returns (r: Result<Calendar, Failure>)
      requires Valid() && Dates.Valid(now)
      requires fromDate.Some? ==> Dates.Valid(fromDate.value)
      requires untilDate.Some? ==> Dates.Valid(untilDate.value)
      modifies this
      ensures Valid()
      ensures match CollectionPeriod(fromDate, untilDate, now)
        case Err(e) => r == Err(e) && unchanged(this)
        case Ok(period) =>
          var action := Sized(Collections(zipCodeId, streetId, houseNumber, period.0, period.1), size);
          session && endpoint == EndpointAfterInit(old(session), old(endpoint), settings)
          && sent == old(sent) + FetchLog(old(session), old(endpoint), settings, Get, action, server)
          && r == match Fetched(old(session), old(endpoint), settings, Get, action, server)
                  case Err(e) => Err(e)
                  case Ok(body) => if body.items.None? then Err(MissingKey) else CollectionCalendar(body.items.value, types)
    {
      var period := CollectionPeriod(fromDate, untilDate, now);
      if period.Err? {
        return Err(period.error);
      }
      var action := Sized(Collections(zipCodeId, streetId, houseNumber, period.value.0, period.value.1), size);
      var reply := Send(Get, action, settings, server);
      var body := Required(reply);
      if body.Err? {
        return Err(body.error);
      }
      if body.value.items.None? {
        return Err(MissingKey);
      }
      r := BuildCalendar(body.value.items.value, types);
    }
  }
}
