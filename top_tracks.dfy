/**
 * The `/top-tracks` handler of src/index.ts as a function from its inputs to
 * the response it sends. The awaited results of the chart-store query and of
 * the track lookups are inputs; the outcome also records which store query
 * and which lookups the handler issued, so that "nothing was queried" and
 * "one lookup per row" can be stated.
 */
module TopTracks {
  import opened Wrappers
  import opened JsBuiltins
  import opened Calendar
  import opened Utils

  /* ------------------------------------------------------------- data */

  /** One row of the hot100 table; every column is text. */
  datatype ChartEntry = ChartEntry(
    title: string,
    performer: string,
    chartWeek: string,
    currentWeek: string,
    lastWeek: string,
    peakPos: string,
    weeksOnChart: string)

  /** What a track lookup resolves to when a track was found. */
  datatype SpotifyTrack = SpotifyTrack(id: string, queryKey: string)

  /** One entry of the response's `songs`. */
  datatype TrackResult = TrackResult(
    spotifyId: Option<string>,
    title: string,
    artist: string,
    weeksOnChart: Numeric,
    index: nat)

  /** The query parameters `date` and `limit` and the `origin` header, each possibly absent. */
  datatype Request = Request(date: Option<string>, limit: Option<string>, origin: Option<string>)

  /** The CORS whitelist and the environment, read once at start-up. */
  datatype Config = Config(whitelist: seq<string>, env: Env)

  /**
   * The result of `new Date(date).toISOString()`: the day number of the parsed
   * instant, or the message of the RangeError thrown for an invalid date.
   */
  datatype DateParse = Parsed(day: int) | Unparseable(message: string)

  /** The awaited store query: the rows it returned, or the message of the error it threw. */
  datatype Fetched = Rows(rows: seq<ChartEntry>) | StoreFailed(message: string)

  /**
   * The settled `Promise.all` over the lookups: every lookup's result in row
   * order (None where no track was found), or the message of a lookup that threw.
   */
  datatype Settled = Fulfilled(results: seq<Option<SpotifyTrack>>) | Rejected(message: string)

  /** The store query: rows whose chart week equals `chartWeek`, at most `Number(limit)` of them. */
  datatype StoreQuery = StoreQuery(chartWeek: string, limit: string)

  /** One call of the track lookup. */
  datatype LookupRequest = LookupRequest(queryKey: string, songName: string, artistName: string)

  datatype Body =
    | JsonError(error: string)
    | JsonSongs(date: string, limit: string, songs: seq<TrackResult>)
    | Text(text: string)

  datatype Response = Response(status: int, body: Body, headers: Headers)

  /** The response together with the store query and the lookups the handler issued. */
  datatype Outcome = Outcome(response: Response, query: Option<StoreQuery>, lookups: seq<LookupRequest>)

  /* ------------------------------------------------------- row helpers */

  /** The composite key that correlates a row with its lookup result. */
  function QueryKey(title: string, performer: string): string {
    title + " " + performer
  }

  function RowKey(row: ChartEntry): string {
    QueryKey(row.title, row.performer)
  }

  /**
   * The chart's weeks-on-chart column as a number: the store's "not
   * applicable" sentinel `NA` reads as 0, any other text as parseInt reads it.
   */
  function NormaliseWeeks(weeksOnChart: string): (weeks: Numeric)
    ensures weeksOnChart == "NA" ==> weeks == Num(0)
    ensures weeksOnChart != [] && IsDigits(weeksOnChart) ==> weeks == Num(DigitsValue(weeksOnChart))
  {
    if weeksOnChart == "NA" then Num(0)
    else
      if weeksOnChart != [] && IsDigits(weeksOnChart) then ParseIntOfDigits(weeksOnChart); ParseInt(weeksOnChart)
      else ParseInt(weeksOnChart)
  }

  /** The store's "not applicable" sentinel reads as zero weeks, which parseInt alone would not give. */
  lemma NormaliseWeeksOfSentinel()
    ensures NormaliseWeeks("NA") == Num(0)
    ensures ParseInt("NA") == NaN
  {
  }

  /** A lookup result matches a key when a track was found and it carries that query key. */
  predicate HasKey(track: Option<SpotifyTrack>, key: string) {
    track.Some? && track.value.queryKey == key
  }

  /** The position of the first lookup result matching `key`, if any. */
  function FirstMatch(results: seq<Option<SpotifyTrack>>, key: string): (found: Option<nat>)
    ensures found.Some? ==>
      found.value < |results| && HasKey(results[found.value], key)
      && forall j :: 0 <= j < found.value ==> !HasKey(results[j], key)
    ensures found.None? <==> forall j :: 0 <= j < |results| ==> !HasKey(results[j], key)
  {
    if results == [] then None
    else if HasKey(results[0], key) then Some(0)
    else
      match FirstMatch(results[1..], key)
      case None => None
      case Some(j) => Some(j + 1)
  }

  /** The track id of the first lookup result matching `key`; none (null) when no result matches. */
  function SpotifyIdFor(results: seq<Option<SpotifyTrack>>, key: string): (id: Option<string>)
    ensures id.None? <==> forall j :: 0 <= j < |results| ==> !HasKey(results[j], key)
    ensures id.Some? ==>
      exists j :: 0 <= j < |results| && HasKey(results[j], key) && results[j].value.id == id.value
        && forall k :: 0 <= k < j ==> !HasKey(results[k], key)
  {
    match FirstMatch(results, key)
    case None => None
    case Some(j) =>
      assert HasKey(results[j], key);
      Some(results[j].value.id)
  }

  /** The song reported for the row at position `index`. */
  function ToTrackResult(row: ChartEntry, index: nat, results: seq<Option<SpotifyTrack>>): TrackResult {
    TrackResult(
      SpotifyIdFor(results, RowKey(row)),
      row.title,
      row.performer,
      NormaliseWeeks(row.weeksOnChart),
      index)
  }

  /** The response's songs: every row in store order, with its position as `index`. */
  function AssembleSongs(rows: seq<ChartEntry>, results: seq<Option<SpotifyTrack>>): seq<TrackResult> {
    seq(|rows|, i requires 0 <= i < |rows| => ToTrackResult(rows[i], i, results))
  }

  /** The lookups the handler starts: one per row, in row order. */
  function LookupsFor(rows: seq<ChartEntry>): seq<LookupRequest> {
    seq(|rows|, i requires 0 <= i < |rows| => LookupRequest(RowKey(rows[i]), rows[i].title, rows[i].performer))
  }

  /** The chart week the store is asked for: the ISO date of the next Saturday. */
  function SaturdayKey(day: int): string {
    IsoDate(GetNextDayOfWeek(day, Saturday))
  }

  /**
   * The CORS headers the handler attaches to its JSON responses: none at all
   * exactly when the origin is rejected, otherwise what `GetCorsHeaders` builds.
   */
  function CorsFor(config: Config, request: Request): (headers: Headers)
    ensures headers == map[] <==>
      Truthy(request.origin) && !IsDevelopment(config.env) && request.origin.value !in config.whitelist
    ensures headers != map[] ==> headers == GetCorsHeaders(config.whitelist, request.origin, config.env).value
  {
    var cors := GetCorsHeaders(config.whitelist, request.origin, config.env);
    if cors.Some? then
      assert AllowMethods in cors.value;
      cors.value
    else map[]
  }

  /** What `app.onError` sends for an exception: plain text, status 500, no CORS headers. */
  function ServerError(message: string): Response {
    Response(500, Text("Server Error: " + message), map[])
  }

  /* ----------------------------------------------------------- handler */

  /** The GET `/top-tracks` handler, with a thrown exception turned into `app.onError`'s response. */
  function HandleTopTracks(
    config: Config, request: Request, normalised: DateParse,
    fetched: Fetched, settled: Settled): (o: Outcome)
    ensures o.response.status in {200, 400, 404, 500}
    ensures o.query.None? ==> o.lookups == []
    ensures o.query.Some? ==> Truthy(request.date) && Truthy(request.limit) && normalised.Parsed?
    ensures o.lookups != [] ==> fetched.Rows? && |o.lookups| == |fetched.rows|
    ensures o.response.status == 200 <==> o.lookups != [] && settled.Fulfilled?
    ensures o.response.status == 200 ==>
      fetched.Rows? && o.response.body.JsonSongs? && |o.response.body.songs| == |fetched.rows| > 0
  {
    var cors := CorsFor(config, request);
    if !Truthy(request.date) then
      Outcome(Response(400, JsonError("Date is required"), cors), None, [])
    else if !Truthy(request.limit) then
      Outcome(Response(400, JsonError("Limit is required"), cors), None, [])
    else
      match normalised
      case Unparseable(message) => Outcome(ServerError(message), None, [])
      case Parsed(day) =>
        var formattedDate := IsoDate(day);
        if formattedDate == "" || !ValidateDateFormat(formattedDate) then
          Outcome(Response(400, JsonError("Invalid date format"), cors), None, [])
        else
          var query := StoreQuery(SaturdayKey(day), request.limit.value);
          match fetched
          case StoreFailed(message) => Outcome(ServerError(message), Some(query), [])
          case Rows(rows) =>
          if |rows| == 0 then
            Outcome(Response(404, JsonError("No songs found"), cors), Some(query), [])
          else
            var lookups := LookupsFor(rows);
            match settled
            case Rejected(message) => Outcome(ServerError(message), Some(query), lookups)
            case Fulfilled(results) =>
              var body := JsonSongs(request.date.value, request.limit.value, AssembleSongs(rows, results));
              Outcome(Response(200, body, cors), Some(query), lookups)
  }

  /* -------------------------------------------------- error taxonomy */

  /** A missing or empty date is reported first, whatever the limit, and nothing is queried. */
  lemma DateRequired(config: Config, request: Request, normalised: DateParse, fetched: Fetched, settled: Settled)
    requires !Truthy(request.date)
    ensures var o := HandleTopTracks(config, request, normalised, fetched, settled);
      o.response == Response(400, JsonError("Date is required"), CorsFor(config, request))
      && o.query.None? && o.lookups == []
  {
  }

  /** With a date but a missing or empty limit, the limit is reported and nothing is queried. */
  lemma LimitRequired(config: Config, request: Request, normalised: DateParse, fetched: Fetched, settled: Settled)
    requires Truthy(request.date) && !Truthy(request.limit)
    ensures var o := HandleTopTracks(config, request, normalised, fetched, settled);
      o.response == Response(400, JsonError("Limit is required"), CorsFor(config, request))
      && o.query.None? && o.lookups == []
  {
  }

  /**
   * A date `new Date` cannot parse makes `toISOString` throw: a plain-text 500
   * without CORS headers, not a 400, and nothing is queried.
   */
  lemma UnparseableDateIsServerError(
    config: Config, request: Request, message: string, fetched: Fetched, settled: Settled)
    requires Truthy(request.date) && Truthy(request.limit)
    ensures var o := HandleTopTracks(config, request, Unparseable(message), fetched, settled);
      o.response.status == 500 && o.response.body == Text("Server Error: " + message)
      && o.response.headers == map[] && o.query.None? && o.lookups == []
  {
  }

  /**
   * "Invalid date format" is answered exactly for parsed dates whose year is
   * negative (their ISO string starts with `-`), and then nothing is queried.
   */
  lemma InvalidDateFormatIff(config: Config, request: Request, day: int, fetched: Fetched, settled: Settled)
    requires Truthy(request.date) && Truthy(request.limit)
    ensures var o := HandleTopTracks(config, request, Parsed(day), fetched, settled);
      (o.response.body == JsonError("Invalid date format") <==> ToCivil(day).year < 0)
      && (ToCivil(day).year < 0 ==> o.response.status == 400 && o.query.None? && o.lookups == [])
  {
    IsoDateValidIff(day);
  }

  /* ------------------------------------------------------ store query */

  /**
   * A date that passes validation is looked up under the ISO date of the first
   * Saturday on or after it, with the raw limit string.
   */
  lemma StoreQueriedForNextSaturday(config: Config, request: Request, day: int, fetched: Fetched, settled: Settled)
    requires Truthy(request.date) && Truthy(request.limit) && ToCivil(day).year >= 0
    ensures var o := HandleTopTracks(config, request, Parsed(day), fetched, settled);
      var key := GetNextDayOfWeek(day, Saturday);
      o.query == Some(StoreQuery(IsoDate(key), request.limit.value))
      && Weekday(key) == Saturday && day <= key < day + 7
  {
    IsoDateValidIff(day);
  }

  /** A date that already falls on a Saturday is its own chart week. */
  lemma SaturdayIsItsOwnChartWeek(config: Config, request: Request, day: int, fetched: Fetched, settled: Settled)
    requires Truthy(request.date) && Truthy(request.limit) && ToCivil(day).year >= 0
    requires Weekday(day) == Saturday
    ensures HandleTopTracks(config, request, Parsed(day), fetched, settled).query
         == Some(StoreQuery(IsoDate(day), request.limit.value))
  {
    StoreQueriedForNextSaturday(config, request, day, fetched, settled);
  }

  /**
   * Two requested days are looked up under the same chart-week key exactly
   * when they share the next Saturday, i.e. lie in the same Sunday-to-Saturday week.
   */
  lemma SameChartWeekIffSameSaturday(a: int, b: int)
    requires -MaxDay <= a <= MaxDay && -MaxDay <= b <= MaxDay
    ensures SaturdayKey(a) == SaturdayKey(b) <==> GetNextDayOfWeek(a, Saturday) == GetNextDayOfWeek(b, Saturday)
  {
    NextSaturdayInRange(a);
    NextSaturdayInRange(b);
    if SaturdayKey(a) == SaturdayKey(b) {
      IsoDateInjective(GetNextDayOfWeek(a, Saturday), GetNextDayOfWeek(b, Saturday));
    }
  }

  /** An empty chart week is a 404, never an empty 200, and no lookup is started. */
  lemma NoRowsIsNotFound(config: Config, request: Request, day: int, settled: Settled)
    requires Truthy(request.date) && Truthy(request.limit) && ToCivil(day).year >= 0
    ensures var o := HandleTopTracks(config, request, Parsed(day), Rows([]), settled);
      o.response == Response(404, JsonError("No songs found"), CorsFor(config, request))
      && o.query.Some? && o.lookups == []
  {
    IsoDateValidIff(day);
  }

  /**
   * A store query that throws (a lost connection, a limit the driver refuses)
   * ends in the plain-text 500, after the query was issued and before any lookup.
   */
  lemma FailedStoreQueryIsServerError(config: Config, request: Request, day: int, message: string, settled: Settled)
    requires Truthy(request.date) && Truthy(request.limit) && ToCivil(day).year >= 0
    ensures var o := HandleTopTracks(config, request, Parsed(day), StoreFailed(message), settled);
      o.response == Response(500, Text("Server Error: " + message), map[])
      && o.query == Some(StoreQuery(SaturdayKey(day), request.limit.value)) && o.lookups == []
  {
    IsoDateValidIff(day);
  }

  /* ----------------------------------------------------------- lookups */

  /** Exactly one lookup per fetched row, in row order, keyed by `title performer`. */
  lemma OneLookupPerRow(config: Config, request: Request, day: int, rows: seq<ChartEntry>, settled: Settled)
    requires Truthy(request.date) && Truthy(request.limit) && ToCivil(day).year >= 0 && rows != []
    ensures var o := HandleTopTracks(config, request, Parsed(day), Rows(rows), settled);
      |o.lookups| == |rows|
      && forall i :: 0 <= i < |rows| ==>
        o.lookups[i] == LookupRequest(rows[i].title + " " + rows[i].performer, rows[i].title, rows[i].performer)
  {
    IsoDateValidIff(day);
  }

  /** A lookup that throws rejects `Promise.all`: the whole request becomes a 500. */
  lemma RejectedLookupIsServerError(config: Config, request: Request, day: int, rows: seq<ChartEntry>, message: string)
    requires Truthy(request.date) && Truthy(request.limit) && ToCivil(day).year >= 0 && rows != []
    ensures var o := HandleTopTracks(config, request, Parsed(day), Rows(rows), Rejected(message));
      o.response == Response(500, Text("Server Error: " + message), map[])
  {
    IsoDateValidIff(day);
  }

  /* ------------------------------------------------------------ success */

  /**
   * Once the lookups have settled, the answer is a 200 echoing the raw `date`
   * and `limit` strings, with one song per row in store order: position `i`
   * carries `index = i` and row `i`'s title, performer and normalised weeks,
   * whatever the lookups returned.
   */
  lemma SongsFollowRowOrder(
    config: Config, request: Request, day: int, rows: seq<ChartEntry>, results: seq<Option<SpotifyTrack>>)
    requires Truthy(request.date) && Truthy(request.limit) && ToCivil(day).year >= 0 && rows != []
    ensures var o := HandleTopTracks(config, request, Parsed(day), Rows(rows), Fulfilled(results));
      o.response.status == 200 && o.response.headers == CorsFor(config, request)
      && o.response.body.JsonSongs?
      && o.response.body.date == request.date.value
      && o.response.body.limit == request.limit.value
      && o.response.body.songs == AssembleSongs(rows, results)
      && |o.response.body.songs| == |rows|
      && forall i :: 0 <= i < |rows| ==>
        var song := o.response.body.songs[i];
        song.index == i && song.title == rows[i].title && song.artist == rows[i].performer
        && song.weeksOnChart == NormaliseWeeks(rows[i].weeksOnChart)
  {
    IsoDateValidIff(day);
  }

  /**
   * Which lookups failed or found nothing changes only `spotifyId`: two
   * settled result lists give the same status and the same songs otherwise.
   */
  lemma LookupResultsOnlyAffectIds(
    config: Config, request: Request, day: int, rows: seq<ChartEntry>,
    results: seq<Option<SpotifyTrack>>, others: seq<Option<SpotifyTrack>>)
    requires Truthy(request.date) && Truthy(request.limit) && ToCivil(day).year >= 0 && rows != []
    ensures var o := HandleTopTracks(config, request, Parsed(day), Rows(rows), Fulfilled(results));
      var p := HandleTopTracks(config, request, Parsed(day), Rows(rows), Fulfilled(others));
      o.response.status == p.response.status == 200
      && |o.response.body.songs| == |p.response.body.songs|
      && forall i :: 0 <= i < |rows| ==>
        o.response.body.songs[i].(spotifyId := None) == p.response.body.songs[i].(spotifyId := None)
  {
    IsoDateValidIff(day);
  }

  /**
   * Row `i` gets the id of the FIRST settled result whose query key is
   * `title performer`, and null exactly when no result has that key.
   */
  lemma SpotifyIdIsFirstMatch(rows: seq<ChartEntry>, results: seq<Option<SpotifyTrack>>, i: nat)
    requires i < |rows|
    ensures var song := AssembleSongs(rows, results)[i];
      var key := rows[i].title + " " + rows[i].performer;
      (song.spotifyId.None? <==> forall j :: 0 <= j < |results| ==> !HasKey(results[j], key))
      && (song.spotifyId.Some? ==>
        exists j :: 0 <= j < |results| && HasKey(results[j], key)
          && results[j].value.id == song.spotifyId.value
          && forall k :: 0 <= k < j ==> !HasKey(results[k], key))
  {
    var key := RowKey(rows[i]);
    var found := FirstMatch(results, key);
    if found.Some? {
      var j := found.value;
      assert HasKey(results[j], key) && results[j].value.id == AssembleSongs(rows, results)[i].spotifyId.value;
    }
  }

  /** Rows with the same title and performer get the same id. */
  lemma DuplicateRowsShareId(rows: seq<ChartEntry>, results: seq<Option<SpotifyTrack>>, i: nat, j: nat)
    requires i < |rows| && j < |rows|
    requires rows[i].title + " " + rows[i].performer == rows[j].title + " " + rows[j].performer
    ensures AssembleSongs(rows, results)[i].spotifyId == AssembleSongs(rows, results)[j].spotifyId
  {
  }

  /**
   * What the lookup guarantees: one result per row, in row order, and a found
   * track carries back the query key it was asked with.
   */
  predicate LookupsAnswerTheirRows(rows: seq<ChartEntry>, results: seq<Option<SpotifyTrack>>) {
    |results| == |rows|
    && forall j :: 0 <= j < |results| && results[j].Some? ==> results[j].value.queryKey == RowKey(rows[j])
  }

  /**
   * Partial failure: a row's id is null exactly when every lookup for its
   * `title performer` found nothing; in particular a row whose own lookup
   * found a track always has an id.
   */
  lemma NullIdIffNoLookupFound(rows: seq<ChartEntry>, results: seq<Option<SpotifyTrack>>, i: nat)
    requires LookupsAnswerTheirRows(rows, results) && i < |rows|
    ensures AssembleSongs(rows, results)[i].spotifyId.None?
        <==> forall j :: 0 <= j < |rows| && RowKey(rows[j]) == RowKey(rows[i]) ==> results[j].None?
    ensures results[i].Some? ==> AssembleSongs(rows, results)[i].spotifyId.Some?
  {
    var key := RowKey(rows[i]);
    if results[i].Some? {
      assert HasKey(results[i], key);
    }
    forall j | 0 <= j < |rows| && RowKey(rows[j]) == key && results[j].Some?
      ensures HasKey(results[j], key)
    {
    }
  }

  /* ---------------------------------------------------------- examples */

  /** Monday 2024-03-04 (day 19786) is looked up under the chart week of Saturday 2024-03-09. */
  lemma MondayChartWeek(day: int)
    requires day == 19786
    ensures SaturdayKey(day) == "2024-03-09"
  {
    var key := GetNextDayOfWeek(day, Saturday);
    assert Weekday(day) == 1;
    assert key == 19791;
    IsoDateOf20240309(key);
  }

  /** Saturday 2024-03-02 (day 19784) is its own chart week. */
  lemma SaturdayChartWeek(day: int)
    requires day == 19784
    ensures SaturdayKey(day) == "2024-03-02"
  {
    assert Weekday(day) == Saturday;
    assert GetNextDayOfWeek(day, Saturday) == day;
    IsoDateOf20240302(day);
  }

  /**
   * Three distinct rows of which two lookups find a track: the request
   * succeeds, all three songs come back in order and exactly the unmatched one
   * has a null id.
   */
  lemma TwoOfThreeLookupsFound(
    config: Config, request: Request, day: int, rows: seq<ChartEntry>, results: seq<Option<SpotifyTrack>>)
    requires Truthy(request.date) && Truthy(request.limit) && ToCivil(day).year >= 0
    requires |rows| == 3 && forall i, j :: 0 <= i < j < 3 ==> RowKey(rows[i]) != RowKey(rows[j])
    requires LookupsAnswerTheirRows(rows, results)
    requires results[0].Some? && results[1].None? && results[2].Some?
    ensures var o := HandleTopTracks(config, request, Parsed(day), Rows(rows), Fulfilled(results));
      o.response.status == 200 && o.response.body.JsonSongs? && |o.response.body.songs| == 3
      && var songs := o.response.body.songs;
      songs[0].index == 0 && songs[1].index == 1 && songs[2].index == 2
      && songs[0].spotifyId.Some? && songs[1].spotifyId.None? && songs[2].spotifyId.Some?
  {
    SongsFollowRowOrder(config, request, day, rows, results);
    TwoOfThreeIds(rows, results);
    var songs := AssembleSongs(rows, results);
    assert songs[0].index == 0 && songs[1].index == 1 && songs[2].index == 2;
  }

  /** The ids of `TwoOfThreeLookupsFound`, on the assembled songs. */
  lemma TwoOfThreeIds(rows: seq<ChartEntry>, results: seq<Option<SpotifyTrack>>)
    requires |rows| == 3 && forall i, j :: 0 <= i < j < 3 ==> RowKey(rows[i]) != RowKey(rows[j])
    requires LookupsAnswerTheirRows(rows, results)
    requires results[0].Some? && results[1].None? && results[2].Some?
    ensures var songs := AssembleSongs(rows, results);
      songs[0].spotifyId.Some? && songs[1].spotifyId.None? && songs[2].spotifyId.Some?
  {
    NullIdIffNoLookupFound(rows, results, 0);
    NullIdIffNoLookupFound(rows, results, 1);
    NullIdIffNoLookupFound(rows, results, 2);
    assert forall j :: 0 <= j < 3 && RowKey(rows[j]) == RowKey(rows[1]) ==> j == 1;
  }
}
