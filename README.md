# song-charts-api: the `/top-tracks` pipeline in Dafny

song-charts-api is a small HTTP service. It answers `GET /top-tracks?date=…&limit=…`
with the Billboard Hot 100 entries of the chart week containing `date` (charts
are keyed by the Saturday that ends the week), each enriched with a Spotify
track id. This project models that request pipeline as pure Dafny functions
and proves what it guarantees:

- `Utils` models the helpers of `src/utils.ts`:
  - `ValidateDateFormat`, the three-segment date check;
  - `GetNextDayOfWeek`, which moves to the next Saturday;
  - `GetCorsHeaders`, which builds the CORS headers and applies the origin whitelist.
- `TopTracks` models the `/top-tracks` handler of `src/index.ts`, its
  `ChartEntry` and `TrackResult` records, and the `app.onError` fallback that
  turns an exception into a plain-text 500. The handler is a function from
  its inputs to an `Outcome`. An `Outcome` holds the response and also
  records the chart-store query and the track lookups the handler issued.
  That lets the proofs state "nothing was queried" and "one lookup per row".
  Two awaited values are inputs to the function:
  - the store query's result: its rows, or the message of the error it threw;
  - the settled `Promise.all` of the lookups.
- `Calendar` models what the handler relies on from JavaScript's `Date`. A
  day is a count of UTC days since 1970-01-01. The module gives its weekday,
  its proleptic Gregorian calendar date (proved to be a bijection), and the
  date part of `toISOString()`. That date part has a 4-digit year for years
  0–9999 and a signed 6-digit year otherwise.
- `JsBuiltins` models the JavaScript primitives the code uses, for the inputs
  that occur here:
  - `String.prototype.split` with a one-character separator, with its
    round-trip to `join`;
  - `Number(s)` and `parseInt(s)` for decimal integer text;
  - `Array.prototype.indexOf` and bitwise `~`.
- `Wrappers` holds `Option`.

Each outcome of the handler is pinned down by a lemma:

| outcome | when |
|---|---|
| 400 "Date is required" | the date is missing or empty |
| 400 "Limit is required" | the limit is missing or empty |
| plain-text 500 | `new Date(date)` cannot parse the date |
| 400 "Invalid date format" | exactly when the parsed year is negative |
| plain-text 500 | the store query throws |
| 404 "No songs found" | the chart week has no rows |
| plain-text 500 | any lookup throws |
| 200 | otherwise: one song per row, in store order |

On the 200 path, a row's `spotifyId` is null exactly when no lookup result
carries its `title performer` key.

Where the code and its description disagree, this model follows the code:

- An unparseable date does not give 400 "Invalid date format". `toISOString`
  throws a RangeError, so the request ends in `app.onError`'s plain-text 500.
  That response has no CORS headers (`UnparseableDateIsServerError`).
- A single failing track lookup is not absorbed as a null id. It rejects
  `Promise.all`, so the whole request becomes a 500
  (`RejectedLookupIsServerError`). Only a lookup that resolves to `null`
  gives a null `spotifyId`.
- `weeksOnChart` is a number only when the stored text, after an optional
  sign, starts with a digit (other than the sentinel `NA`, which becomes 0).
  `parseInt` of other text is `NaN`, and `NaN` is kept as `Numeric.NaN`.
- The validator's negative-segment guard (`src/utils.ts:18-20`) can never fire.
  Segments come from splitting on `-`, so none of them contains a minus sign
  (`SegmentsNeverNegative`).
- Because the validator only ever sees `toISOString()` output, "Invalid date
  format" is reached only for years before 0. Their ISO year starts with `-`,
  so the text splits into four segments (`IsoDateValidIff`).
- The validator is not a calendar check. It accepts `2024-02-31` and
  `2024-00-00`.

## Model

| member | source | states |
|---|---|---|
| Utils.ValidateDateFormat | src/utils.ts:1-30 | a date that passes the validator contains exactly two `-` |
| Utils.ValidateOfFields | src/utils.ts:3-26 | for a hyphen-free year and digit month and day: valid iff the year is a number ≥ 0, the month ≤ 12 and the day ≤ 31 |
| Utils.ValidateDigitTriple | src/utils.ts:22-26 | on three digit strings only the month ≤ 12 and day ≤ 31 bounds decide validity |
| Utils.SplitThreeFields | src/utils.ts:3-8 | `y-m-d` with hyphen-free fields splits into exactly `[y, m, d]` |
| Utils.SegmentsNeverNegative | src/utils.ts:18-20 | no segment of a `-` split ever reads as a negative number, so the negativity guard is dead code |
| Utils.ValidateNeedsThreeSegments | src/utils.ts:4-6 | any segment count other than three is rejected |
| Utils.ValidateNeedsNumbers | src/utils.ts:10-16 | a segment that is NaN under `Number` is rejected |
| Utils.ValidateAcceptsFebruary31 | src/utils.ts:22-26 | `2024-02-31` is accepted (the check is not calendar-aware) |
| Utils.ValidateAcceptsZeroMonthAndDay | src/utils.ts:18-26 | `2024-00-00` is accepted |
| Utils.ValidateRejectsMonth13 | src/utils.ts:22-24 | `2024-13-01` is rejected |
| Utils.ValidateRejectsDay32 | src/utils.ts:22-24 | `2024-01-32` is rejected |
| Utils.IsoDateValidIff | src/index.ts:81-88 | the ISO date of a day passes the validator iff its calendar year is ≥ 0 |
| Utils.NegativeYearFieldsInvalid | src/utils.ts:3-6 | an ISO date with a negative year fails the validator |
| Utils.NonNegativeYearFieldsValid | src/utils.ts:3-26 | an ISO date with a year ≥ 0 (month 1–12, day 1–31) passes the validator |
| Utils.IsoYearReadsBack | src/utils.ts:10-20 | the ISO year text of a year ≥ 0 is hyphen-free and reads as a non-negative number under `Number`; for a year below 10^6, it reads back as exactly that year |
| Utils.NegativeIsoYearRejected | src/utils.ts:3-6 | a `-`-signed year makes the split yield four segments, which is rejected |
| Utils.GetNextDayOfWeek | src/utils.ts:34-38 | the result falls on the requested weekday, lies in `[day, day+7)`, no earlier day in that range matches, and it equals `day` iff `day` already matches |
| Utils.GetNextDayOfWeekIdempotent | src/utils.ts:34-38 | applying it twice gives the same day as once |
| Utils.NextSaturdayInRange | src/index.ts:93-95 | the next Saturday of a day inside the `Date` range is inside it too (the last representable day is a Saturday) |
| Utils.GetCorsHeaders | src/utils.ts:40-67 | `undefined` iff the origin is truthy, the mode is not development and the origin is not whitelisted; otherwise the base methods/headers entries, plus `Allow-Origin` exactly when an origin is given: the test origin (or `''`) in development, else the request origin |
| Utils.CorsEchoesOnlyWhitelisted | src/utils.ts:61-66 | outside development an `Allow-Origin` entry appears only for a whitelisted origin, and echoes it |
| JsBuiltins.Split | src/utils.ts:3 | `split` yields at least one piece and no piece contains the separator |
| JsBuiltins.JoinOfSplit | src/utils.ts:3 | joining the pieces of a split with the separator gives back the text |
| JsBuiltins.SplitOfJoin | src/utils.ts:3 | splitting a join of separator-free pieces gives back the pieces |
| JsBuiltins.SplitOfSeparatorFree | src/utils.ts:3 | text without the separator splits into itself alone |
| JsBuiltins.SplitPrefix | src/utils.ts:3 | a separator-free prefix followed by the separator becomes the first piece |
| JsBuiltins.SplitLength | src/utils.ts:3-6 | the number of pieces is the number of separators plus one |
| JsBuiltins.ToNumber | src/utils.ts:10-12 | a digit string reads as its decimal value; a negative result needs a leading `-` |
| JsBuiltins.DigitPrefixLength | src/index.ts:141 | the longest digit prefix that `parseInt` reads: all digits, followed by a non-digit or the end |
| JsBuiltins.ParseIntOfDigits | src/index.ts:141 | `parseInt` of a non-empty digit string is its decimal value |
| JsBuiltins.ParseIntIgnoresSuffix | src/index.ts:141 | `parseInt` stops at the first non-digit |
| JsBuiltins.PadDigits | src/index.ts:81 | zero-padded rendering has the requested width and only digits |
| JsBuiltins.PadDigitsValue | src/index.ts:81 | a zero-padded field reads back as the number it renders |
| JsBuiltins.ParseIntOfSigned | src/index.ts:141 | `parseInt` reads a leading `-` or `+` as the sign of the digits after it |
| JsBuiltins.ParseIntWithoutDigits | src/index.ts:141 | `parseInt` of text with no digit after its optional sign is NaN |
| JsBuiltins.BitwiseNot | src/utils.ts:61 | on the values `indexOf` can return, `~n` is zero exactly for `n = -1`, the "not found" value |
| JsBuiltins.IndexOf | src/utils.ts:61 | `indexOf` is −1 iff the element is absent, otherwise the position of its first occurrence |
| JsBuiltins.NotIndexOfIsMembership | src/utils.ts:61 | `~indexOf(x)` is truthy iff `x` is in the list |
| Calendar.WeekdayCycle | src/utils.ts:36 | `getDay` advances by one (mod 7) each day, repeats every seven days, and 1970-01-01 is a Thursday |
| Calendar.DaysBeforeNextYear | src/index.ts:81 | consecutive year starts lie a year's length (365 or 366 days, by the Gregorian leap rule) apart |
| Calendar.DaysBeforeYearIncreasing | src/index.ts:81 | year starts increase with the year |
| Calendar.DaysBeforeNextMonth | src/index.ts:81 | consecutive month starts lie a month's length apart, and the twelve months fill the year |
| Calendar.YearOf | src/index.ts:81 | every day lies in exactly the year it is assigned to |
| Calendar.MonthOf | src/index.ts:81 | every day of the year lies in the month it is assigned to |
| Calendar.ToCivil | src/index.ts:81 | a day's calendar date is valid and converts back to the same day |
| Calendar.ToCivilOfDaysFromCivil | src/index.ts:81 | every valid calendar date is the calendar date of its day number, so the conversion is a bijection |
| Calendar.YearUnique | src/index.ts:81 | a day belongs to only one year |
| Calendar.MonthUnique | src/index.ts:81 | a day of the year belongs to only one month |
| Calendar.IsoDateOfCivil | src/index.ts:81 | the ISO date of a calendar date's day is `YYYY-MM-DD` built from that year, month and day |
| Calendar.IsoYear | src/index.ts:81 | the year field is four digits for years 0–9999, otherwise `-` or `+` followed by six digits |
| Calendar.YearOfRepresentableDay | src/index.ts:81 | every day a `Date` can hold lies in a year between −999999 and 999999, so its ISO year is rendered in full |
| Calendar.IsoYearInjective | src/index.ts:81 | distinct years of at most six digits have distinct ISO year fields |
| Calendar.IsoFieldsUnique | src/index.ts:81 | a `year-mm-dd` text determines its year, month and day fields |
| Calendar.TwoDigitFieldInjective | src/index.ts:81 | distinct months (days) get distinct two-digit fields |
| Calendar.IsoDateInjective | src/index.ts:95 | distinct days a `Date` can hold have distinct ISO dates (`IsoDate`), so a chart-week key names exactly one day |
| Calendar.WeekdaysOfMarch2024 | src/utils.ts:36 | 2024-03-02 and 2024-03-09 are Saturdays and 2024-03-04 is a Monday |
| Calendar.IsoDateOf20240302 | src/index.ts:81 | day 19784 renders as `2024-03-02` |
| Calendar.IsoDateOf20240304 | src/index.ts:81 | day 19786 renders as `2024-03-04` |
| Calendar.IsoDateOf20240309 | src/index.ts:95 | day 19791 renders as `2024-03-09` |
| Calendar.NegativeYearIsoDate | src/index.ts:81 | 31 December of year −1 renders with a signed six-digit year, `-000001-12-31` |
| TopTracks.HandleTopTracks | src/index.ts:61-152 | status is 200, 400, 404 or 500; nothing is looked up without a store query; a store query needs a truthy date and limit and a parsed date; lookups, when started, number the rows; 200 iff lookups were started and all settled; a 200 lists one song per row |
| TopTracks.DateRequired | src/index.ts:68-71 | a missing or empty date gives 400 "Date is required" with the CORS headers and issues nothing |
| TopTracks.LimitRequired | src/index.ts:73-76 | with a date, a missing or empty limit gives 400 "Limit is required" and issues nothing |
| TopTracks.UnparseableDateIsServerError | src/index.ts:42-45 | an unparseable date ends in `app.onError`'s response (`ServerError`): the plain-text 500 `Server Error: <message>` without CORS headers, and nothing is issued |
| TopTracks.InvalidDateFormatIff | src/index.ts:81-88 | the answer is "Invalid date format" iff the parsed year is negative, and then it is a 400 with nothing issued |
| TopTracks.StoreQueriedForNextSaturday | src/index.ts:93-110 | a valid date queries the store under `SaturdayKey`: the ISO date of the first Saturday on or after it, with the raw limit |
| TopTracks.SameChartWeekIffSameSaturday | src/index.ts:93-95 | two requested days get the same chart-week key (`SaturdayKey`) iff they share the next Saturday |
| TopTracks.SaturdayIsItsOwnChartWeek | src/index.ts:93-95 | a Saturday is queried under its own date |
| TopTracks.NoRowsIsNotFound | src/index.ts:113-116 | an empty chart week gives 404 "No songs found" with no lookup |
| TopTracks.FailedStoreQueryIsServerError | src/index.ts:106-110 | a store query that throws ends in the plain-text 500 `Server Error: <message>` without CORS headers, after the query was issued and before any lookup |
| TopTracks.OneLookupPerRow | src/index.ts:120-128 | the lookups started (`LookupsFor`) are exactly one per row, in row order, each asked for its `ChartEntry` row's (src/index.ts:19-27) `title performer` key, title and performer |
| TopTracks.RejectedLookupIsServerError | src/index.ts:120-128 | a lookup that throws makes the request the plain-text 500 |
| TopTracks.SongsFollowRowOrder | src/index.ts:130-151 | the 200 echoes the raw date and limit and its songs are the assembled songs (`AssembleSongs`): the `TrackResult` (src/index.ts:11-17) at position `i` carries `index = i`, row `i`'s title, its performer as `artist` and its normalised `weeksOnChart` |
| TopTracks.LookupResultsOnlyAffectIds | src/index.ts:130-145 | two settled lookup outcomes give responses that differ at most in `spotifyId` |
| TopTracks.SpotifyIdIsFirstMatch | src/index.ts:132-135 | a song's id is that of the first result with its query key, and null iff no result has that key |
| TopTracks.SpotifyIdFor | src/index.ts:132-135 | the id is that of the first lookup result matching the key, and none (null) iff no result matches |
| TopTracks.CorsFor | src/index.ts:66 | the JSON responses carry no CORS headers iff the origin is rejected, otherwise exactly what `getCorsHeaders` builds |
| TopTracks.FirstMatch | src/index.ts:133-134 | the position found holds a match and nothing before it does; none iff no result matches |
| TopTracks.DuplicateRowsShareId | src/index.ts:132-135 | rows with the same title and performer get the same id |
| TopTracks.NullIdIffNoLookupFound | src/index.ts:120-145 | when each found track carries its own row's key, a song's id is null iff every lookup for its key found nothing; a row whose own lookup found a track has an id |
| TopTracks.NormaliseWeeksOfSentinel | src/index.ts:140-141 | the `NA` sentinel becomes 0 weeks, where `parseInt` alone would give NaN |
| TopTracks.NormaliseWeeks | src/index.ts:140-141 | the sentinel `NA` becomes 0 weeks and stored digit text becomes its decimal value |
| TopTracks.MondayChartWeek | src/index.ts:93-95 | Monday 2024-03-04 is queried under the chart week `2024-03-09` |
| TopTracks.SaturdayChartWeek | src/index.ts:93-95 | Saturday 2024-03-02 is queried under `2024-03-02` |
| TopTracks.TwoOfThreeLookupsFound | src/index.ts:61-152 | a request whose three distinct rows' middle lookup found nothing succeeds with all three songs in order, and only the middle one has a null id |
| TopTracks.TwoOfThreeIds | src/index.ts:130-145 | the assembled songs of that request: only the middle one has a null id |

## Left out

- The frontend, the build tooling and the browser tests are not part of this model; they are not on the request path.
- The Postgres store (`src/lib/postgres.ts`) is not part of this model. Its result (rows or a thrown error) is an input, and `StoreQuery` records what it is asked for. That the store returns at most `Number(limit)` rows is assumed of it, not proved; the handler passes on exactly the rows it gets.
- The Spotify client (`src/lib/spotify.ts`) is not part of this model. The settled lookup results are an input. `LookupsAnswerTheirRows` states two facts about them. There is one result per row, in row order, because `Promise.all` runs over `songs.map` (`src/index.ts:120-128`). A found track carries back the query key it was asked with (`src/lib/spotify.ts:42`).
- JsBuiltins.BitwiseNot: the ToInt32 wrap of JavaScript's `~` is not modelled. `-n - 1` equals JavaScript's `~n` for −2^31 ≤ n < 2^31. It also agrees on whether the result is zero for every index `indexOf` can return (−1 up to 2^32 − 2); only −1 gives zero.
- Concurrency of the lookups is not modelled. Only the settled `Promise.all` is. When several lookups throw, which message wins is an input.
- JavaScript's date-string parsing is not modelled. `new Date(date)` becomes an input, either a UTC day or the RangeError's message, and local-time zones are not modelled. The model also assumes the `new Date(formattedDate)` at `src/index.ts:93` reads back the same UTC day.
- `Calendar.Weekday` and `Utils.GetNextDayOfWeek` work on whole UTC days. They do not model the millisecond time of day that `setDate` keeps, because only the date part ever reaches `toISOString().split('T')[0]`.
- `JsBuiltins.ToNumber`: models only `""` (which is 0), optionally signed decimal digits, and NaN for anything else. Decimals, exponents, hex and surrounding whitespace are not modelled; none occurs in ISO date segments.
- `JsBuiltins.ParseInt`: models an optional sign followed by decimal digits. Leading whitespace and radix prefixes are not modelled.
- The numeric conversion `Number(limit)` handed to the query builder is not modelled. The store query records the raw limit text.
- Logging, the request nonce (`yeast`) and `console.time` timing are not modelled; they do not affect the response. The same goes for `performance.now()`.
- The start-up check that every whitelist variable is set (`src/index.ts:29-38`) is not modelled. The whitelist and the environment are a `Config` input.
- Hono routing is not modelled. Neither are the `/` and the `OPTIONS` handlers (`src/index.ts:47-59`); the latter only wraps `GetCorsHeaders`.
- JSON serialisation is not modelled: the body is a datatype. In particular, JSON's rendering of NaN as `null` is not modelled.
- The `try`/`catch` in `validateDateFormat` is not modelled, because nothing inside it can throw on a string.
