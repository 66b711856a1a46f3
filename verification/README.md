# Event registration core: capacity counting and the registration endpoint

This project models the registration path of a small event-registration site in
Dafny. Registrations are stored as rows in a spreadsheet table. The endpoint
counts the rows already stored for an event and refuses a new registration once
the event's limit is reached. The model has five modules:

- `Optional` (`optional.dfy`): an optional value, standing for an absent JSON
  field or an unset environment variable.
- `Text` (`text.dfy`): the normalisation under which event ids are compared,
  which is JavaScript's `trim()` followed by `toLowerCase()`.
- `Sheets` (`sheets.dfy`): the table as an immutable `seq<seq<string>>` whose
  first row is a header. It models the five-column registration row, appending
  a row, and `countRegistrationsByEvent` as a filter over the data rows. The
  filter's row test is the predicate `Sheets.RowMatches`: column index 1
  exists, is not empty, and normalises to the normalised event id
  (`src/lib/sheets.ts:67`).
- `Events` (`events.dfy`): the static event catalogue (solo or team, team size) and its
  limit table, the well-formedness of both, and the catalogue's `getLimitFor`.
- `Register` (`register.dfy`): the `POST` handler as a pure transition
  `Post(sheet, body, env, faults, timestamp)` that returns the new table and
  the response. The handler runs validate (400), then the spreadsheet id check
  (500), limit lookup, count, capacity gate (409), and append (201). `Run`
  handles a sequence of requests one after another.

The environment, the store's failures and the clock are parameters. `Env`
carries the spreadsheet id and the parsed `DEFAULT_EVENT_LIMIT`. `StoreFaults`
says which of the two store calls throws. The timestamp is an opaque string.
Every thrown error becomes `ServerError` (status 500, `ok: false`).

Observations the proofs make precise:

- The endpoint keeps its own limit table. It does not consult the event
  catalogue, and it accepts any non-empty event id.
- The limit is looked up by the exact id, but rows are counted by the
  normalised id. `RunPreservesCapacity` therefore needs every request that
  counts towards an event to have a limit within the event's bound. With
  `DEFAULT_EVENT_LIMIT` unset, every id has limit 5, so the bound always holds
  (`UnsetDefaultCapsEveryEvent`). With it set, the respelling "Music-Fest" is
  checked against the default while it adds to the count of "music-fest"
  (`GateUsesRequestSpelling`, `SpellingVariantPassesExactLimit`).
- On an empty table the first accepted registration takes the header
  position. It is never counted, although the response reports a count of 1
  (`FirstRegistrationIsNotCounted`).
- The comments above both `getLimitFor` functions mention a default of 100.
  The code uses 5 in the endpoint and 50 in the catalogue. The model follows
  the code.

## Model

| member | source | states |
|---|---|---|
| Text.Trim | src/lib/sheets.ts:63 | `trim()` leaves a string with no space character at either end, never lengthens it, and returns an already trimmed string unchanged |
| Text.TrimRemovesOnlySpace | src/lib/sheets.ts:63 | the trimmed string is a contiguous piece of the input, and only space characters are removed on either side of it |
| Text.Lower | src/lib/sheets.ts:63 | `toLowerCase()` keeps the length, leaves no upper-case letter, changes only upper-case letters and maps each to its lower-case form |
| Text.Normalise | src/lib/sheets.ts:67 | the normal form `trim().toLowerCase()` has no space at either end and no upper-case letter |
| Text.NormaliseIdempotent | src/lib/sheets.ts:63-67 | normalising a normal form changes nothing |
| Sheets.RowRoundTrip | src/lib/sheets.ts:32-38 | the five-column layout loses nothing: reading a registration's row as five cells gives back that registration, and every five-column row is the row of the registration it reads as |
| Sheets.ToRow | src/lib/sheets.ts:32-38 | a registration is written as exactly five cells: timestamp, event id (column index 1, the one counted), name, email and phone, in that order |
| Sheets.AppendRegistrationRow | src/lib/sheets.ts:27-40 | appending adds exactly one row after the existing rows, leaves those rows unchanged, and the new row reads back as the registration |
| Sheets.Filter | src/lib/sheets.ts:65-68 | the filter keeps no more elements than it is given, and every element it keeps satisfies the row test |
| Sheets.FilterCountsPositions | src/lib/sheets.ts:65-68 | the filtered length equals the number of positions whose element satisfies the test |
| Sheets.FilterExtremes | src/lib/sheets.ts:65-68 | the filter keeps nothing exactly when no element passes, and keeps everything exactly when every element passes |
| Sheets.CountRegistrationsByEvent | src/lib/sheets.ts:53-68 | a missing or empty table counts 0, and a non-empty table counts at most its number of rows minus one |
| Sheets.CountIsMatchingDataRows | src/lib/sheets.ts:61-68 | the count is the number of rows after the first whose column index 1 is present, non-empty and equal to the event id once both are trimmed and lower-cased |
| Sheets.CountZeroIff | src/lib/sheets.ts:65-68 | the count is 0 exactly when no data row matches |
| Sheets.CountFullIff | src/lib/sheets.ts:61-68 | the count equals the number of rows minus one exactly when every data row matches |
| Sheets.HeaderNeverCounted | src/lib/sheets.ts:61-62 | the first row is never counted: replacing it changes no count, even when it matches the event id |
| Sheets.CountDependsOnlyOnNormalForm | src/lib/sheets.ts:63-67 | ids with the same normal form have the same count, and an id has the count of its own normal form |
| Sheets.AppendRowCount | src/lib/sheets.ts:62-68 | on a table with a header, appending a row adds one to the count of each id the row matches and leaves the other counts unchanged |
| Sheets.ShortOrBlankRowsNeverCount | src/lib/sheets.ts:67 | a row that is too short or has an empty column index 1 never adds to any count |
| Sheets.AppendRegistrationCount | src/lib/sheets.ts:32-68 | on a table with a header, appending a registration raises the count of its own id by exactly one and leaves every id with a different normal form unchanged |
| Sheets.FirstRowBecomesHeader | src/lib/sheets.ts:32-62 | a registration appended to an empty table lands in the header position and is counted for no id |
| Events.ShippedCatalogueWellFormed | src/lib/events.ts:30-354 | `EVENTS_CONFIG` and `EVENT_LIMITS` have the same keys, every limit is positive, `teamSize` is present exactly on team events, and every team size is at least 2 |
| Events.GetLimitFor | src/lib/events.ts:357-359 | a configured id gets a positive limit; an unconfigured id with the environment default unset gets 50 |
| Events.LimitLookup | src/lib/events.ts:338-359 | every catalogue id gets its own table limit whatever the environment says; any other id gets the environment default, or 50 |
| Register.GetLimitFor | src/app/api/register/route.ts:6-15 | the three table ids get 5; any other id gets the environment default; with the default unset every id gets 5 |
| Register.RegistrationOf | src/app/api/register/route.ts:69-77 | the appended registration carries the request's id, name and email and the timestamp; an absent phone is stored as the empty string |
| Register.Post | src/app/api/register/route.ts:25-96 | 400 exactly for a body missing a required field; 500 exactly for an unparsable or `null` body, a missing spreadsheet id, a failing count, or a failing append below the limit; once the count is known, 409 exactly when it has reached the limit, whether or not the append would fail, reporting the stored count and the limit; a valid request below the limit with working store calls gets 201 on any table, appends exactly its row and reports the old count plus one, within the limit; the table changes exactly on 201 |
| Register.ValidationPrecedesStore | src/app/api/register/route.ts:33-45 | a body missing a field gets 400 and a missing spreadsheet id gets 500, whatever the store would do, with the table untouched |
| Register.StatusAndOk | src/app/api/register/route.ts:33-95 | `ok` is true exactly on 201, and each status code belongs to exactly one kind of response |
| Register.ReportedCountIsStoredCount | src/app/api/register/route.ts:52-88 | on a table with a header, the count reported with 201 is the count now stored for the id |
| Register.FirstRegistrationIsNotCounted | src/app/api/register/route.ts:69-88 | on an empty table an accepted registration reports a count of 1 while the stored count stays 0 |
| Register.PostPreservesCapacity | src/app/api/register/route.ts:48-77 | for a request whose limit for an event is within a bound, the event's count stays within the bound if it was, and a count already above the bound does not change |
| Register.Run | src/app/api/register/route.ts:25-96 | handling requests in sequence only appends: the old table is a prefix of the new one, which has at most one more row per request |
| Register.RunPreservesCapacity | src/app/api/register/route.ts:48-77 | handled sequentially, requests whose limits are within an event's bound keep that event's count within the bound, and leave a count above the bound unchanged |
| Register.UnsetDefaultCapsEveryEvent | src/app/api/register/route.ts:6-77 | with the default unset, an event with at most 5 registrations still has at most 5 after any sequence of requests, and an event with more gains none |
| Register.GateUsesRequestSpelling | src/app/api/register/route.ts:48-77 | a request is gated by the limit of its own spelling of the id: below that limit it is accepted and adds one to the count of every id with the same normal form, otherwise it gets 409, whatever the limit of those other ids |
| Register.SpellingVariantPassesExactLimit | src/app/api/register/route.ts:6-15 | with the default set to 100, a "Music-Fest" request is accepted when "music-fest" already holds its 5, leaving 6 stored |

## Left out

- The Google Sheets client, JWT authentication and the network calls are not
  modelled. The table is a `seq<seq<string>>` and an append is sequence
  concatenation. The store's failures are the `StoreFaults` parameter, and a
  failed append is assumed to have written nothing.
- `USER_ENTERED` value interpretation is not modelled. A stored cell reads
  back as the string written. A cell that the spreadsheet would parse as a
  number or formula is not considered.
- Next.js request and response plumbing is not modelled. The parsed body is
  the `Body` record. A body that does not parse, or parses to `null`, is
  `None`: destructuring it throws, which yields 500. Any other JSON value that
  is not an object has no fields, so it is `Body(None, None, None, None)`, which
  yields 400. JSON fields of a non-string type are not modelled.
- Response messages are not modelled. `Response` keeps the status, `ok`,
  `currentCount` and `limit`, but not the human-readable `message` text.
- `process.env` reads and `Number(...)` parsing are not modelled. The default
  limit is an already parsed `Option<int>`. A non-numeric value, whose `NaN`
  would disable the gate, is not modelled.
- Register.GetLimitFor and Events.GetLimitFor do not model keys inherited
  from the JavaScript object prototype (such as `"constructor"`), for which
  the source's table lookup returns a non-number.
- Text.Lower: only the letters A to Z are lower-cased. The full Unicode case
  mapping of `toLowerCase()` is not modelled. The whitespace set of `trim()`
  is modelled in full.
- Concurrency is not modelled. Requests are handled one after another, so the
  race between the count and the append under concurrent requests is out of
  scope.
- Sheets.RowRoundTrip: the source never reads a registration back. A real
  read of the table also drops trailing empty cells, so a registration with no
  phone comes back as four cells. The lemma is about the model's own
  `FromRow`; only column index 1 of a read row matters to the count.
- Console logging is not modelled.
- The timestamp is not generated; it is an input string.
- Free-text event details and WhatsApp links in the catalogue are not
  modelled; they are display data.
- The capacity endpoint `src/app/api/events/[eventId]/capacity/route.ts` and
  the pages and components are not modelled.
