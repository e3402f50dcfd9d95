# Vehicle enrichment pipeline, modelled in Dafny

The pipeline keeps a queue of work items in relational tables and enriches
each item with lookups against external services. A work item is either a
licence plate or a vehicle tuple: brand, model, year of manufacture and
model year. Each item carries a one-letter status:

- N, new;
- P, being processed;
- S, succeeded;
- E, error, so it will be retried;
- I, invalid, so it is never retried.

Scheduled runs do the following:

- select pending items, giving P priority over E and E over N;
- claim them by setting P;
- look each one up;
- write the price or vehicle rows;
- record every item's outcome, committing once per batch.

There are two lookups:

- The plate lookup goes through a rate limiter. Every plate has a minimum
  interval before its request, and a sliding window of five requests. The
  lookup retries rate-limited answers with growing sleeps.
- The FIPE price lookup matches the model. It maps the brand to a code,
  filters the brand's models by keywords, and takes the last candidate.
  When that candidate lacks the model year, it searches the other
  candidates for the year.

The model covers both generations of the flows:

- the PostgreSQL flows: `main_plate_raw`, `main_details`,
  `main_consolidation` and `main_fipe`, with `client.py` and `schemas.py`;
- the legacy Snowflake flows: `vehicle_details_api_to_snowflake` and
  `vehicle_fipe_to_snowflake`.

It also covers the pure logic of the loaders that share the alerting and
connection helpers:

- the BeSistemas S3 loader;
- the Salesforce SFTP loader and the SFTP helpers;
- the Deconve camera and people-flow loaders and the Deconve token check;
- the Zapt Tech export;
- the weather loaders;
- the alert messages and the alert decorator.

Tables are maps from key to row. An `UPDATE ... WHERE` is a map rewrite
over the rows its `WHERE` selects.

Some things are parameters rather than modelled:

- every remote service, whether HTTP API, database query or SFTP listing;
- the clock;
- the alert sender.

Each of these is a function value or a plain argument, so every property
holds whatever those services answer.

The modules follow the source:

| module | file | covers |
|---|---|---|
| `Wrappers`, `Text` | `wrappers.dfy`, `text.dfy` | `Option`/`Result`, Python string operations on ASCII and Latin-1 text |
| `Calendar` | `calendar.dfy` | calendar dates as `datetime` accepts them |
| `WorkStatus` | `status.dfy` | statuses, pending selection, guarded and unguarded status statements |
| `Plates` | `plates.dfy` | plate cleaning, the two plate shapes, hyphenation |
| `PlateApi` | `plate_api.dfy` | classification of plate-service answers, the retry loop |
| `LegacyBatch` | `legacy_batch.dfy` | the legacy rate limiter and plate batch |
| `Schemas` | `schemas.py` rows in `schemas.dfy` | row builders, `_safe_int`, reference month |
| `DetailsFlow` | `details_flow.dfy` | the plate-details runs |
| `Fipe` | `fipe.dfy` | brand codes, keyword candidates, year search, price query |
| `FipeFlow` | `fipe_flow.dfy` | the FIPE runs |
| `Ingestion` | `ingestion.dfy` | raw plate load and vehicle consolidation |
| `BeSistemas`, `Salesforce`, `Sftp`, `Deconve`, `Zapt`, `Weather`, `Alerts`, `Decorators` | one file each | the remaining loaders and helpers |

## Guarded and unguarded status writes

The legacy statements guard every status write by the current status;
`SetStatus` in the PostgreSQL flows does not. The model keeps both kinds,
as follows.

- **`main_details.py` status writes.** `update_status` writes by plate with
  no guard on status (`main_details.py:80-139`). A later statement that names
  a finished plate rewrites it, as happens when two runs overlap. See `WorkStatus.UnguardedRewritesFinishedRow`.
- **`main_fipe.py` status writes.** `update_status` is also unguarded. It
  matches on brand, model and model year, not on the whole key, so claiming
  one vehicle also reopens a finished sibling row (`main_fipe.py:77-89`).
  See `FipeFlow.ClaimReopensSiblingRow`.
- **`main_fipe.py` invalid outcome.** `main_fipe.py` writes I without the
  reason. The legacy flow stores the reason.
- **Attempt counter.** Only the plate claim of `main_details.py` counts an
  attempt. The vehicle tables have no attempt column.
- **Empty model list.** In `main_fipe.py` an empty model list for a mapped
  brand leaves the vehicle in E, not I (`main_fipe.py:124-126`). So do a
  model year found under no candidate and a failed price query.
- **HTTP 400.** The legacy plate client treats a 400 as "no data". The
  modern client rejects it (`PlateApi.LegacyAndPlacaAgreeExceptOn400`).

## Model

| member | source | states |
|---|---|---|
| Text.Split | flows/vehicle/main_fipe.py:85 | splitting gives at least one piece, no piece holds the separator, joining the pieces with it gives the text back, and there is one piece exactly when the text lacks the separator |
| Text.SplitLeftmost | flows/vehicle/main_fipe.py:85 | every cut `split` makes is at the leftmost separator of what is left |
| Text.SplitUnique | flows/vehicle/main_fipe.py:85 | any list of pieces that joins back to the text, is cut at leftmost separators and ends in a separator-free piece is the split of the text |
| Text.TrimBlanks | flows/vehicle/main_consolidation.py:96-97 | trimming never lengthens a text and leaves no blank at either end |
| Text.TrimBlanksKeeps | flows/vehicle/main_consolidation.py:96-97 | what trimming keeps is the text right after the leading blanks, and everything after it is blank |
| Text.LeadingBlanksAreBlank | flows/vehicle/main_consolidation.py:96-97 | the leading blanks counted are blanks, and the character after them is not |
| Text.Least | flows/besistemas/besistemas_to_snowflake.py:334 | the chosen string belongs to the set and comes before every other member |
| Text.SortSet | flows/vehicle/main_plate_raw.py:123 | sorting a set lists exactly its members, each once, in strictly ascending order |
| WorkStatus.Members | flows/vehicle/vehicle_details_api_to_snowflake.py:165-170 | the keys named by an `IN (...)` list are exactly the list's elements |
| WorkStatus.Code | flows/vehicle/main_consolidation.py:66 | each status is stored as one of the letters N, P, E, S, I |
| WorkStatus.CodeInjective | flows/vehicle/main_consolidation.py:66 | no two statuses share a letter |
| WorkStatus.Priority | flows/vehicle/vehicle_details_api_to_snowflake.py:109-114 | P, E and N rank 1, 2 and 3 |
| WorkStatus.PendingKeys | flows/vehicle/vehicle_details_api_to_snowflake.py:108 | the pending rows are rows of the table |
| WorkStatus.Best | flows/vehicle/vehicle_details_api_to_snowflake.py:109-115 | the chosen key belongs to the candidates and sorts no later than any of them under status priority, then newest insertion |
| WorkStatus.SelectPending | flows/vehicle/vehicle_details_api_to_snowflake.py:84-134 | a failing query yields no keys; otherwise exactly `min(limit, pending)` distinct pending keys, in priority-then-newest order, each ranking no later than every pending key left out |
| WorkStatus.Matching | flows/vehicle/vehicle_details_api_to_snowflake.py:165-170 | an UPDATE matches exactly the rows whose key is selected and whose status the guard admits |
| WorkStatus.Claim | flows/vehicle/vehicle_details_api_to_snowflake.py:139-186 | the claim keeps every row, counts the selected N/E rows, and only changes selected rows, to P |
| WorkStatus.Finish | flows/vehicle/vehicle_details_api_to_snowflake.py:489-500 | a finishing statement keeps every row, counts the selected P rows, and only changes selected rows that were P |
| WorkStatus.FinishInvalid | flows/vehicle/vehicle_details_api_to_snowflake.py:550-563 | the invalidation counts the P rows that have a reason and only changes those, each getting its own reason |
| WorkStatus.SetStatus | flows/vehicle/main_details.py:80-130 | the unguarded update rewrites every selected row to the status, leaves others alone, sets the row's reason (or `UNKNOWN`) only when reasons are given, and bumps the attempt counter and collection time only when asked |
| WorkStatus.GuardedWritesAreLegal | flows/vehicle/vehicle_details_api_to_snowflake.py:638 | the guarded claim, finish and invalidation statements only move N/E to P and P to S, E or I |
| WorkStatus.GuardedWritesKeepTerminalRows | flows/vehicle/vehicle_details_api_to_snowflake.py:559 | rows already S or I are left untouched by every guarded statement |
| WorkStatus.ClaimIsExclusive | flows/vehicle/vehicle_details_api_to_snowflake.py:170 | claiming the same selection twice claims nothing the second time and changes nothing |
| WorkStatus.FinishIsIdempotent | flows/vehicle/vehicle_details_api_to_snowflake.py:500 | repeating a finishing statement matches no row and changes nothing |
| WorkStatus.FinishNothing | flows/vehicle/vehicle_fipe_to_snowflake.py:919-931 | a finishing or invalidating statement over no keys changes nothing |
| WorkStatus.FinishTwice | flows/vehicle/vehicle_fipe_to_snowflake.py:919-931 | two finishing statements to the same status, one after the other, act as one statement over both key sets |
| WorkStatus.FinishInvalidTwice | flows/vehicle/vehicle_fipe_to_snowflake.py:326-340 | one invalidating statement for a key followed by one for other keys acts as one statement over all of them, the first key with its own reason |
| WorkStatus.ClaimThenFinish | flows/vehicle/vehicle_details_api_to_snowflake.py:170 | a selected N/E row that is claimed and then finished ends in the outcome status |
| WorkStatus.UnguardedRewritesFinishedRow | flows/vehicle/main_details.py:124-128 | without a status guard, an S row selected again is moved back to E, a transition the guarded statements never make |
| WorkStatus.ClaimCountsAttempt | flows/vehicle/main_details.py:116-122 | the claim with a collection date bumps the attempt count by one, stamps the collection time and leaves the reason alone |
| WorkStatus.SetStatusReasons | flows/vehicle/main_details.py:103-110 | with reasons, each selected row gets its own reason or `UNKNOWN`, and the attempt count is unchanged |
| Plates.Clean | flows/vehicle/vehicle_details_api_to_snowflake.py:202-203 | the cleaned plate holds no hyphen, no space and no lower-case letter, and is never longer than the input |
| Plates.CleanKeepsCharsInOrder | flows/vehicle/vehicle_details_api_to_snowflake.py:202-203 | the cleaned plate is the stripped sequence of the characters other than hyphen and space, upper-cased, in order; nothing is stripped when the only whitespace is spaces |
| Plates.Normalize | flows/vehicle/vehicle_details_api_to_snowflake.py:189-215 | a plate is accepted exactly when it is non-empty and its cleaned form has the old `ABC1234` or the Mercosul `ABC1D23` shape; an accepted plate is its cleaned form, seven characters long |
| Plates.CleanFixesWellFormed | flows/vehicle/client.py:131-145 | cleaning leaves a plate that already has one of the two shapes unchanged |
| Plates.NormalizeIdempotent | flows/vehicle/client.py:131-145 | normalising an accepted plate again gives the same plate |
| Plates.NormalizeFixedPoints | flows/vehicle/client.py:324-338 | a plate normalises to itself if and only if it has one of the two shapes |
| Plates.WithHyphen | flows/vehicle/client.py:147-151 | a seven-character plate gets a hyphen after its third character and keeps every other character in place; any other length is left unchanged |
| Plates.HyphenRoundTrip | flows/vehicle/client.py:147-151 | the hyphenated form of a valid plate normalises back to that plate |
| PlateApi.Get | flows/vehicle/vehicle_details_api_to_snowflake.py:292-297 | a key present in a decoded object reads as its value, and a missing key as null |
| PlateApi.ClassifySuccessBody | flows/vehicle/vehicle_details_api_to_snowflake.py:290-306 | a vehicle is found only when the body's `data` object is that record and names a make or a model; a success body is never a rate limit |
| PlateApi.AsSeen | flows/vehicle/main_details.py:189-196 | a record whose own `status` is "invalid" is a rejection with its own `reason` (`UNKNOWN` if none), one whose `status` is 429 a rate limit, and every other outcome reads as itself |
| PlateApi.LegacyClassify | flows/vehicle/vehicle_details_api_to_snowflake.py:274-320 | 404, 403 and every 5xx are permanent rejections with their reasons, 429 is a rate limit, a vehicle comes only from a 200, and a transport failure yields nothing |
| PlateApi.LegacyQuery | flows/vehicle/vehicle_details_api_to_snowflake.py:219-247 | a plate that does not normalise is rejected as `INVALID_PLATE_FORMAT` without a request; otherwise the normalised plate is posted once and the reply classified |
| PlateApi.PlacaClassify | flows/vehicle/client.py:340-380 | a 400 is a permanent rejection carrying the body's `error`, `400_INVALID_DATA` when it has none |
| PlateApi.LegacyAndPlacaAgreeExceptOn400 | flows/vehicle/client.py:350-376 | the legacy call and the Placamaster client classify every exchange alike except a 400, which only the client rejects |
| PlateApi.AnyCarQueryOnce | flows/vehicle/client.py:171-267 | a 400 on the POST is `400_INVALID_DATA`, a 200 without status and id is `NO_ID_RETURNED`, and a found record has exactly the five fields make, model, year, model year and colour |
| PlateApi.AnyCarClassifyGet | flows/vehicle/client.py:236-263 | on the GET, 429 is a rate limit, a 5xx is a `GET_`-prefixed server error, and a record comes only from a 200 with the five fields |
| PlateApi.AnyCarRecordFields | flows/vehicle/client.py:240-252 | a found AnyCar record takes its year from `anoFabricacao` and keeps model year, make and colour as the provider gave them |
| PlateApi.RetryAnswer | flows/vehicle/client.py:285-309 | the outcome the retry loop settles on, read through the record's own status, is never a rate limit |
| PlateApi.RetryRateLimited | flows/vehicle/client.py:285-309 | the call is made once per attempt until its status, its own or that of the record it returns, is not 429, at most five times; every earlier call was rate-limited; five rate limits in a row end in nothing; the sleeps before the retries are 20, 25, 30 and 35 s in turn; the outcome is never a rate limit |
| PlateApi.QueryWithRetry | flows/vehicle/client.py:382-422 | an invalid plate is rejected without a call; a valid one gets between one and five calls, all but the last rate-limited (a found record with status 429 counts as one), and the outcome of the last call; five rate limits give nothing after exactly five calls; the outcome is never a rate limit |
| PlateApi.RetrySleepBound | flows/vehicle/client.py:296-299 | one plate's retries sleep at most 110 s in all |
| PlateApi.FiveRateLimits | flows/vehicle/client.py:285-309 | five rate limits in a row end in nothing after exactly five calls and sleeps of 20, 25, 30 and 35 s, and so do five found records that each carry status 429 |
| PlateApi.ShiftedSleepBound | flows/vehicle/client.py:296-299 | the sleeps from any attempt onwards, added to the ones before it, stay within 110 s |
| PlateApi.SleepsMonotone | flows/vehicle/client.py:297 | the total backoff before an attempt grows with the attempt number |
| LegacyBatch.Recent | flows/vehicle/vehicle_details_api_to_snowflake.py:374 | the sliding-window filter keeps only requests younger than the 60 s window and never grows the window |
| LegacyBatch.RecentOfIncreasing | flows/vehicle/vehicle_details_api_to_snowflake.py:374 | on in-order request times the filter drops a prefix, and every dropped request is at least a window old |
| LegacyBatch.KeepAll | flows/vehicle/vehicle_details_api_to_snowflake.py:418 | when every request is within the window the filter keeps them all |
| LegacyBatch.MinGapIncreasing | flows/vehicle/vehicle_details_api_to_snowflake.py:365-370 | request times kept at least the minimum interval apart are strictly increasing |
| LegacyBatch.Start | flows/vehicle/vehicle_details_api_to_snowflake.py:351-353 | the limiter starts with no requests, no window and no last request, a state its invariant admits |
| LegacyBatch.FilterDropsOld | flows/vehicle/vehicle_details_api_to_snowflake.py:374 | filtering the window at a later time keeps its most recent requests and drops only ones a window old |
| LegacyBatch.FilterKeepsTight | flows/vehicle/vehicle_details_api_to_snowflake.py:374 | after the filter the window is still exactly the requests of the last 60 s |
| LegacyBatch.PopKeepsTight | flows/vehicle/vehicle_details_api_to_snowflake.py:377-385 | popping the oldest request once a window has passed since it keeps the window exact |
| LegacyBatch.Gate | flows/vehicle/vehicle_details_api_to_snowflake.py:363-385 | the three rules before a plate only move the clock forward, leave at least 10 s since the last request, and, until a rate limit has been seen, leave room for one more request in the window |
| LegacyBatch.Dispatch | flows/vehicle/vehicle_details_api_to_snowflake.py:392-397 | a request is stamped with the current time, joins the history with its outcome, becomes the last request, and the clock advances by its latency |
| LegacyBatch.AfterBackoff | flows/vehicle/vehicle_details_api_to_snowflake.py:406-418 | after a rate limit the loop sleeps 15 + 5 × attempt seconds and refilters, changing no request history |
| LegacyBatch.DispatchExtends | flows/vehicle/vehicle_details_api_to_snowflake.py:392-397 | a dispatched request extends the run's history with the lookup for its request number |
| LegacyBatch.ServeStep | flows/vehicle/vehicle_details_api_to_snowflake.py:390-397 | one ready request records its time and the lookup for its request number and never moves the clock back |
| LegacyBatch.Attempt | flows/vehicle/vehicle_details_api_to_snowflake.py:390-428 | one pass of the retry loop makes exactly one request; it stops with the plate's ending, giving up only on the fifth attempt, or continues only after a rate limit |
| LegacyBatch.Retry | flows/vehicle/vehicle_details_api_to_snowflake.py:390-428 | the remaining attempts end a plate with an ending that matches its last answer, every earlier answer of the plate having been a rate limit |
| LegacyBatch.ServePlate | flows/vehicle/vehicle_details_api_to_snowflake.py:361-428 | one plate gets between one and five requests, all but the last rate-limited; its ending matches the last answer, and giving up takes exactly five requests |
| LegacyBatch.PlateAnswerShape | flows/vehicle/vehicle_details_api_to_snowflake.py:390-428 | every request of a plate but the last was answered 429, the last decided its ending, and the plate gave up exactly after five 429s |
| LegacyBatch.PlateAnswerOf | flows/vehicle/vehicle_details_api_to_snowflake.py:390-428 | the answers a plate received determine its ending and its request count |
| LegacyBatch.RowPlates | flows/vehicle/vehicle_details_api_to_snowflake.py:433-443 | the plates of the enriched rows, in order |
| LegacyBatch.Place | flows/vehicle/vehicle_details_api_to_snowflake.py:399-452 | a found vehicle becomes a row, a rejection an invalid entry with its reason, the fifth rate limit a failure, and an empty answer a failure unless the plate is already invalid or failed |
| LegacyBatch.RowPlatesAppend | flows/vehicle/vehicle_details_api_to_snowflake.py:433 | appending a row appends its plate |
| LegacyBatch.PlaceSorts | flows/vehicle/vehicle_details_api_to_snowflake.py:431-452 | placing a plate touches no other plate's buckets, and a plate placed for the first time lands in exactly one bucket |
| LegacyBatch.SpecPlaces | flows/vehicle/vehicle_details_api_to_snowflake.py:360-452 | after the batch exactly the plates placed before and the batch's plates are placed |
| LegacyBatch.SpecOneBucket | flows/vehicle/vehicle_details_api_to_snowflake.py:431-452 | with distinct plates, every placed plate is in exactly one bucket after the batch |
| LegacyBatch.SpecPlacesEach | flows/vehicle/vehicle_details_api_to_snowflake.py:431-452 | with distinct, not yet placed plates, each lands where its own ending puts it |
| LegacyBatch.SpecPlacesAll | flows/vehicle/vehicle_details_api_to_snowflake.py:431-452 | with distinct plates, every plate of a batch from empty buckets lands where its ending puts it |
| LegacyBatch.FoldAdvance | flows/vehicle/vehicle_details_api_to_snowflake.py:360-452 | one plate placed with the requests it made moves the batch one step towards the same final buckets |
| LegacyBatch.BatchLoop | flows/vehicle/vehicle_details_api_to_snowflake.py:360-452 | the plate loop keeps the limiter's invariant, makes between one and five requests per plate, and ends with the buckets and request count of the batch as a fold over its plates |
| LegacyBatch.ProcessPlateBatch | flows/vehicle/vehicle_details_api_to_snowflake.py:326-465 | requests are always at least 10 s apart and, until a rate limit, never more than five in any 60 s; each plate takes one to five requests; every plate ends in some bucket and nothing else does; with distinct plates each is in exactly one bucket, the one its own ending puts it in: a row for a found record, an invalid entry with the rejection's reason, a failure after five rate limits or an empty answer |
| Schemas.GroupedChars | flows/vehicle/schemas.py:155 | the digit groups `int()` accepts consist of digits and single underscores only |
| Schemas.ParseInt | flows/vehicle/schemas.py:155 | `int()` of a text succeeds only when something is left once surrounding whitespace is stripped |
| Schemas.ParseTrimmed | flows/vehicle/schemas.py:155 | `int()` of stripped text succeeds only on non-empty text |
| Schemas.DigitsAreGrouped | flows/vehicle/schemas.py:155 | a non-empty run of digits is a well-formed digit group |
| Schemas.GroupedValueOfDigits | flows/vehicle/schemas.py:155 | a run of plain digits has the value of its digits |
| Schemas.ParseTrimmedOfDigits | flows/vehicle/schemas.py:155 | digits parse to their value and minus-prefixed digits to its negation |
| Schemas.ParseIntOfDigits | flows/vehicle/schemas.py:104 | `int()` of a digit run is its value |
| Schemas.ParseIntOfNegatedDigits | flows/vehicle/schemas.py:155 | `int()` of a minus sign and digits is the negated value |
| Schemas.ParseIntOfIntToString | flows/vehicle/schemas.py:155 | `int(str(n)) == n` for every integer |
| Schemas.InYearRange | flows/vehicle/schemas.py:157-165 | a number survives exactly when it lies in 1900..2100 (the 32-bit check never rejects one of those) and then unchanged |
| Schemas.SafeInt | flows/vehicle/schemas.py:143-167 | null, masked text, lists, objects and booleans give no year; a number is kept exactly when it is in 1900..2100; text that yields a year yields what `int()` reads from it |
| Schemas.SafeIntKeepsYears | flows/vehicle/schemas.py:143-167 | every year in 1900..2100 comes through unchanged, given as a number or as its decimal text |
| Schemas.RemoveCharKeepsDigit | flows/vehicle/schemas.py:151-153 | a text holding a digit is never taken for a masked value |
| Schemas.KeptDigit | flows/vehicle/schemas.py:151 | removing a non-digit character keeps some digit |
| Schemas.StripKeepsNonSpace | flows/vehicle/schemas.py:151 | stripping never empties a text with a non-whitespace character |
| Schemas.BrandUpper | flows/vehicle/schemas.py:50-52 | the upper-cased brand has the brand's length, no lower-case letter and its letters in the same places |
| Schemas.ModelUpper | flows/vehicle/schemas.py:54-56 | the upper-cased model has the model's length, no lower-case letter and its letters in the same places |
| Schemas.TitleFrom | flows/vehicle/schemas.py:112 | title-casing keeps the length and which characters are cased letters (ASCII and Latin-1), and leaves every other character as it is |
| Schemas.Title | flows/vehicle/schemas.py:112 | title-casing keeps the length |
| Schemas.TitleFromIdempotent | flows/vehicle/schemas.py:112 | title-casing twice gives the same text as once |
| Schemas.TitleShape | flows/vehicle/schemas.py:112 | in a title-cased text a cased letter that starts a word is a capital and any other cased letter is small, Latin-1 letters included |
| Schemas.TitleFromShape | flows/vehicle/schemas.py:112 | the word-start rule, for title-casing that may start inside a word |
| Schemas.TitleLowersLatinCapital | flows/vehicle/schemas.py:112 | `"ELÉTRICO".title()` is `"Elétrico"`: Latin-1 capitals are lowered inside a word |
| Schemas.ModelTitle | flows/vehicle/schemas.py:112 | an absent model reads as empty text, a text model is title-cased, and anything else present makes `.title()` raise |
| Schemas.FuelAbbr | flows/vehicle/schemas.py:81-82 | `fuel[0] if fuel else None`: no abbreviation exactly for a falsy fuel; the first character of a text, the first item of a list; indexing raises exactly for a truthy value that is neither |
| Schemas.ReferenceOf | flows/vehicle/schemas.py:84-106 | a reference that is not text gives neither month nor year; a text one is read as the reference month |
| Schemas.MonthNumber | flows/vehicle/schemas.py:92-96 | a Portuguese month name gives a month between 1 and 12 |
| Schemas.ReferenceMonth | flows/vehicle/schemas.py:84-106 | an empty reference, or one that does not split into exactly two pieces around " de ", gives neither month nor year; a month found is between 1 and 12 |
| Schemas.SplitAroundSpaces | flows/vehicle/schemas.py:98 | splitting on a separator that starts with a space gives back the two blank-free sides |
| Schemas.MonthTextSplits | flows/vehicle/schemas.py:98 | "<month> de <year>" lower-cased and split gives back the month and the year text |
| Schemas.MonthNamesPlain | flows/vehicle/schemas.py:92-96 | every month name is a non-empty lower-case word without blanks |
| Schemas.ReferenceMonthReadsBack | flows/vehicle/schemas.py:84-106 | "<month> de <year>" reads back as that month's number and that year |
| Schemas.TransformFipeRow | flows/vehicle/schemas.py:59-132 | building the row raises exactly when the model is present but not text or the fuel cannot be indexed; otherwise the row keeps the vehicle's brand, model, model year and key and the lookup's codes and flag, has vehicle type 1, keeps the fuel as given with an abbreviation exactly when it is truthy, keeps the price text (`R$ 0,00` only when the key is absent) and the reference text, reads the reference month from it, and title-cases the model |
| Schemas.TransformPlateRow | flows/vehicle/schemas.py:170-195 | the plate row keeps the plate, sanitises both years, and has a colour exactly when the provider's colour is truthy, upper-cased at the same length; a truthy colour that is not text has no row, as `.upper()` raises there |
| DetailsFlow.ReasonText | flows/vehicle/main_details.py:191-193 | a textual reason is stored as given, and a JSON null, and only that, is stored as NULL |
| DetailsFlow.RecordStatusDecides | flows/vehicle/main_details.py:189-196 | a found record that says `status: "invalid"` refuses the plate with its own reason (`UNKNOWN` when it has none, NULL when it is null), and one that says 429 leaves the plate for a retry |
| DetailsFlow.Keep | flows/vehicle/main_details.py:160-165 | filtering the batch never lengthens it |
| DetailsFlow.KeepMembers | flows/vehicle/main_details.py:160-165 | the plates kept are exactly the batch's plates that pass the check |
| DetailsFlow.Validates | flows/vehicle/client.py:324-338 | the client's check accepts exactly the plates that normalise |
| DetailsFlow.ValidPlates | flows/vehicle/main_details.py:160-186 | the plates the client is asked about are exactly the batch's plates that normalise |
| DetailsFlow.RowKeys | flows/vehicle/main_details.py:296-298 | the plates marked S are exactly the plates of the enriched rows |
| DetailsFlow.Fates | flows/vehicle/main_details.py:156-204 | a plate's fate under a fixed client is its fate in the batch loop |
| DetailsFlow.Add | flows/vehicle/main_details.py:189-201 | placing a plate puts it where its fate says and undoes no earlier placement |
| DetailsFlow.AddStep | flows/vehicle/main_details.py:156-204 | each step of the loop keeps every bucket entry justified by a fate and places the plates seen so far |
| DetailsFlow.KeepStep | flows/vehicle/main_details.py:160-165 | the filtered prefix grows by the next plate exactly when it passes the check |
| DetailsFlow.FatesFaithful | flows/vehicle/schemas.py:187-188 | every row a fate makes names the plate it was made for |
| DetailsFlow.FateRowIsOwn | flows/vehicle/schemas.py:187-188 | a plate's enriched row carries that plate |
| DetailsFlow.Partition | flows/vehicle/main_details.py:145-213 | the batch loop fails exactly when some plate's row cannot be built; otherwise every plate lands where its fate says, every bucket entry is justified, and the plates queried are the valid ones in order |
| DetailsFlow.KeepIn | flows/vehicle/main_details.py:160-165 | every plate queried so far is a valid plate of the batch |
| DetailsFlow.ProcessPlates | flows/vehicle/main_details.py:145-213 | `process_plates` fails exactly when a transform raises; otherwise every plate is placed by its fate and only normalisable plates reach the client, in order |
| DetailsFlow.ExactlyOneBucket | flows/vehicle/main_details.py:149-211 | every plate of a processed batch is in exactly one of rows, invalid and failed, and an invalid plate carries the reason of its fate |
| DetailsFlow.InvalidFormatNotQueried | flows/vehicle/main_details.py:160-165 | a plate that does not normalise is never sent to the client and is invalid with `INVALID_PLATE_FORMAT` |
| DetailsFlow.WriteOutcomes | flows/vehicle/main_details.py:293-306 | the outcome writes keep every row of the plate table |
| DetailsFlow.OutcomeOfRow | flows/vehicle/main_details.py:293-306 | after the outcome writes a processed plate is S for a row, I with its reason for a refusal, E for a failure, with its attempts and collection time unchanged |
| DetailsFlow.OutcomesKeepOthers | flows/vehicle/main_details.py:293-306 | plates outside the batch are untouched by the outcome writes |
| DetailsFlow.ClaimThenOutcomes | flows/vehicle/main_details.py:284-306 | after the claim and the outcome writes every selected plate has one more attempt, the run's collection time and the status of its fate; other plates are untouched |
| DetailsFlow.AppendedRows | flows/vehicle/main_details.py:293-296 | every appended detail row belongs to a selected plate and is the row its fate made |
| DetailsFlow.ClaimedRows | flows/vehicle/main_details.py:284-285 | the claim puts every selected plate in P with one more attempt and the collection time and leaves other plates alone |
| DetailsFlow.RunDetails | flows/vehicle/main_details.py:256-353 | with nothing pending nothing changes; the selected plates are distinct and pending and each gets one more attempt and the collection time; only they change; a rollback leaves them in P and the details table as it was; a commit records each plate's fate and appends only rows that selected plates' fates made |
| DetailsFlow.Reasons | flows/vehicle/vehicle_details_api_to_snowflake.py:393-395 | the stored reasons are those of the invalid plates, as text |
| DetailsFlow.LegacyOutcomes | flows/vehicle/vehicle_details_api_to_snowflake.py:725-743 | the legacy outcome statements keep every row of the plate table |
| DetailsFlow.LegacyOutcomeOfRow | flows/vehicle/vehicle_details_api_to_snowflake.py:725-743 | a claimed plate in one bucket ends S, I with its reason as text, or E, as its bucket says |
| DetailsFlow.RunLegacyDetails | flows/vehicle/vehicle_details_api_to_snowflake.py:581-748 | with nothing pending nothing changes; each selected plate could legally be claimed and lands in exactly one bucket; plates not selected are untouched; the insert raises exactly when it fails on a batch with rows, and then the details table is unchanged and every selected plate stays P; otherwise each selected plate ends in its bucket's status, an invalid one with its reason as text, and the details table gains exactly the batch's rows |
| DetailsFlow.LegacyOutcomesKeepOthers | flows/vehicle/vehicle_details_api_to_snowflake.py:725-743 | a plate in no bucket is untouched by the legacy outcome statements |
| DetailsFlow.LegacyDurationParts | flows/vehicle/vehicle_details_api_to_snowflake.py:756 | the legacy closing log splits the elapsed time into "minutes" and a remainder below 70 |
| DetailsFlow.LegacyDurationMisreads | flows/vehicle/vehicle_details_api_to_snowflake.py:756 | 120 seconds are logged as 1 minute 50 seconds, which does not add back to 120 |
| DetailsFlow.DurationParts | flows/vehicle/main_details.py:316 | minutes and seconds below 60 that add back to the elapsed seconds |
| Ingestion.AggregatePlates | flows/vehicle/main_plate_raw.py:102-131 | the loaded plates are exactly the union of the four sources, ascending and without repeats, each paired with a fresh row: status N, no reason, no attempts, no collection time, inserted now |
| Ingestion.SortedIsDistinct | flows/vehicle/main_plate_raw.py:123 | an ascending plate list has no plate twice |
| Ingestion.Unseen | flows/vehicle/main_plate_raw.py:199 | the keys kept for insertion are exactly those of the input the table lacks |
| Ingestion.UnseenKeepsDistinct | flows/vehicle/main_consolidation.py:162-164 | filtering out the present keys keeps a repeat-free list repeat-free |
| Ingestion.Load | flows/vehicle/main_plate_raw.py:239-247 | inserting keys adds exactly their rows, each fresh, and leaves every other row alone |
| Ingestion.InsertNew | flows/vehicle/main_consolidation.py:154-205 | an insert that succeeds adds a fresh row for each key the table lacked, keeps every existing row, and reports how many it added, which is 0 exactly when every key was present; it fails exactly when two keys to insert are equal |
| Ingestion.PlateLoadSucceeds | flows/vehicle/main_plate_raw.py:191-249 | loading the aggregated plates never violates the primary key and reports the number of plates the table lacked |
| Ingestion.UnseenOfPresent | flows/vehicle/main_plate_raw.py:199-203 | when every key is present nothing is left to insert |
| Ingestion.LoadIsIdempotent | flows/vehicle/main_consolidation.py:158-168 | running a load a second time with the same keys changes nothing and reports 0 |
| Ingestion.Clean | flows/vehicle/main_consolidation.py:96-97 | a cleaned name has no lower-case letter, is no longer than the original, and neither starts nor ends with a blank |
| Ingestion.YieldsCons | flows/vehicle/main_consolidation.py:94-107 | the keys a list of detail rows yields are those its head yields and those its tail yields |
| Ingestion.Extract | flows/vehicle/main_consolidation.py:94-107 | the extraction lists no key twice and every key in it has non-empty, upper-case, trimmed names |
| Ingestion.KeyWellFormed | flows/vehicle/main_consolidation.py:96-106 | a detail row passing the filter yields a well-formed key |
| Ingestion.ExtractYields | flows/vehicle/main_consolidation.py:94-107 | a key is extracted exactly when some detail row with every column present and non-blank names yields it |
| Ingestion.Consolidate | flows/vehicle/main_consolidation.py:221-263 | the consolidated table gains exactly the extracted keys it lacked, each fresh and well formed, keeps its old rows, and reports how many it added, which is 0 exactly when every yielded key was already there |
| Fipe.PyStr | flows/vehicle/client.py:52 | Python's `str()` keeps a text as it is, gives a number's decimal text, which reads back as that number, and gives `None` for null |
| Fipe.ReferenceTable | flows/vehicle/client.py:43-57 | the table code is the default `327` unless the catalogue answered with a non-empty list whose first table has a `Codigo`, and then it is `str()` of that value, whatever its type |
| Fipe.LegacyReferenceTableAgrees | flows/vehicle/vehicle_fipe_to_snowflake.py:86-118 | the legacy lookup agrees with the client's when the first table has `Mes`, falls back to the default when it lacks `Mes`, and both give the default when there is no first table |
| Fipe.ReferenceTableIsNumber | flows/vehicle/vehicle_fipe_to_snowflake.py:86-118 | when the first table's `Codigo` is a number, or missing, or the catalogue gives no table, both lookups give numeric text |
| Fipe.DefaultTableIsNumber | flows/vehicle/vehicle_fipe_to_snowflake.py:86-118 | the default table code reads as the number 327 |
| Fipe.ReferenceTableKeepsText | flows/vehicle/client.py:52 | a null `Codigo` becomes the text `None`, which is no number, and a text `Codigo` is kept as it is |
| Fipe.Listing | flows/vehicle/client.py:59-88 | a listing is missing only when the call raises; a non-empty listing is the body of a 200 |
| Fipe.PriceBody | flows/vehicle/client.py:90-117 | a price body comes back exactly when the call answered with something other than the `codigo` 2 refusal, and then unchanged |
| Fipe.BrandCode | flows/vehicle/main_fipe.py:110-114 | a brand is mapped exactly when it is a key of the table with a non-empty code, and then to that code |
| Fipe.LegacyParts | flows/vehicle/vehicle_fipe_to_snowflake.py:38-67 | the legacy table is its six consecutive parts merged in order, each later part overriding the earlier ones on a shared key, as later entries of a dict literal do |
| Fipe.LegacyRoverPart | flows/vehicle/vehicle_fipe_to_snowflake.py:64 | the later part of the legacy table maps ROVER to 49 |
| Fipe.LegacyLastPart | flows/vehicle/vehicle_fipe_to_snowflake.py:64-80 | no part after it mentions ROVER or LAND ROVER |
| Fipe.LegacyLandRoverPart | flows/vehicle/vehicle_fipe_to_snowflake.py:57 | the earlier part maps LAND ROVER to 33 |
| Fipe.ModernLacksRover | flows/vehicle/client.py:31-38 | the modern table has neither ROVER nor LAND ROVER |
| Fipe.RoverResolvesToLaterCode | flows/vehicle/vehicle_fipe_to_snowflake.py:57-64 | the legacy table's duplicated ROVER key resolves to its later code 49, LAND ROVER to 33, and the modern table maps neither |
| Fipe.ModernAliasesShareCodes | flows/vehicle/client.py:31-38 | GM and CHEVROLET, CITROËN and CITROEN, VW and VOLKSWAGEN, CAOA CHERY and CHERY share their codes |
| Fipe.Filter | flows/vehicle/main_fipe.py:127 | the filtered list is no longer than the input and holds exactly the input's entries that pass |
| Fipe.FilterLast | flows/vehicle/main_fipe.py:137 | the last entry a filter keeps is an input entry that passes with nothing after it passing |
| Fipe.FilterLastHead | flows/vehicle/main_fipe.py:137 | when only the first entry passes, it is the last one kept |
| Fipe.ShiftLastKept | flows/vehicle/main_fipe.py:137 | the last passing entry of a tail is the last passing entry of the whole list |
| Fipe.FilterKeepsAll | flows/vehicle/main_fipe.py:127 | a filter every entry passes keeps the list whole |
| Fipe.AllOf | flows/vehicle/main_fipe.py:127 | the every-keyword test accepts exactly the models mentioning all keywords |
| Fipe.OneOf | flows/vehicle/main_fipe.py:131 | the one-keyword test accepts exactly the models mentioning that keyword |
| Fipe.Keywords | flows/vehicle/main_fipe.py:126 | the model keywords are non-empty words |
| Fipe.Candidates | flows/vehicle/main_fipe.py:125-135 | the candidates are catalogue models; they are the every-keyword matches whenever one exists; there are none exactly when no model mentions the first keyword (or, with no keywords, when the catalogue is empty) |
| Fipe.Progressive | flows/vehicle/vehicle_fipe_to_snowflake.py:486-496 | the fallback is empty exactly when no model mentions any keyword, and otherwise is the models mentioning the first keyword that some model mentions |
| Fipe.LegacyCandidates | flows/vehicle/vehicle_fipe_to_snowflake.py:476-500 | the legacy candidates are the every-keyword matches whenever one exists, and empty exactly when no model mentions any keyword |
| Fipe.CandidatesAgreeOnFirstKeyword | flows/vehicle/vehicle_fipe_to_snowflake.py:476-500 | the two generations pick the same candidates whenever some model mentions the first keyword, and the legacy one finds candidates whenever the modern one does |
| Fipe.PrimaryIsLastAccepted | flows/vehicle/main_fipe.py:137 | the primary model is the last catalogue model matching every keyword |
| Fipe.AcceptsFirstKeyword | flows/vehicle/vehicle_fipe_to_snowflake.py:384-387 | the variant search's acceptance test comes down to mentioning the first keyword |
| Fipe.Accepted | flows/vehicle/vehicle_fipe_to_snowflake.py:384-387 | the acceptance filter applies the acceptance test to each model's name |
| Fipe.Before | flows/vehicle/main_fipe.py:150 | the text before the first separator is a prefix free of it, followed in the text by the separator when shorter, and the whole text when there is none |
| Fipe.After | flows/vehicle/main_fipe.py:183 | the text splits into the part before the first separator, the separator, and the rest |
| Fipe.BeforeSeparator | flows/vehicle/main_fipe.py:182 | the part before the first separator of `a + sep + b` is `a` when `a` lacks it |
| Fipe.YearToken | flows/vehicle/main_fipe.py:150 | an entry's year is its code before the first '-' when the code has one, else the label's first word; there is none (the source raises) exactly when the code lacks '-' and the label is blank |
| Fipe.YearFuel | flows/vehicle/main_fipe.py:181-186 | a code without '-' is the year with fuel "1"; otherwise the year part has no '-' |
| Fipe.YearFuelRoundTrip | flows/vehicle/main_fipe.py:181-186 | splitting `year-fuel` gives back the year and the fuel |
| Fipe.TokenIsPricedYear | flows/vehicle/vehicle_fipe_to_snowflake.py:632-634 | for a hyphenated code, the year that matched the vehicle is the year priced |
| Fipe.ScanFirst | flows/vehicle/vehicle_fipe_to_snowflake.py:589-599 | the stopping scan finds an entry for the year with every earlier entry a different year, misses only when every entry is a different year, and raises only at a tokenless entry |
| Fipe.ScanAll | flows/vehicle/main_fipe.py:149-152 | the full scan raises exactly when some entry has no token, and a hit is an entry for the year |
| Fipe.ScansAgree | flows/vehicle/vehicle_fipe_to_snowflake.py:538-546 | the full scan and the stopping scan agree unless some entry lacks a token, and the stopping scan raises only when the full one does |
| Fipe.Labels | flows/vehicle/main_fipe.py:157 | the labels of the year entries, in order |
| Fipe.Variants | flows/vehicle/main_fipe.py:155-168 | the modern variant loop matches a candidate that lists the year, with an entry for the year, and finds no match only when no candidate lists it |
| Fipe.LegacyVariants | flows/vehicle/vehicle_fipe_to_snowflake.py:561-611 | the legacy variant loop never raises, and matches the first candidate that lists the year, finding none exactly when no candidate does |
| Fipe.VariantLoopsAgree | flows/vehicle/vehicle_fipe_to_snowflake.py:561-611 | where the modern loop does not raise, both loops pick the same model and year entry |
| Fipe.SearchFrom | flows/vehicle/vehicle_fipe_to_snowflake.py:379-427 | the variant search never raises, and a match is an accepted model that lists the year, with an entry for the year |
| Fipe.SearchModelByYear | flows/vehicle/vehicle_fipe_to_snowflake.py:358-427 | `search_model_by_year` returns a catalogue model that lists the vehicle's year and mentions the first keyword, or nothing |
| Fipe.SearchIsVariantsOverAccepted | flows/vehicle/vehicle_fipe_to_snowflake.py:379-427 | the variant search is the legacy variant loop over the accepted models |
| Fipe.RefusalsDiffer | flows/vehicle/main_fipe.py:114 | a brand refusal and a model refusal never share their text |
| Fipe.Price | flows/vehicle/main_fipe.py:181-196 | the price call never refuses permanently; a priced answer keeps the metadata, is not the refusal body (nor empty where emptiness counts as nothing), and is what the catalogue gives for the code's year and fuel |
| Fipe.QueryFipe | flows/vehicle/main_fipe.py:106-200 | an unmapped upper-cased brand is refused and nothing else is refused for the brand; refusals are brand or model refusals; a price is non-empty, not the refusal body, for the brand's code, with original model and available years exactly on an alternative search, and for a year entry of the vehicle's model year |
| Fipe.LegacyQueryFipeValue | flows/vehicle/vehicle_fipe_to_snowflake.py:430-679 | as above for the legacy query with the exact brand and the legacy refusal texts |
| Fipe.LegacyPriceOfYear | flows/vehicle/vehicle_fipe_to_snowflake.py:503-675 | once candidates exist, the legacy query never refuses; a price is for the brand's code, records an alternative search exactly when it has an original model and available years, and is for a year entry of the vehicle's year |
| FipeFlow.KeyColumns | flows/vehicle/main_fipe.py:84-86 | reading a vehicle key back succeeds only when it splits on '\|' into exactly three pieces whose last is an integer, which becomes the model year |
| FipeFlow.OccursAtBar | flows/vehicle/main_fipe.py:85 | the one-character separator occurs exactly at the positions holding '\|' |
| FipeFlow.SplitAtBar | flows/vehicle/main_fipe.py:85 | a piece free of '\|' splits off at the first separator |
| FipeFlow.BarSplitsFour | flows/vehicle/main_fipe.py:84-86 | a key built from a brand that holds the separator splits into four parts, one more than the unpacking expects |
| FipeFlow.NoBarOnePiece | flows/vehicle/main_fipe.py:85 | a text free of '\|' is a single piece |
| FipeFlow.IntTextLacksBar | flows/vehicle/main_fipe.py:50 | the decimal text of a year holds no '\|' |
| FipeFlow.KeyColumnsRoundTrip | flows/vehicle/main_fipe.py:50-86 | a key built from brand, model and model year reads back as those three columns whenever neither brand nor model holds '\|' |
| FipeFlow.BarInBrandBreaksKey | flows/vehicle/main_fipe.py:84-86 | the key of brand `A\|B` splits into four pieces, so the status statement for it cannot be built |
| FipeFlow.BarBreaksKey | flows/vehicle/main_fipe.py:84-86 | for any brand `a\|b` and model free of `\|` the key cannot be read back into three columns |
| FipeFlow.FateOf | flows/vehicle/main_fipe.py:212-224 | a priced vehicle's row carries its key, brand, model and model year; a refusal by the query keeps the query's reason; a vehicle fails exactly when the query gives nothing, and its row cannot be built exactly when the price body is accepted but the row builder raises |
| FipeFlow.FateIgnoresYearManuf | flows/vehicle/main_fipe.py:106-200 | pricing depends on brand, model and model year only, not on the year of manufacture |
| FipeFlow.Fates | flows/vehicle/main_fipe.py:212-224 | the fate of a set of columns is the fate of its representative vehicle |
| FipeFlow.LegacyFateOf | flows/vehicle/vehicle_fipe_to_snowflake.py:693-743 | a legacy price carries the vehicle's key and is not the refusal body; a vehicle fails exactly when the legacy query gives nothing |
| FipeFlow.LegacyFateOfAnswer | flows/vehicle/vehicle_fipe_to_snowflake.py:699-743 | a kept price carries the key and the query's body, whose row builds; the vehicle fails exactly when the query gave nothing, and crashes the batch exactly when an accepted body makes the row builder raise |
| FipeFlow.LegacyRaisesMore | flows/vehicle/vehicle_fipe_to_snowflake.py:711-727 | the legacy row builder raises wherever the current one does, and also on a body with no `Modelo`, which the current builder reads as empty text |
| FipeFlow.PriceValue | flows/vehicle/vehicle_fipe_to_snowflake.py:711-727 | the price value read from a body holds exactly its `Modelo`, `Combustivel`, `Valor` and `MesReferencia`, absent where the body lacks the key |
| FipeFlow.LegacyFateIgnoresYearManuf | flows/vehicle/vehicle_fipe_to_snowflake.py:430-679 | the legacy price depends on brand, model and model year only |
| FipeFlow.LegacyFates | flows/vehicle/vehicle_fipe_to_snowflake.py:693-743 | the legacy fate of a set of columns is that of its representative vehicle |
| FipeFlow.UnmappedBrandIsRefused | flows/vehicle/vehicle_fipe_to_snowflake.py:435-438 | a brand neither table maps is refused by both flows with their brand-refusal texts |
| FipeFlow.Add | flows/vehicle/main_fipe.py:212-224 | placing a vehicle puts it where its fate says, undoes no earlier placement, and adds a row exactly for a price |
| FipeFlow.AddStep | flows/vehicle/main_fipe.py:212-224 | each step of the loop keeps every entry justified by a fate and places the vehicles seen so far |
| FipeFlow.Partition | flows/vehicle/main_fipe.py:202-232 | the batch loop fails exactly when some vehicle's row cannot be built; otherwise it places every vehicle where its fate says, justifies every entry, and makes at most one row per vehicle |
| FipeFlow.CrashesOfSelected | flows/vehicle/main_fipe.py:212-224 | some selected vehicle's columns crash the batch exactly when some selected vehicle's own fate does |
| FipeFlow.ExactlyOneBucket | flows/vehicle/vehicle_fipe_to_snowflake.py:683-764 | every vehicle of a processed batch is in exactly one of priced, invalid and failed |
| FipeFlow.MainOutcomes | flows/vehicle/main_fipe.py:316-329 | the outcome statements keep every row of the vehicle table |
| FipeFlow.MainOutcomeOfRow | flows/vehicle/main_fipe.py:316-329 | a row whose columns were in the batch ends in its fate's status, and nothing but its status changes (the `I` statement stores no reason) |
| FipeFlow.MainOutcomesKeepOthers | flows/vehicle/main_fipe.py:316-329 | rows whose columns were not in the batch are untouched |
| FipeFlow.ClaimThenOutcomes | flows/vehicle/main_fipe.py:307-329 | after the claim and the outcome statements every row sharing columns with the batch has its fate's status and otherwise its old values; other rows are untouched |
| FipeFlow.AppendedPrices | flows/vehicle/main_fipe.py:316-321 | every appended price row belongs to a batch vehicle's columns and is the row its fate made |
| FipeFlow.FatesOwnColumns | flows/vehicle/main_fipe.py:212-224 | every row the query makes for a set of columns carries exactly those columns' brand, model and model year |
| FipeFlow.AppendedRows | flows/vehicle/main_fipe.py:316-321 | for any fate whose rows own their columns, every row a batch appends belongs to a batch column and is the row that column's fate made |
| FipeFlow.RunMain | flows/vehicle/main_fipe.py:299-350 | the run for any fate whose rows own their columns: nothing pending changes nothing; it rolls back exactly when the write fails or some vehicle's row cannot be built; a rollback leaves the claimed rows P and the prices untouched; a commit records each column's fate and appends only rows that fate made |
| FipeFlow.RunFipe | flows/vehicle/main_fipe.py:284-350 | with nothing pending nothing changes; selected vehicles are distinct and pending; only statuses of rows sharing columns with the batch change; it rolls back exactly when the write fails or a selected vehicle's price row cannot be built, leaving them P and the price table as it was; a commit records each fate and appends exactly the inserted rows, each made by its vehicle's fate |
| FipeFlow.ClaimReopensSiblingRow | flows/vehicle/main_fipe.py:77-89 | claiming one vehicle moves a finished row that shares brand, model and model year back to P |
| FipeFlow.KeySplitsIff | flows/vehicle/vehicle_fipe_to_snowflake.py:921 | the legacy split of a vehicle key gives three parts exactly when neither brand nor model holds `\|`, and then they are the vehicle's own brand, model and model-year text |
| FipeFlow.SplitJoin | flows/vehicle/vehicle_fipe_to_snowflake.py:921 | splitting two texts joined by `\|` gives the pieces of the first followed by those of the second |
| FipeFlow.BarIndex | flows/vehicle/vehicle_fipe_to_snowflake.py:921 | the position found is that of the first `\|` of the text, or its end when it has none |
| FipeFlow.OnePieceIff | flows/vehicle/vehicle_fipe_to_snowflake.py:921 | a text splits into one piece exactly when it holds no `\|` |
| FipeFlow.FirstBad | flows/vehicle/vehicle_fipe_to_snowflake.py:919-921 | every key before the index splits into three parts, and the key at the index, if any, does not |
| FipeFlow.SuccessStatements | flows/vehicle/vehicle_fipe_to_snowflake.py:919-931 | the S loop keeps every row of the vehicle table; `FipeFlow.SuccessPrefix` states its effect |
| FipeFlow.SuccessPrefix | flows/vehicle/vehicle_fipe_to_snowflake.py:919-931 | the S loop moves to S the P rows of exactly the priced keys before the first key that does not split, and raises at that key; when every key splits it moves them all |
| FipeFlow.InsertionOrder | flows/vehicle/vehicle_fipe_to_snowflake.py:693-703 | the invalidation loop visits each refused vehicle of the batch once, and no other, in the order the dict first stored it |
| FipeFlow.InvalidStatements | flows/vehicle/vehicle_fipe_to_snowflake.py:326-340 | the invalidation loop keeps every row of the vehicle table; `FipeFlow.InvalidPrefix` states its effect |
| FipeFlow.InvalidPrefix | flows/vehicle/vehicle_fipe_to_snowflake.py:326-340 | the invalidation loop marks I, each with its own reason, the P rows of exactly the refused keys before the first key that does not split, and raises at that key |
| FipeFlow.LegacyOutcomes | flows/vehicle/vehicle_fipe_to_snowflake.py:912-944 | the legacy outcome statements as written keep every row of the vehicle table; the lemmas below state what they do to each row |
| FipeFlow.ColumnOutcomes | flows/vehicle/vehicle_fipe_to_snowflake.py:912-944 | the outcome statements as evidently intended, each matching the vehicle's own columns, keep every row of the vehicle table |
| FipeFlow.OutcomesWhenSuccessRaises | flows/vehicle/vehicle_fipe_to_snowflake.py:912-944 | when a priced key does not split, only the S statements of the priced keys before it take effect, and no I or E statement runs |
| FipeFlow.OutcomesWhenRefusalRaises | flows/vehicle/vehicle_fipe_to_snowflake.py:912-944 | when every priced key splits but a refused key does not, every S statement takes effect, then the I statements of the refused keys visited before it, and no E statement runs |
| FipeFlow.OutcomesWhenAllRan | flows/vehicle/vehicle_fipe_to_snowflake.py:912-944 | when every priced and refused key splits, every S, I and E statement takes effect |
| FipeFlow.LegacyOutcomesWhenKeysSplit | flows/vehicle/vehicle_fipe_to_snowflake.py:912-944 | when every priced and refused key splits, the statements as written all run and leave exactly what the column outcomes leave |
| FipeFlow.PricedHasRows | flows/vehicle/vehicle_fipe_to_snowflake.py:906-908 | the batch has rows to insert exactly when some vehicle is priced |
| FipeFlow.StopOfBatch | flows/vehicle/vehicle_fipe_to_snowflake.py:912-944 | the S loop can raise only at a priced vehicle and the invalidation loop only at a refused one; one of them raises exactly when some priced or refused vehicle's key does not split |
| FipeFlow.LegacyStop | flows/vehicle/vehicle_fipe_to_snowflake.py:912-944 | the outcome statements as written raise exactly when some priced or refused vehicle's key does not split, and then at such a vehicle of the batch |
| FipeFlow.ColumnOutcomeOfRow | flows/vehicle/vehicle_fipe_to_snowflake.py:912-944 | under the column outcomes a claimed row of the batch ends in its fate's status, with the refusal's reason for I |
| FipeFlow.RowAfterSuccesses | flows/vehicle/vehicle_fipe_to_snowflake.py:919-931 | after the S statements of the first priced keys, a P row is S exactly when its columns are among them, and otherwise unchanged |
| FipeFlow.RowAfterRefusals | flows/vehicle/vehicle_fipe_to_snowflake.py:326-340 | after the I statements of some refused keys, a P row of those keys is I with its own refusal's reason, and any other row is unchanged |
| FipeFlow.RowWhenSuccessRaises | flows/vehicle/vehicle_fipe_to_snowflake.py:919-931 | when the S loop raised, a claimed row of the batch is unchanged or S; the raising vehicle's row, failed vehicles' rows and refused vehicles' rows stay P |
| FipeFlow.RowWhenRefusalRaises | flows/vehicle/vehicle_fipe_to_snowflake.py:326-340 | when the invalidation loop raised, priced vehicles' rows are S, the raising vehicle's row and failed vehicles' rows stay P, and other refused rows are I with their reason or still P |
| FipeFlow.RowWhenAllRan | flows/vehicle/vehicle_fipe_to_snowflake.py:912-944 | when every statement ran, a claimed row of the batch is in its fate's status, with the refusal's reason for I |
| FipeFlow.LegacyOutcomeOfRow | flows/vehicle/vehicle_fipe_to_snowflake.py:912-944 | a claimed row of the batch after the statements as written is unchanged or records its fate; it records its fate when every statement ran; it stays P when its own key raised or it failed; it is S when a refused key raised and it was priced; it stays P when a priced key raised and it was refused |
| FipeFlow.LegacyOutcomesFrame | flows/vehicle/vehicle_fipe_to_snowflake.py:919-940 | the statements as written touch only P rows whose columns are in the batch |
| FipeFlow.GuardsSpareFinished | flows/vehicle/vehicle_fipe_to_snowflake.py:221-225 | the guarded claim and outcome statements as written never touch a finished row |
| FipeFlow.ClaimOnly | flows/vehicle/vehicle_fipe_to_snowflake.py:221-225 | the legacy claim keeps every row, touches no finished row and no row outside the batch, and moves every pending batch row to P |
| FipeFlow.LegacyClaimThenOutcomes | flows/vehicle/vehicle_fipe_to_snowflake.py:895-944 | after the legacy claim and the outcome statements as evidently intended, finished rows and rows outside the batch are untouched and every other row of the batch ends in its fate's status, with its reason when refused |
| FipeFlow.BarKeyStaysClaimed | flows/vehicle/vehicle_fipe_to_snowflake.py:919-931 | as written, a priced vehicle whose brand is `A\|B` makes its own S statement raise, so its row stays P after its price row was inserted |
| FipeFlow.FateBucket | flows/vehicle/vehicle_fipe_to_snowflake.py:683-764 | a vehicle of a processed batch is priced, refused or failed exactly when its fate is a price, a refusal or a failure |
| FipeFlow.RunLegacy | flows/vehicle/vehicle_fipe_to_snowflake.py:888-944 | the legacy run for any fate: finished rows and rows outside the batch are never touched; a row raises exactly when some vehicle crashes, otherwise the insert raises exactly when it fails with some vehicle priced, and in both cases the prices stay as they were and the claimed rows stay P; otherwise a key raises exactly when some priced or refused vehicle's key does not split, after the prices were inserted, and each claimed row is as `FipeFlow.LegacyOutcomeOfRow` says; the prices gained are exactly those the fates made |
| FipeFlow.RunLegacyFipe | flows/vehicle/vehicle_fipe_to_snowflake.py:835-944 | the legacy flow with each vehicle's own legacy fate: nothing pending changes nothing; finished rows are never touched; it ends as `FipeFlow.LegacyEndMeans` says (row raised, insert raised, key raised or done); the claimed rows stay P when a row or the insert raised; when a key raised its own vehicle's rows and failed ones stay P; otherwise every pending row of the batch ends in its fate's status with its reason; the price table gains exactly the batch's prices |
| FipeFlow.LegacyEndOfSelected | flows/vehicle/vehicle_fipe_to_snowflake.py:888-944 | the end of a legacy run read through each selected vehicle's own fate: a row raised exactly when one crashes; otherwise the insert raised exactly when it failed with one priced; otherwise a key raised exactly when a priced or refused one's key does not split |
| FipeFlow.LegacyRowsOfSelected | flows/vehicle/vehicle_fipe_to_snowflake.py:693-743 | what a run leaves in each row by its columns' fate holds by the vehicle's own legacy fate |
| FipeFlow.OutcomesOfSelected | flows/vehicle/vehicle_fipe_to_snowflake.py:693-743 | some selected vehicle is priced, or priced or refused with a key that does not split, by its columns' fate exactly when by its own |
| BeSistemas.Basename | flows/besistemas/besistemas_to_snowflake.py:41 | the base name is a '/'-free ending of the key, preceded by a '/' whenever it is not the whole key |
| BeSistemas.BasenameOfPath | flows/besistemas/besistemas_to_snowflake.py:53 | the base name of a directory, '/', and a '/'-free name is that name |
| BeSistemas.DatedPrefix | flows/besistemas/besistemas_to_snowflake.py:42 | the lazy match finds the shortest newline-free prefix, of at least the given length, followed by `_YYYY_MM_DD`, and finds nothing exactly when no such prefix exists |
| BeSistemas.FirstTwoFields | flows/besistemas/besistemas_to_snowflake.py:45-47 | the first two `_`-separated fields joined by `_` begin the name |
| BeSistemas.UndatedCategory | flows/besistemas/besistemas_to_snowflake.py:45-48 | without a date the category is "outros" exactly when the name without `.csv` has no `_`, and otherwise a prefix of that name holding a `_` |
| BeSistemas.Category | flows/besistemas/besistemas_to_snowflake.py:39-48 | when the base name holds a dated prefix the category is the shortest non-empty text before `_YYYY_MM_DD`; otherwise it is the undated category |
| BeSistemas.StampRoundTrip | flows/besistemas/besistemas_to_snowflake.py:58 | the digits of a stamp whose fields fit their widths, written as `%Y_%m_%d_%H_%M_%S`, read back as the same fields; whether `strptime` then accepts them is the calendar check of `BeSistemas.ParseBase` |
| BeSistemas.StampTextOfParse | flows/besistemas/besistemas_to_snowflake.py:33-34 | a text matching the stamp pattern is exactly the writing of the stamp read from it |
| BeSistemas.Name | flows/besistemas/besistemas_to_snowflake.py:31-36 | a file name is its category plus 40 characters of stamps and separators, plus 4 for `.csv` |
| BeSistemas.Reassemble | flows/besistemas/besistemas_to_snowflake.py:31-36 | a text of the pattern's shape is spelled out by the category and stamps read from it |
| BeSistemas.ParseBase | flows/besistemas/besistemas_to_snowflake.py:51-64 | reading a base name gives no metadata exactly when the pattern does not match, raises exactly when it matches but a stamp is not a real calendar date and time, and otherwise gives the match, both stamps valid |
| BeSistemas.MatchBase | flows/besistemas/besistemas_to_snowflake.py:53-56 | a match of the name pattern carries the base name and a valid category, and category, stamps and optional `.csv` spell the whole name up to a final newline |
| BeSistemas.StampLimits | flows/besistemas/besistemas_to_snowflake.py:58 | 2024-02-29 23:59:59 is a valid stamp; 2023-02-29, hour 24, second 60 and year 0 are not |
| BeSistemas.MetaAt | flows/besistemas/besistemas_to_snowflake.py:53-56 | the match read at a category length takes that prefix as category, keeps the name given and holds two stamps whose fields fit their widths (calendar validity is checked afterwards) |
| BeSistemas.NameShaped | flows/besistemas/besistemas_to_snowflake.py:31-36 | a file name holds its category first and its two stamps where the pattern looks for them |
| BeSistemas.NameEnd | flows/besistemas/besistemas_to_snowflake.py:36 | a file name ends in a digit or in `.csv`, never in a newline |
| BeSistemas.ParseShaped | flows/besistemas/besistemas_to_snowflake.py:31-56 | the name pattern matches a shaped text whose leading part is a valid category, with that category and its two stamps |
| BeSistemas.BaseRoundTrip | flows/besistemas/besistemas_to_snowflake.py:31-56 | the name pattern matches a file name built from a category and two stamps and gives back exactly them, valid dates or not |
| BeSistemas.NameLacksSlash | flows/besistemas/besistemas_to_snowflake.py:53 | a file name whose category has no '/' has none |
| BeSistemas.NameMetaRoundTrip | flows/besistemas/besistemas_to_snowflake.py:51-64 | a well-formed file name under any directory parses back into its category, stamps and base name when both stamps are real dates and times, and raises otherwise |
| BeSistemas.InCategory | flows/besistemas/besistemas_to_snowflake.py:81-83 | a category's list holds exactly the listed CSV keys of that category |
| BeSistemas.Group | flows/besistemas/besistemas_to_snowflake.py:74-89 | the grouping has an entry exactly for the categories with at least one listed key, each holding that category's keys in listing order |
| BeSistemas.ListByCategory | flows/besistemas/besistemas_to_snowflake.py:68-90 | the listing groups exactly the CSV keys that are not folder markers, under the category their name gives |
| BeSistemas.GroupPlacesEachKey | flows/besistemas/besistemas_to_snowflake.py:81-84 | every listed key is in its own category's list and in no other |
| BeSistemas.LoadOkRetry | flows/besistemas/besistemas_to_snowflake.py:283-309 | a key is ok when its row says success in any case, and marked for retry when its row has any other status or none; between them they cover every row |
| BeSistemas.ComputeTodo | flows/besistemas/besistemas_to_snowflake.py:330-335 | the keys to load are ascending without repeats, and are exactly the recent keys not loaded or marked for retry |
| BeSistemas.TodoSkipsOnlyLoaded | flows/besistemas/besistemas_to_snowflake.py:330-335 | a recent file is skipped exactly when it was loaded and is not marked for retry |
| BeSistemas.TableName | flows/besistemas/besistemas_to_snowflake.py:350 | a table name is `BRZ_BESISTEMAS_` followed by as many characters as the category, with no lower-case letter and no '-' |
| BeSistemas.ColumnName | flows/besistemas/besistemas_to_snowflake.py:171 | each character of a column name is upper-cased, and blanks, dashes and dots become '_' |
| BeSistemas.ColumnNameIsNormal | flows/besistemas/besistemas_to_snowflake.py:219 | a normalised column name has no lower-case letter, blank, dash or dot, and normalising it again changes nothing |
| BeSistemas.Chunks | flows/besistemas/besistemas_to_snowflake.py:375-378 | the keys fall into ceiling(n / size) chunks, each non-empty and at most `size` long, all but the last exactly `size` |
| BeSistemas.ChunksCover | flows/besistemas/besistemas_to_snowflake.py:375-378 | the chunks put back together are the keys in their order |
| BeSistemas.LoaderChunks | flows/besistemas/besistemas_to_snowflake.py:26 | the loader's chunks number ceiling(n / 50), each holding at most 50 keys |
| Salesforce.WordsFrom | flows/salesforce/salesforce_to_snowflake.py:66 | the first substitution never shortens the text it scans |
| Salesforce.CapsFrom | flows/salesforce/salesforce_to_snowflake.py:67 | after the second substitution no lower-case letter or digit is directly followed by a capital, and the first character is kept |
| Salesforce.SplitCaps | flows/salesforce/salesforce_to_snowflake.py:67 | the second substitution leaves no lower-case-or-digit, capital pair and never shortens the text |
| Salesforce.NormalizeColumnName | flows/salesforce/salesforce_to_snowflake.py:56-68 | a normalised name has no capital letter and is never shorter than the header |
| Salesforce.WordsFromOfNoUpper | flows/salesforce/salesforce_to_snowflake.py:66 | without capitals the first substitution finds no match |
| Salesforce.CapsFromOfNoUpper | flows/salesforce/salesforce_to_snowflake.py:67 | without capitals the second substitution finds no match |
| Salesforce.LowercaseIsFixed | flows/salesforce/salesforce_to_snowflake.py:56-68 | a header with no capital letter comes back unchanged |
| Salesforce.NormalizeIdempotent | flows/salesforce/salesforce_to_snowflake.py:56-68 | normalising a normalised name changes nothing |
| Salesforce.WordsFromInsertsUnderscores | flows/salesforce/salesforce_to_snowflake.py:66 | the first substitution only inserts underscores: removing every underscore from its output and from its input gives the same text |
| Salesforce.CapsFromInsertsUnderscores | flows/salesforce/salesforce_to_snowflake.py:67 | the second substitution only inserts underscores |
| Salesforce.OnlyUnderscoresAndCase | flows/salesforce/salesforce_to_snowflake.py:56-68 | apart from inserted underscores the normalisation only lower-cases: without underscores the result is the lower-cased header without underscores |
| Salesforce.NormalizeByPositions | flows/salesforce/salesforce_to_snowflake.py:66-68 | an output that the two substitutions and the lower-casing produce step by step from a header is that header's normalisation |
| Salesforce.SubscriberExample | flows/salesforce/salesforce_to_snowflake.py:61 | `SubscriberID` normalises to `subscriber_id` |
| Salesforce.DateExample | flows/salesforce/salesforce_to_snowflake.py:62 | `DateUndeliverable` normalises to `date_undeliverable` |
| Salesforce.EmailExample | flows/salesforce/salesforce_to_snowflake.py:63 | `EmailAddress` normalises to `email_address` |
| Salesforce.ColumnMapping | flows/salesforce/salesforce_to_snowflake.py:126-131 | the mapping holds each non-empty header once, in the order of first occurrence, and the normalised column list is the normalisation of each, position by position |
| Sftp.Describe | shared/connections/sftp.py:156-162 | a file's description keeps its name, time and size, with the full path the folder, '/', and the name |
| Sftp.CsvEntries | shared/connections/sftp.py:155-165 | the described files are exactly the entries whose name ends in `.csv` and does not start with '.', and there are none exactly when no entry qualifies |
| Sftp.WithTime | shared/connections/sftp.py:172 | the files of one modification time are exactly those of the list with that time |
| Sftp.Insert | shared/connections/sftp.py:172 | inserting a file adds exactly that file to the list |
| Sftp.SortNewestFirst | shared/connections/sftp.py:172 | the sort is a permutation of the files |
| Sftp.InsertKeepsOrder | shared/connections/sftp.py:172 | inserting into a newest-first list keeps it newest first |
| Sftp.InsertIsStable | shared/connections/sftp.py:172 | the inserted file goes ahead of every file of its own time and the order within every other time is kept |
| Sftp.SortIsOrdered | shared/connections/sftp.py:172 | the sorted list is newest first |
| Sftp.SortIsStable | shared/connections/sftp.py:172 | files of equal modification time keep their listing order through the sort |
| Sftp.ListCsvFiles | shared/connections/sftp.py:150-176 | the listing is the folder's CSV files, as a permutation, newest first, with files of equal time in listing order |
| Sftp.LatestFile | shared/connections/sftp.py:184-208 | there is no latest file exactly when the folder has no CSV file; otherwise it is one of them, no other is newer, and among the newest it is the first listed |
| Sftp.NumRecordsAsWritten | shared/connections/sftp.py:280-281 | the record count is one less than the number of lines, so -1 for a file without lines |
| Sftp.NumRecords | shared/connections/sftp.py:279-281 | the corrected count is the number of lines after the header, and 0 exactly when the file has at most one line |
| Sftp.RemapHeader | shared/connections/sftp.py:320-333 | a file without lines cannot be remapped; otherwise the header keeps its length, each cell becomes its mapped name or stays, and every data line is copied unchanged |
| Sftp.RemapUnmappedIsIdentity | shared/connections/sftp.py:325 | a mapping naming no header cell leaves the file as it was |
| Sftp.RemapIdempotent | shared/connections/sftp.py:325 | when no mapped name is itself mapped, remapping twice is remapping once |
| Sftp.StartAsWritten | flows/salesforce/salesforce_to_snowflake.py:94-124 | a stream stops with no data exactly when there is no latest file, reports an empty file exactly when the file has one line, and fails on the header exactly when it has no line at all |
| Sftp.EmptyFileSlipsThrough | flows/salesforce/salesforce_to_snowflake.py:108-124 | a file without lines counts -1 records, passes the empty-file test and fails when its header is read |
| Sftp.Start | flows/salesforce/salesforce_to_snowflake.py:94-124 | with the corrected count every file without a data record is reported empty, the header is never unreadable, and a stream proceeds only with at least one data line, using the first line as header |
| Sftp.StartAgreesOffEmpty | flows/salesforce/salesforce_to_snowflake.py:108 | the as-written and corrected decisions differ exactly on a file with no line at all |
| Deconve.FirstMatch | flows/deconve/deconve_camera_to_snowflake.py:64-66 | the chosen entry is the first, in mapping order, whose fragment occurs in the name, and there is none exactly when no fragment occurs |
| Deconve.ShoppingOf | flows/deconve/deconve_camera_to_snowflake.py:47-68 | a missing or empty name maps to nothing; a mapped name maps to the centre of the first fragment occurring in its lower-cased form; an unmapped name contains no fragment |
| Deconve.ShoppingIsConsistent | flows/deconve/deconve_camera_to_snowflake.py:35-44 | every centre found has an id from 1 to 6 and the sigla belonging to that id |
| Deconve.ShoppingIgnoresCase | flows/deconve/deconve_camera_to_snowflake.py:61 | a name and its lower-case form map to the same centre |
| Deconve.AliasesAgree | flows/deconve/deconve_camera_to_snowflake.py:37-43 | the accented and plain spellings of Balneário and Nações are different fragments for the same centre |
| Deconve.PlainBalnearioIsBS | flows/deconve/deconve_camera_to_snowflake.py:36-38 | a name holding `balneario` in any case and no `neumarkt` maps to centre 2, `BS` |
| Deconve.ShoppingCells | flows/deconve/deconve_camera_to_snowflake.py:165-166 | the id cell is empty exactly for an unmapped unit and otherwise the id's decimal digits; the sigla cell is empty exactly when there is no sigla |
| Deconve.TruthyIds | flows/deconve/deconve_person_flow_to_snowflake.py:90-93 | the ids kept for a unit are exactly its non-empty video ids |
| Deconve.AllCameras | flows/deconve/deconve_person_flow_to_snowflake.py:63-103 | the camera list holds exactly the non-empty video ids of the units whose details could be fetched |
| Deconve.AllCamerasAppend | flows/deconve/deconve_person_flow_to_snowflake.py:81-99 | the cameras of two runs of units are those of each, in order |
| Deconve.FailingUnitIsSkipped | flows/deconve/deconve_person_flow_to_snowflake.py:97-99 | a unit whose details fail contributes nothing, wherever it stands |
| Deconve.UnitCameraRows | flows/deconve/deconve_camera_to_snowflake.py:132-171 | a unit writes one row per video, with the video's id, the unit and its name, the camera name or '' when it cannot be fetched, and the shopping cells of the unit's name |
| Deconve.Paginate | flows/deconve/deconve_person_flow_to_snowflake.py:107-167 | pages are fetched `limit` apart from skip 0 until one raises, says there is no more or is empty; every earlier page continued, and the result is the items of all pages fetched, in order |
| Deconve.RaisedKeepsEarlier | flows/deconve/deconve_person_flow_to_snowflake.py:163-165 | a page that raises adds nothing to the items gathered |
| Deconve.Total | flows/deconve/deconve_person_flow_to_snowflake.py:235-239 | reading a direction raises exactly when it is present but not an object (null included); an absent direction or total counts 0, a null total is an empty cell, and a number is kept |
| Deconve.ItemRow | flows/deconve/deconve_person_flow_to_snowflake.py:233-247 | an item's row raises exactly when either direction raises; otherwise it carries the camera id, the item's stamp or '', both direction totals and the run's creation time |
| Deconve.CameraFlowRows | flows/deconve/deconve_person_flow_to_snowflake.py:222-253 | a camera writes at most one row per report item |
| Deconve.CameraFlowRowsPrefix | flows/deconve/deconve_person_flow_to_snowflake.py:222-253 | a camera's rows are the rows of its items in order, stopping exactly at the first item whose direction raises, which drops the rest of that camera; every item is written exactly when every direction can be read |
| Deconve.NullDirectionStopsCamera | flows/deconve/deconve_person_flow_to_snowflake.py:233-253 | a null direction in the second of three items leaves only the first item's row; a null total is written as an empty cell and a missing stamp as '' |
| Deconve.FlowRows | flows/deconve/deconve_person_flow_to_snowflake.py:219-255 | every row written belongs to one of the cameras |
| Deconve.FlowRowsCount | flows/deconve/deconve_person_flow_to_snowflake.py:219-253 | at most one row is written per report item of all cameras, and exactly one when every direction of every item can be read |
| Deconve.FlowRowsAreConcat | flows/deconve/deconve_person_flow_to_snowflake.py:219-253 | the flow's rows are each camera's rows, one camera after another |
| Deconve.ConcatBlock | flows/deconve/deconve_person_flow_to_snowflake.py:219-253 | in a concatenation of pieces, the piece of element `i` sits right after the pieces of the elements before it |
| Deconve.FlowRowsBlock | flows/deconve/deconve_person_flow_to_snowflake.py:219-253 | camera `i`'s rows appear, in report order, right after the rows of the cameras before it |
| Deconve.IsExpired | shared/connections/deconve.py:230-247 | a token missing either field is expired; otherwise it is expired exactly when the time left is at most the margin |
| Deconve.ExpiryIsMonotoneInTime | shared/connections/deconve.py:244-247 | a token expired at some time is expired at every later time |
| Deconve.ExpiryIsMonotoneInBuffer | shared/connections/deconve.py:247 | a wider margin never revives an expired token |
| Deconve.DefaultWindow | shared/connections/deconve.py:230-247 | with the default margin of 60 seconds a complete token is fresh exactly while less than `expires_in - 60` seconds have passed since it was obtained |
| Zapt.ValidateSigla | flows/zapt_tech/zapt_tech_to_api.py:494-513 | a sigla is accepted, with `True`, exactly when it is one of the listed siglas; any other raises |
| Zapt.ValidSiglasAreTheSix | flows/zapt_tech/zapt_tech_to_api.py:55-62 | the accepted siglas are exactly NK, BS, GS, NR, CS and NS |
| Zapt.Convert | flows/zapt_tech/zapt_tech_to_api.py:537-552 | a value becomes null exactly when it is `None`, a float exactly when it is a number with a float value, and otherwise a string: the string itself, or the value's text |
| Zapt.ConvertRow | flows/zapt_tech/zapt_tech_to_api.py:536-552 | an item keeps every key of its row, in order, with the converted value |
| Zapt.FormatPayload | flows/zapt_tech/zapt_tech_to_api.py:516-561 | the payload carries the fixed organization and schema and one converted item per row, in order |
| Zapt.Back | flows/zapt_tech/zapt_tech_to_api.py:537-552 | every kind of payload value is the conversion of some row value |
| Zapt.FormatAppend | flows/zapt_tech/zapt_tech_to_api.py:533-554 | formatting two batches of rows together gives the items of each, one after the other |
| Zapt.Gathered | flows/zapt_tech/zapt_tech_to_api.py:898-899 | the consolidated items never outnumber the rows the answering queries returned |
| Zapt.GatheredAppend | flows/zapt_tech/zapt_tech_to_api.py:879-899 | the items of two runs of shoppings are those of each, in order |
| Zapt.SuccessesAppend | flows/zapt_tech/zapt_tech_to_api.py:879-917 | the successes of two runs of shoppings add up |
| Zapt.GatherOne | flows/zapt_tech/zapt_tech_to_api.py:884-917 | one shopping adds its formatted items and a success when its query answers, and no item and an error when it raises |
| Zapt.Gather | flows/zapt_tech/zapt_tech_to_api.py:873-917 | every shopping is reported once, in order, as a success with its record count or an error; successes and errors add up to the shoppings; the items are the answering shoppings' items in order |
| Zapt.AllShoppings | flows/zapt_tech/zapt_tech_to_api.py:843-928 | the six siglas are processed in their listed order, each a success exactly when its query answers, and the consolidated payload holds the successes' items under the fixed organization and schema |
| Zapt.FailedShoppingAddsNothing | flows/zapt_tech/zapt_tech_to_api.py:910-917 | a shopping whose query raises adds no item and no success, wherever it stands |
| Zapt.AllAnswerAllGathered | flows/zapt_tech/zapt_tech_to_api.py:873-928 | when every query answers, the payload holds one item per row and every shopping is a success |
| Alerts.PartsOf | shared/alerts.py:55-76 | under a minute a duration is its seconds; under an hour it is whole minutes from 1 to 59 and the remaining seconds; beyond that whole hours and the remaining minutes, which together with the dropped seconds make up the duration |
| Alerts.DurationByParts | shared/alerts.py:65-76 | the duration text is the text of those parts: `N sec`, `M min S sec` or `Hh Mmin` |
| Alerts.HoursDropSeconds | shared/alerts.py:74-76 | beyond an hour two durations in the same minute read the same |
| Alerts.NinetyNineSeconds | shared/alerts.py:245 | 99 seconds read `1 min 39 sec` |
| Alerts.Group3 | shared/alerts.py:140 | a group of a grouped count is three digits |
| Alerts.NatToStringSplit | shared/alerts.py:140 | a count of 1000 or more is written as its thousands followed by its last three digits |
| Alerts.GroupedDropsToDigits | shared/alerts.py:140 | the dots are the only thing grouping adds: without them the grouped count is its plain decimal text |
| Alerts.GroupedReadsBack | shared/alerts.py:140 | the grouped count, dots removed, is all digits and reads back as the count |
| Alerts.GroupedExamples | shared/alerts.py:240 | 470 groups as `470` and 1234567 as `1.234.567` |
| Alerts.Compact | shared/alerts.py:132-159 | the message lines are exactly the filled slots, each line once, in slot order |
| Alerts.Truncate | shared/alerts.py:204 | the error shown is the first 300 characters of the error, or all of it when shorter |
| Alerts.SuccessLines | shared/alerts.py:131-159 | the success message's lines come in their fixed order, and a line is there exactly when its slot holds it |
| Alerts.SuccessAlwaysHas | shared/alerts.py:132-159 | a success message always has its title, duration and date, and never an error or partial-summary line |
| Alerts.SuccessExtracted | shared/alerts.py:139-140 | the extracted-records line is there exactly when the summary has that count, and shows it |
| Alerts.SuccessLoaded | shared/alerts.py:142-143 | the loaded-records line is there exactly when the summary has that count, and shows it |
| Alerts.SuccessBytes | shared/alerts.py:145-146 | the bytes line is there exactly when the summary has that count, and shows it |
| Alerts.SuccessStreams | shared/alerts.py:148-149 | the streams line is there exactly when the summary has that count, and shows it |
| Alerts.SuccessJob | shared/alerts.py:155-156 | the job line is there exactly when a non-empty job id is given, and shows that id |
| Alerts.ErrorLines | shared/alerts.py:198-224 | the error message's lines come in their fixed order, and a line is there exactly when its slot holds it |
| Alerts.ErrorIsTruncated | shared/alerts.py:203-204 | the error line shows exactly the error cut to 300 characters |
| Alerts.ErrorAlwaysHas | shared/alerts.py:198-224 | an error message always has its title, duration and date, and never a bytes or streams line |
| Alerts.ErrorPartial | shared/alerts.py:207-214 | the partial-summary heading is there exactly for a non-empty partial summary, and its count lines exactly when it has those counts |
| Alerts.ErrorJob | shared/alerts.py:220-221 | the job line is there exactly when a non-empty job id is given, and shows that id |
| Decorators.GroupOf | shared/alerts.py:7-9 | alerts go to the configured group, or to group 120363421261712366 when none is configured |
| Decorators.SummaryOf | shared/decorators.py:72-78 | a non-empty summary is always the extractor's answer for a result that is not `None`, and that answer is used whenever the extractor does not raise |
| Decorators.Wrap | shared/decorators.py:58-116 | the caller gets exactly the flow's own outcome; an alert is attempted unless the flow is interrupted: a success alert with the summary for a return, an error alert with the exception's text and no job or partial summary for an exception; a warning is logged exactly when the extractor raises or the sending call raises, and at most two are |
| Decorators.DeliveryNeverChangesOutcome | shared/decorators.py:81-113 | whatever becomes of the alert, the caller sees the flow's outcome and the same alert is attempted |
| Decorators.RefusalIsSilent | shared/decorators.py:90-91 | without an extractor, an alert the service refuses without raising leaves no warning |
| Decorators.ErrorAlertShowsError | shared/decorators.py:95-113 | the error alert of a failed flow shows exactly the first 300 characters of the exception's text and no partial-summary block or job |
| Decorators.Simple | shared/decorators.py:119-149 | the simple decorator keeps the heading and has no extractor and no group |
| Decorators.SimpleSendsEmptySummary | shared/decorators.py:144-149 | with the simple decorator every success alert goes to the default group with the empty summary, shows no count line, and no extraction warning is logged |
| Decorators.SimpleIsEmptyExtractor | shared/decorators.py:144-149 | the simple decorator behaves as the full one given an extractor that always yields the empty summary |
| Weather.DayRows | flows/weather/main.py:108-110 | a city's rows are one per forecast day, in order, each from the city's conditions and that day |
| Weather.AllDays | flows/weather/main.py:104-110 | the forecast rows number the forecast days of all cities together |
| Weather.AllDaysPlace | flows/weather/main.py:104-110 | day j of city i is the row right after the days of the cities before it |
| Weather.DayCountPrefix | flows/weather/main.py:104-110 | the days of the cities up to and including one city are at most the days of all |
| Weather.AllDaysBlock | flows/weather/main.py:104-110 | a city's forecast rows are the consecutive run that starts after the days of the cities before it |
| Weather.FirstDays | flows/weather/main.py:106 | the current rows number the cities with at least one forecast day |
| Weather.FirstDaysPlace | flows/weather/main.py:104-110 | a city's current row comes after one row for each earlier city with a forecast, and is built from its first day |
| Weather.FirstIsStartOfAll | flows/weather/main.py:350-355 | a city's current row is the first of its forecast rows |
| Weather.FirstNeverOutnumbers | flows/weather/main.py:350-355 | there are never more current rows than forecast rows, nor than cities |
| Weather.OneCurrentRowEach | flows/weather/main.py:106 | when every city has a forecast there is one current row per city |
| Weather.Flatten | flows/weather/main.py:89-116 | with only the first day the rows are each city's first day; otherwise every day of every city, cities in order then days in order |
| Weather.Kept | flows/weather/main.py:330-337 | the answers kept are never more than the cities, and there are none exactly when no city answers |
| Weather.KeptAnswers | flows/weather/main.py:336-337 | what is kept is exactly the answers the cities gave |
| Weather.KeptAppend | flows/weather/main.py:332-337 | the answers of two runs of cities are those of each, in order |
| Weather.FailedCityIsSkipped | flows/weather/main.py:84-86 | a city whose fetch gives nothing is skipped, as if it were not configured |
| Weather.CollectCities | flows/weather/main.py:330-345 | collecting raises exactly when no city answers, and otherwise gives the non-empty list of answers in city order |
| Weather.Blocks | flows/weather/main.py:104-106 | each answer becomes one block, in order, with its city id, its conditions and its forecast |
| Weather.ParseDate | flows/weather/schemas.py:104 | `strptime(full_date, "%d/%m/%Y")` gives only real calendar dates |
| Weather.DateRoundTrip | flows/weather/schemas.py:104 | a day, month and four-digit year written as `dd/mm/yyyy` parse back into that date exactly when it is a real calendar date, and raise otherwise |
| Weather.FirstDatedWhenAllDated | flows/weather/main.py:350-355 | when every forecast day's date parses, so does every current row's |
| Calendar.DaysIn | flows/weather/schemas.py:104 | a month has 28 to 31 days; February has 29 exactly in a leap year; April, June, September and November have 30 |
| Weather.ProcessWeather | flows/weather/main.py:89-116 | processing raises exactly when a row it builds has a `full_date` that is not a `%d/%m/%Y` date; otherwise, with `only_first`, one row per answer with a forecast, from its first day, in answer order, and without it every day of every answer, in order |
| Weather.RunWeather | flows/weather/main.py:326-355 | the run raises before loading exactly when none of the five cities answers; it raises before the current rows load exactly when a first day's date does not parse, and after loading them exactly when only a later day's does not; when every date parses the current rows are the first days and the forecast rows all days of the cities that answered, and the current rows are at most the forecast rows and the cities |
| Weather.Stringify | flows/weather/weather_api_to_snowflake.py:169-170 | a coordinate is stored exactly when it is truthy, as its text |
| Weather.ZeroCoordinateIsDropped | flows/weather/weather_api_to_snowflake.py:169-170 | a numeric zero coordinate is lost while the text `"0"` is kept |
| Weather.FetchLegacy | flows/weather/weather_api_to_snowflake.py:81-136 | a city yields data exactly when the answer has status 200, a decodable body with a valid key, a `results` object and a forecast that is not null; the data then carries the city's id, the coordinates under either spelling, the current conditions, the collection time and the forecast, empty when absent |
| Weather.LegacyBlocks | flows/weather/weather_api_to_snowflake.py:167-170 | each collected city becomes one block with its id, forecast and conditions, and each coordinate is stored exactly when truthy |
| Weather.ProcessCurrent | flows/weather/weather_api_to_snowflake.py:139-195 | processing raises exactly when some city's first-day date does not parse; otherwise cities without forecast are skipped, and every other city gives exactly one row, from its first day, in city order |
| Weather.ProcessForecast | flows/weather/weather_api_to_snowflake.py:198-253 | processing raises exactly when some day's date does not parse; otherwise every day of every city gives one row, cities in order and days in order |

## Left out

- Floats: VL_FIPE_NUMERICO, latitude and longitude are floats in the
  source. They are kept as text or integers, and the weather readings are
  type parameters, because no property here depends on rounding.
- Clocks: the Brasília clock, `DT_COLETA_API` and the elapsed times are
  parameters, and times are integer seconds. `strptime` is modelled where
  its failure changes the outcome: the file-name stamps of
  `BeSistemas.ParseBase` and the forecast dates of `Weather.ParseDate`.
- Validation: pydantic field validation and coercion are not modelled,
  except where a row builder applies a rule of its own.
  `_safe_int` and `clean_plate` are such rules, and both are modelled.
- Remote services: every HTTP call, SQL query, S3 or SFTP listing and
  Snowflake `write_pandas` is a function parameter (an oracle). The
  properties hold for every answer it gives.
- Concurrency: two overlapping runs claiming the same rows are not modelled.
  Each run is a function from one table state to the next.
- Text: `upper()` is modelled on ASCII letters only, and `lower()` on ASCII
  and the Latin-1 capitals. Other letters keep their case in the model.
- Schemas.Title: `title()` is modelled on ASCII and Latin-1 letters. ß, ÿ,
  µ, ª, º and letters beyond Latin-1 are treated as uncased, so a word that
  holds them may be cased differently from Python.
- Plates.Normalize: the plate patterns' `\d` is read as an ASCII digit;
  Python's also accepts other Unicode digits.
- Schemas.ParseInt: `int()` is modelled on ASCII digits and ASCII
  whitespace only.
- Weather.ParseDate: `%d`, `%m` and `%Y` are read with ASCII digits only;
  Python's `strptime` also accepts other Unicode digits.
- BeSistemas.MatchBase: the `\d` of `PAT_NAME`
  (`besistemas_to_snowflake.py:31-35`) is read as an ASCII digit, and so
  are the digits `strptime` reads from the stamps; Python's also accept
  other Unicode digits.
- BeSistemas.DatedPrefix: the `\d` of the category pattern
  (`besistemas_to_snowflake.py:42`) is read as an ASCII digit; Python's
  also accepts other Unicode digits.
- BeSistemas.ParseNameMeta: its callers, the recent-file filter
  (`besistemas_to_snowflake.py:311-326`) and the chunk loader
  (`besistemas_to_snowflake.py:380-445`, whose handler at line 433 calls it
  again outside a `try`), are not part of this model; the model states
  when the call raises.
- LegacyBatch.ProcessPlateBatch: a found vehicle's row keeps the raw
  provider record. `process_plate_batch` itself builds the `DS_*` columns
  from it (`vehicle_details_api_to_snowflake.py:433-443`): `marca`,
  `modelo`, `ano_fabricacao`, `ano_modelo`, the upper-cased colour and the
  collection time. That mapping is not modelled, and neither is the raise
  of `.upper()` on a colour that is not text.
- DetailsFlow.ReasonText: a number, boolean, list or object reason is
  stored as `UNKNOWN`; how the database driver would convert it is not
  modelled.
- Fipe.ReferenceTable: a list or object `Codigo` is not modelled, and neither
  is a float one; `str()` of a float is not the decimal text of an integer.
- Deconve.CameraFlowRows: a text or boolean `total` and a `created_at`
  that is not text are not modelled; the writer would write them as they
  are. A report fetch that raises is modelled only by `Deconve.Paginate`.
- DetailsFlow.RunLegacyDetails: a failure of the S statement after the
  committed insert (`vehicle_details_api_to_snowflake.py:631-642`) and of
  the I and E statements is not modelled; the insert's own failure is
  `writeFails`.
- FipeFlow.RunLegacy: each statement is its own transaction, as with the
  database driver's default autocommit, so the S and I statements that ran
  before a key raised stay written. A database error from an outcome
  statement is not modelled; the insert's own failure is `writeFails`.
- FipeFlow.Motivo: a `_motivo` that is not text is replaced by the
  default reason text.
- Schemas.TransformFipeRow: VL_FIPE_NUMERICO, a float, is not modelled;
  its parse sits in a `try` and never raises.
- CSV: quoted newlines and encoding detection in the Salesforce and SFTP
  readers are left out. A file is a sequence of lines of fields.
- Row counts: the `rowcount` of `executemany` is left out. The model counts
  the rows each statement matches, which is what the log line reports.
- Logging: log lines, run artifacts and the byte formatting of the alerts
  are left out. `format_bytes` is a parameter of the alert text.
- Alerts: the alert service is a parameter. The decorator never passes a
  job id or a partial summary, and the model shows that.
- Deconve.Paginate: the source loops until a page ends the listing. The
  model takes a ghost bound `stop` on the number of pages, so a service that
  never ends the listing is not modelled.
- Weather: the legacy weather loader's loop over cities is modelled by the
  same `Weather.CollectCities` as the current one.
- DetailsFlow: the legacy details flow is modelled as one batch. Its outer
  loop repeats the same batch step.
- Other files: `main_fact.py` is not part of this model. Neither are the
  connection modules other than `sftp.py` and `deconve.py`.
- Schemas: column comments, help texts and DDL are left out.

## Findings

| source | as written | input that shows it | evidently intended | confidence | as-written member | corrected member |
|---|---|---|---|---|---|---|
| flows/vehicle/vehicle_details_api_to_snowflake.py:756 | the duration log divides the elapsed seconds by 70 to get minutes and seconds | 120 seconds is logged as 1 min 50 s | divide by 60, as the FIPE flow does at flows/vehicle/vehicle_fipe_to_snowflake.py:950 | not executed | DetailsFlow.LegacyDurationMisreads | DetailsFlow.DurationParts |
| flows/vehicle/main_fipe.py:84-86 | the vehicle key is joined with `\|` and split back on `\|` into exactly three parts | a vehicle whose brand is `A\|B` makes the split yield four parts, the unpacking raises, and the whole batch is rolled back | match on the structured brand, model and year columns | not executed | FipeFlow.BarInBrandBreaksKey | FipeFlow.RunFipe |
| flows/vehicle/vehicle_fipe_to_snowflake.py:921 | the legacy flow splits each priced key on `\|` into exactly three parts before its S statement, after the price rows were inserted; `update_status_invalid` does the same at line 328 | a priced vehicle whose brand is `A\|B`: the split yields four parts and raises, so the vehicle keeps its price row but stays P, the later S statements and every I and E statement do not run, and the flow re-raises | match on the vehicle's brand, model and model-year columns | not executed | FipeFlow.BarKeyStaysClaimed | FipeFlow.LegacyOutcomesWhenKeysSplit |
| shared/connections/sftp.py:279-281 | the record count is the line count minus one, so an empty file counts -1 | an empty file gives -1, passes the `== 0` check at flows/salesforce/salesforce_to_snowflake.py:108, and `next(reader)` raises at line 124 | count no records for an empty file and skip it | not executed | Sftp.EmptyFileSlipsThrough | Sftp.StartAgreesOffEmpty |
