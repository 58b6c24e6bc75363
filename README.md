# Google Places for Craft CMS — a verified model of the sync core

This project models the core of the Craft CMS plugin that keeps a "Google
Places Sync" field up to date with the Google Places API and stores place
data in its own table:

- **The API service** (`PlacesApi`, over `UrlEncoding`). `placeSearch` and
  `placeDetails` build a request URL: the API key goes in as it is, and the
  input or place id is url-encoded. `googleApiRequest` reduces the HTTP
  exchange to one of three outcome arrays: success with data, the
  "Server Error" array, or a caught failure carrying the exception's message.
- **The sync service** (`PlacesSync`). `sync` dispatches on the field value:
  - a non-empty `id` goes to `getPlaceDetails`;
  - otherwise a non-empty `lookup` goes to `getPlaceId`;
  - otherwise nothing happens.

  `getPlaceId` searches, stores the first candidate's `place_id`, and then
  fetches details. `getPlaceDetails` copies `formatted_address`,
  `formatted_phone_number` and `website` into the value's `address`, `phone`
  and `website` entries. An element is a class whose field values, dirty set
  and log of `setFieldValue` calls the methods update. Each method is proved
  against a specification function that gives the calls made and the values
  written (`DetailsRun`, `SearchRun`, `SyncRun`).
- **The persistence service** (`PlacesPersist`, over `PlaceModel` and
  `DateFormat`).
  - `saveGooglePlaceData` validates the model, then finds or creates the
    ActiveRecord for the place id, copies the attributes and saves. The
    table is a class holding a map from place id to row plus the next
    primary key. The save is proved to be an upsert that keeps place ids
    unique and primary keys distinct.
  - `findGooglePlaceData` reuses a stored row unless it is stale. Stale is
    decided by a string comparison with today's date, and the model proves
    that this comparison is a calendar-day comparison.
- **The model** (`PlaceModel`): the nullable attributes and the
  `required` / `number` / `safe` rules.
- **The Sync All Places job** (`SyncJob`): it builds the search query from
  the Google Places Sync fields and re-saves each entry found. Before each
  save it reports progress, and it logs a save that throws and goes on.
- **The field type** (`SyncField`): the save gate, which syncs only a dirty
  field of a non-revision element, and the JSON conversions of the stored
  value.

The following become parameters of the model:
- the HTTP client, as an oracle from URL to response-or-exception;
- the API service as seen by the sync, as two oracles from argument to outcome;
- the clock;
- the database's acceptance of a write;
- the entry search;
- the element save;
- the JSON codec.

PHP's value semantics (truthiness, `isset`, reading a missing key as null,
and string ordering) are in `Php`.

## Model

| member | source | states |
|---|---|---|
| UrlEncoding.UrlEncode | src/services/CraftGooglePlacesApi.php:40 | urlencode's output holds only unreserved bytes, '+' and '%', and is one to three times as long as its input |
| UrlEncoding.UrlDecodeEncode | src/services/CraftGooglePlacesApi.php:51 | urldecode recovers the exact place id (or search input) that urlencode put into the request |
| Php.LexLessStrictTotal | src/services/CraftGooglePlacesPersist.php:77 | the string order used by the staleness test is a strict total order: of two different strings exactly one is below the other, and none is below itself |
| PlacesApi.ResultArray | src/services/CraftGooglePlacesApi.php:75-89 | the outcome arrays: 'success' is truthy only for a success; the server-error array has 'status' and no 'success' key; 'error' carries "Server Error" or the exception's message |
| PlacesApi.InputType | src/services/CraftGooglePlacesApi.php:39 | a search is a phone-number search exactly when the input starts with '+' and is at least 11 bytes long; otherwise it is a text query |
| PlacesApi.SearchParams | src/services/CraftGooglePlacesApi.php:40 | the search tail starts a new field and adds exactly two: the input type and the url-encoded input |
| PlacesApi.DetailsParams | src/services/CraftGooglePlacesApi.php:51 | the details tail starts a new field and adds exactly one: the url-encoded place id |
| PlacesApi.RequestUrl | src/services/CraftGooglePlacesApi.php:70 | for an endpoint without a '?', the URL's path is the API base, the endpoint and `/json`, and its query string is `key=` followed by the key and the parameters |
| PlacesApi.RequestedUrl | src/services/CraftGooglePlacesApi.php:67-70 | a request URL exists exactly when the key is set and not empty |
| PlacesApi.Normalise | src/services/CraftGooglePlacesApi.php:71-90 | success exactly for a 200 reply whose body decodes, carrying the decoded data; the server error exactly for any other status; otherwise a failure carrying the exception's message |
| PlacesApi.GoogleApiRequest | src/services/CraftGooglePlacesApi.php:64-91 | without a key the outcome is the server error and the client is not consulted; with one, the outcome is the normalised reply to the built URL |
| PlacesApi.PlaceSearch | src/services/CraftGooglePlacesApi.php:37-42 | placeSearch gives the server error without a key, and otherwise the normalised reply to the search URL |
| PlacesApi.PlaceDetails | src/services/CraftGooglePlacesApi.php:49-52 | placeDetails gives the server error without a key, and otherwise the normalised reply to the details URL |
| PlacesApi.RequestQuery | src/services/CraftGooglePlacesApi.php:70 | the query string of the request URL is `key=` followed by the key and the endpoint's parameters |
| PlacesApi.SearchRequestFields | src/services/CraftGooglePlacesApi.php:37-42 | a search request with a key free of '&' carries exactly three query fields, in order: key, inputtype and the url-encoded input |
| PlacesApi.DetailsRequestFields | src/services/CraftGooglePlacesApi.php:49-52 | a details request with a key free of '&' carries exactly two query fields, in order: key and the url-encoded place_id |
| PlacesApi.KeyIsNotEncoded | src/services/CraftGooglePlacesApi.php:70 | the key is spliced in unencoded, so a key `k1&k2` adds a query field `k2` of its own |
| PlacesApi.NoKeyNoRequest | src/services/CraftGooglePlacesApi.php:67-84 | with no key or an empty one, the outcome is the server error whatever the network does, and it has no 'success' entry |
| PlacesApi.GoogleApiRequestAsWritten | src/services/CraftGooglePlacesApi.php:85 | the code as written returns the corrected outcome except in one case: where the corrected outcome catches a failure, an exception with that message escapes instead |
| PlacesApi.ConnectionFailureEscapesAsWritten | src/services/CraftGooglePlacesApi.php:85-90 | a connection failure during a details request escapes the code as written, while the corrected request returns it as a failure outcome |
| PlacesApi.RequestAlwaysReturnsOutcome | src/services/CraftGooglePlacesApi.php:64-91 | the callers read success exactly when a key is set and the client's reply to the URL is a 200 whose body decodes |
| PlacesSync.WithDetails | src/services/CraftGooglePlacesSync.php:69-72 | the value gains address, phone and website from the result's formatted_address, formatted_phone_number and website (null when missing); every other entry is kept |
| PlacesSync.DetailsResult | src/services/CraftGooglePlacesSync.php:68 | the details guard passes exactly for a success whose data and data['result'] are truthy, and then yields data['result'] itself |
| PlacesSync.CandidateId | src/services/CraftGooglePlacesSync.php:98-104 | the search guard passes exactly for a success whose first candidate has a truthy place_id, and then yields that place_id |
| PlacesSync.DetailsRun | src/services/CraftGooglePlacesSync.php:61-81 | getPlaceDetails calls placeDetails once exactly when the id is non-empty; it writes exactly when the id is non-empty and the result passes the guard, and the value it writes is the one filled from that result |
| PlacesSync.SearchRun | src/services/CraftGooglePlacesSync.php:91-114 | getPlaceId calls anything exactly when the lookup is non-empty, its first call is the search for the lookup, and it writes only after the search guard passes |
| PlacesSync.SyncRun | src/services/CraftGooglePlacesSync.php:37-47 | one sync makes at most two API calls and at most one write per call, and it calls nothing exactly when neither the id nor the lookup is non-empty |
| PlacesSync.Element.SetFieldValue | src/services/CraftGooglePlacesSync.php:73 | setFieldValue stores the value under the handle, marks the field dirty and appends to the log of writes; nothing else changes |
| PlacesSync.GetPlaceDetails | src/services/CraftGooglePlacesSync.php:61-81 | returns true; makes exactly DetailsRun's calls; leaves the element with DetailsRun's writes applied (last write wins, dirty only if written) |
| PlacesSync.GetPlaceId | src/services/CraftGooglePlacesSync.php:91-114 | returns true; makes exactly SearchRun's calls; leaves the element with SearchRun's writes applied |
| PlacesSync.SearchThenDetails | src/services/CraftGooglePlacesSync.php:104-106 | a successful search writes the value holding the found id, then runs getPlaceDetails on that value |
| PlacesSync.Sync | src/services/CraftGooglePlacesSync.php:37-47 | returns true; makes exactly SyncRun's calls; leaves the element with SyncRun's writes applied |
| PlacesSync.IdTakesPrecedence | src/services/CraftGooglePlacesSync.php:40-41 | a non-empty id leads to one details call and never to a search, even when a lookup is present |
| PlacesSync.SearchIffLookupOnly | src/services/CraftGooglePlacesSync.php:40-43 | sync searches if and only if the id is missing or empty and the lookup is not; the search is then the first call and receives the lookup |
| PlacesSync.NothingToSync | src/services/CraftGooglePlacesSync.php:44-46 | with neither an id nor a lookup, nothing is called and the value is unchanged |
| PlacesSync.OtherKeysUnchanged | src/services/CraftGooglePlacesSync.php:69-73 | every value sync writes keeps every entry of the old value other than id, address, phone and website |
| PlacesSync.DetailsKeepsOtherKeys | src/services/CraftGooglePlacesSync.php:69-73 | the value getPlaceDetails writes keeps every entry other than address, phone and website |
| PlacesSync.FailedDetailsWriteNothing | src/services/CraftGooglePlacesSync.php:68-74 | a details outcome that fails the guard writes nothing, and the field keeps its value |
| PlacesSync.DetailsFill | src/services/CraftGooglePlacesSync.php:68-73 | a passing details result is written once, with address, phone and website taken from it and the id kept |
| PlacesSync.FoundIdSurvives | src/services/CraftGooglePlacesSync.php:104-106 | a found place id is the first value written, is carried by every later write, and is still in the final value even when details fail; the calls are exactly the search and then the details fetch for that id |
| PlacesSync.LookupThenDetailsFill | src/services/CraftGooglePlacesSync.php:97-106 | with only a lookup, a search that finds an id and a details fetch that passes write twice; the final value holds the found id and the address, phone and website from the details result |
| PlacesSync.FailedSearchWritesNothing | src/services/CraftGooglePlacesSync.php:98-109 | a search that fails the guard makes only the search call and leaves the value unchanged |
| PlacesSync.FailuresPassNoGuard | src/services/CraftGooglePlacesSync.php:98-103 | no failure outcome passes the search guard or the details guard (line 68), including the server-error array that lacks 'success' |
| PlaceModel.Errors | src/models/GooglePlaceModel.php:77-84 | an attribute is in the error list exactly when its rule fails: placeId and displayName need a non-blank value, and the coordinates need a finite number or null; opening hours, id and updated never are |
| PlaceModel.Validate | src/models/GooglePlaceModel.php:77-84 | validation holds exactly when the error list is empty; it then guarantees a non-empty place id and display name and finite coordinates |
| PlaceModel.BlankIsMissing | src/models/GooglePlaceModel.php:80 | a place id or display name that trim() reduces to "" fails validation, and the blank attribute is in the error list |
| PlaceModel.UncheckedAttributes | src/models/GooglePlaceModel.php:82 | changing the opening hours, id or updated never changes the outcome of validation |
| PlaceModel.NewModelFails | src/models/GooglePlaceModel.php:22-84 | a new model (all attributes null) fails validation on exactly placeId and displayName |
| DateFormat.YmdHis | src/services/CraftGooglePlacesPersist.php:62 | the timestamp string is 19 characters long and starts with the day's Y-m-d |
| DateFormat.PadOrder | src/services/CraftGooglePlacesPersist.php:77 | zero-padded decimals of one width compare as strings exactly as the numbers compare |
| DateFormat.YmdOrder | src/services/CraftGooglePlacesPersist.php:76-77 | Y-m-d strings compare as strings exactly as the calendar days compare, and are equal exactly for the same day |
| DateFormat.TimestampBeforeDay | src/services/CraftGooglePlacesPersist.php:76-77 | today's Y-m-d is above a stored Y-m-d H:i:s exactly when the stored time falls on an earlier calendar day |
| PlacesPersist.RowFor | src/services/CraftGooglePlacesPersist.php:53-62 | the stored row has the model's nine data attributes as given, and updated from the model or else the current time |
| PlacesPersist.Upsert | src/services/CraftGooglePlacesPersist.php:48-66 | saving a valid model adds its place id to the keys; it inserts one row when the place id is new and otherwise overwrites in place, keeping the primary key; the row then holds the model's attributes (RowFor); all other rows are unchanged |
| PlacesPersist.UpsertKeepsInvariant | src/migrations/Install.php:33-34 | an upsert keeps the rows keyed by their own unique place id, and primary keys distinct and below the next one |
| PlacesPersist.ResaveOverwrites | src/services/CraftGooglePlacesPersist.php:48-61 | saving the same place twice leaves one row under the same primary key, holding the later display name |
| PlacesPersist.GooglePlaceRecord.constructor | src/services/CraftGooglePlacesPersist.php:50 | a new record has every attribute null, id included |
| PlacesPersist.GooglePlaceRecord.Load | src/services/CraftGooglePlacesPersist.php:48 | a loaded record holds exactly the stored row's attributes |
| PlacesPersist.GooglePlaceRecord.Assign | src/services/CraftGooglePlacesPersist.php:53-62 | the nine data attributes come from the model and updated from the model or else the current time; id is untouched; the record then writes exactly RowFor of the model |
| PlacesPersist.PlaceTable.constructor | src/migrations/Install.php:32-44 | the new table is empty and satisfies the table invariant |
| PlacesPersist.PlaceTable.FindOne | src/services/CraftGooglePlacesPersist.php:48 | findOne returns null exactly when no row has the place id; otherwise it returns a fresh record holding that row |
| PlacesPersist.PlaceTable.Save | src/services/CraftGooglePlacesPersist.php:64 | save succeeds exactly when the database accepts it, the NOT NULL columns are set and an insert does not clash with the unique place id; on success the row is written under the kept or next primary key; on failure nothing changes; the invariant is kept |
| PlacesPersist.SaveGooglePlaceData | src/services/CraftGooglePlacesPersist.php:40-71 | a record is returned exactly when the model validates and the save is accepted; the table is then the upsert of the model and the record holds the stored row; otherwise the table is unchanged |
| PlacesPersist.FindGooglePlaceData | src/services/CraftGooglePlacesPersist.php:73-82 | a cached answer is the stored row for a truthy place id; a re-sync keeps the place id and lookup; a missing or falsy place id always re-syncs |
| PlacesPersist.FreshnessByCalendarDay | src/services/CraftGooglePlacesPersist.php:76-77 | a row stamped at time t is reused on t's day and re-synced on every later calendar day |
| PlacesPersist.SavedTodayIsFresh | src/services/CraftGooglePlacesPersist.php:62-81 | a model saved without updated at time t is served from the table on t's day |
| SyncJob.LastSyncIndex | src/jobs/SyncAllPlaces.php:19-22 | the position of the last Google Places Sync field, or none exactly when there is no such field |
| SyncJob.Terms | src/jobs/SyncAllPlaces.php:19-22 | the `handle:*` terms are exactly those of the Google Places Sync fields |
| SyncJob.RemoveFirst | src/jobs/SyncAllPlaces.php:24 | preg_replace with limit 1 on a query that starts with " OR " removes exactly that leading " OR ", the only case the job reaches; on other queries only the length is stated (unchanged, or shorter by the pattern) |
| SyncJob.PrefixedJoin | src/jobs/SyncAllPlaces.php:21-24 | appending " OR term" for every term and removing the first " OR " gives the terms joined by " OR " |
| SyncJob.BuildSearchQueryAsWritten | src/jobs/SyncAllPlaces.php:18-24 | the loop as written leaves only the last Google Places Sync field's term, or the empty query when there is none |
| SyncJob.BuildSearchQuery | src/jobs/SyncAllPlaces.php:18-24 | the intended query is the terms of all Google Places Sync fields joined by " OR " |
| SyncJob.SingleFieldQueriesAgree | src/jobs/SyncAllPlaces.php:21 | with exactly one Google Places Sync field, the query as written and the intended query coincide |
| SyncJob.AsWrittenQueryDropsEarlierFields | src/jobs/SyncAllPlaces.php:21 | with two Google Places Sync fields, the query as written names only the second and the intended query names both |
| SyncJob.EntriesFor | src/jobs/SyncAllPlaces.php:25 | an empty query visits no entry without searching; a non-empty one visits what the search returns |
| SyncJob.Execute | src/jobs/SyncAllPlaces.php:15-45 | the job's trace is, for each entry found, in order: a progress report, a save, and a log line if the save threw |
| SyncJob.ItemShape | src/jobs/SyncAllPlaces.php:28-43 | each entry gives exactly one report and one save, plus one logged failure exactly when its save throws |
| SyncJob.SavesEveryEntryInOrder | src/jobs/SyncAllPlaces.php:28-40 | the entries saved are exactly the entries found, each once and in order, whatever earlier saves did |
| SyncJob.ProgressSteps | src/jobs/SyncAllPlaces.php:29-36 | the k-th report is the fraction k/total with step k+1 of total, and the fraction lies in [0, 1) |
| SyncJob.FailuresLoggedInOrder | src/jobs/SyncAllPlaces.php:39-43 | the logged failures are exactly the entries whose save threw, in order |
| SyncJob.NoSyncFieldNoWork | src/jobs/SyncAllPlaces.php:25-26 | with no Google Places Sync field the query is empty and no entry is visited, so no division by a zero total happens |
| SyncField.ContentColumnType | src/fields/GooglePlacesSync.php:77-80 | the content column is TEXT |
| SyncField.BeforeElementSave | src/fields/GooglePlacesSync.php:44-53 | always lets the save go on; a revision or a clean field is left untouched with no API call; otherwise the element is synced exactly as Sync does |
| SyncField.NormalizeValue | src/fields/GooglePlacesSync.php:94-100 | null reads as the empty array; a string holding JSON reads as what it decodes to; anything else is kept |
| SyncField.SerializeValue | src/fields/GooglePlacesSync.php:112-115 | the stored value is the JSON-encoded string |
| SyncField.StoredValueReadsBack | src/fields/GooglePlacesSync.php:94-115 | whenever the JSON codec round-trips a value, reading back what serializeValue stored gives that value |
| SyncField.EmptyColumnSyncsNothing | src/fields/GooglePlacesSync.php:96-98 | an empty column reads as the empty array, and syncing it makes no call and no write |

## Left out

- HTTP, the JSON codec, the clock, the database, the queue and Craft's
  element service are not modelled. Each is a parameter, because their
  behaviour is outside the plugin.
  - The transport is a function from URL to a reply or an exception message.
  - The decoder's failure is `Malformed`.
  - The time is a `Y-m-d H:i:s` string or a date.
  - The database's acceptance of a write is a boolean.
  - Entry search and saveElement are functions.
- Logging (`Craft::error`) is not modelled, except the job's logged failures,
  which are part of its trace. Log text and severities are not modelled.
- Progress labels are formatted with ICU (`{step, number} of {total, number}`).
  Only the numbers are modelled, not the formatted string.
- Floats are opaque (`Float`): finite, infinite or NaN. The model carries
  them and never computes with them. The `number` rule's rejection of a
  numeric string cannot arise for a typed `?float` attribute.
- The database's case-insensitive collation of the unique place id, and its
  normalisation of `updated` to a timestamp, are not modelled. Rows are
  keyed by the exact string, and `updated` is stored as given.
- PHP 8 compares two numeric strings as numbers. That case is not modelled:
  the dates compared in findGooglePlaceData are never numeric strings, so
  the byte-wise order applies.
- findGooglePlaceData calls `sync($placeId, $lookup)` (CraftGooglePlacesPersist.php:78).
  sync's signature takes an element and a field, so this call cannot run as
  written. The model returns the decision `Resync(placeId, lookup)` instead
  of modelling that call.
- `->unique()` on the entry query and the search engine's matching are
  left to the `search` parameter. The job visits whatever that returns.
- PlacesSync.Element: the field value is a PHP value (`Json`) rather than
  a typed map. Craft's field layouts, element types, revisions beyond the
  flag, and the events that call `beforeElementSave` are not modelled.
- PlacesSync.Tagged: states only that one logged write is made per value
  written. The pointwise form (the i-th log entry is the handle with the
  i-th value) is left implicit in its definition, because stating it as a
  quantified postcondition makes the solver loop.
- PlacesSync.DetailsResult, PlacesSync.CandidateId: reading a key of a
  string (`Get`) or `$s[0]` (`First`) gives null in the model. PHP does not:
  PHP 8 throws an Error on a non-numeric offset into a string, and PHP 7
  warns and reads a byte. So a reply whose `data`, `data['result']`,
  `candidates` or first candidate is a string makes the source's sync throw
  (an Error, which no catch clause takes). In the model the guard fails and
  sync returns true. Google's replies hold arrays in these places.
- PlacesSync.WithDetails, PlacesSync.DetailsResult, PlacesSync.CandidateId,
  PlacesSync.FailuresPassNoGuard: reading a missing key gives null in the
  model. Under Craft, Yii's error handler turns PHP's notice or warning for
  that read into a `yii\base\ErrorException`, and the plugin installs no
  handler of its own. Such reads occur in the source at
  CraftGooglePlacesSync.php:68 and :98 (`$result['success']` on the
  server-error array, which has no 'success' key), at `$result['data']['result']`
  when the reply has no 'result' (a NOT_FOUND reply), and at :70-72
  (`formatted_phone_number` or `website` missing from the result). The catch
  clauses at :77 and :110 name an unimported `Exception` and do not take the
  ErrorException, so the source's sync throws out of beforeElementSave and
  the element save fails. The model instead fails the guard or writes null,
  and sync returns true. The exception is not modelled because it belongs to
  the host's error handler, not to the plugin.
- SyncJob.Execute: it searches with the corrected query (BuildSearchQuery),
  not the one SyncAllPlaces.php:21 builds as written. BuildSearchQueryAsWritten
  and AsWrittenQueryDropsEarlierFields record the query as written. The
  trace lemmas hold for any list of entries, so they are unaffected.
- SyncJob.Execute: the progress fraction is a real `i / total`. PHP
  computes it as an int (0, for `0 / total`) or a float, and setProgress
  receives that value. Rounding of the float is not modelled.
- PHP has one empty array; `Json` has two, `JList([])` and `JMap(map[])`.
  Both are falsy and have no keys, so no guard or read tells them apart.
  normalizeValue's empty array is written `JList([])`.
- The array shape read by sync is partly out of scope. Sync reads `$value['id']`
  and `$value['lookup']` as PHP array reads. When the field value is a list
  or a scalar, both are null and nothing happens. Integer-keyed entries of
  a map are not distinguished from string keys.
- The controller, the Twig variable, the settings model, the asset bundle,
  the field's input HTML and the translations are not modelled. They are
  presentation and glue, not part of the sync core.
- Exceptions thrown by setFieldValue or saveElement inside sync are not
  modelled. The same missing import of Exception affects sync's catch
  clauses (CraftGooglePlacesSync.php:77 and 110). In the model those
  methods consume outcomes of the corrected request, so no exception
  reaches them.

## Findings

| source | as written | input that shows it | evidently intended | confidence | as-written member | corrected member |
|---|---|---|---|---|---|---|
| src/services/CraftGooglePlacesApi.php:85 | `catch (Exception $error)` in a namespace that does not import `Exception`, so it names a class that does not exist and never matches | an API key set and a client that throws (for example DNS failure "Could not resolve host") on the details request | the exception is caught and turned into `['success' => false, 'error' => message]` | high (not executed) | PlacesApi.ConnectionFailureEscapesAsWritten | PlacesApi.RequestAlwaysReturnsOutcome |
| src/jobs/SyncAllPlaces.php:21 | `$searchQuery = ' OR ' . $field->handle . ':*';` assigns in the loop, so only the last Google Places Sync field survives | two Google Places Sync fields `venue` and `office`: the query is `office:*`, and entries with only `venue` set are never re-synced | append with `.=`, giving `venue:* OR office:*` | high (not executed) | SyncJob.AsWrittenQueryDropsEarlierFields | SyncJob.BuildSearchQuery |
