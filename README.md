# Attribution store of two Webflow form scripts

Two browser scripts for Webflow sites keep an **attribution record**. It
holds the marketing parameters a visitor arrived with: UTM tags, ad click
ids, the Facebook `fbp`/`fbc` values and analytics client ids. The scripts
store the record in `localStorage` under an expiring envelope and hand it to
the site's forms.

- `webflow/webhook.js` is the form-interception script. It has the query
  fallback parser, `sanitizeValue`, the form-body encoder, a versioned
  `Storage`, the `ClientIds` cookie readers, a `SessionManager` with a
  30-minute inactivity timeout, and the `TrackingManager` that merges URL
  parameters into a saved record with first- and last-visit fields.
- `webflow/tracker.js` is the minimal UTM tracker. It has its own query
  fallback parser, a `_ga` reader and a page-URL rebuilder. Its `Storage` has
  no version. `initTrackingData`, `getFinalData` and the snapshot written
  back by `fillHiddenFields` make up the rest.

The model is one Dafny module per object of the scripts:

| module | file | models |
|---|---|---|
| `Common` | `common.dfy` | `String.prototype.trim` and its white space, single-character `split`, `join`, the `v && v.trim()` and `m[k] \|\| null` tests, `String(v)` |
| `CookieMatch` | `cookie_match.dfy` | the regular expressions the scripts run over `document.cookie`, as hand-written leftmost matchers |
| `BrowserStorage` | `browser_storage.dfy` | `window.localStorage` as a class whose `items` map is changed in place; the JSON envelope as a datatype |
| `WebhookUtils` | `webhook_utils.dfy` | `Utils.getUrlParams` fallback, `sanitizeValue`, `createFormDataString` |
| `WebhookStorage` | `webhook_storage.dfy` | `Storage.set/get/remove/clear` of the form-interception script |
| `WebhookClientIds` | `webhook_client_ids.dfy` | `ClientIds.google/yandex/facebook/pinterest/getAll` |
| `WebhookSession` | `webhook_session.dfy` | `SessionManager.init/isValidSession/getMetrics` |
| `WebhookTracking` | `webhook_tracking.dfy` | `TrackingManager` as a class with its `allParams` and `savedData` fields |
| `TrackerUrl` | `tracker_url.dfy` | `parseUrlParamsFallback`, `readGoogleClientIdFromCookie`, the fallback branch of `getPageUrlWithoutParams` |
| `TrackerStorage` | `tracker_storage.dfy` | `Storage._get/_set` of the minimal tracker |
| `TrackerData` | `tracker_data.dfy` | `initTrackingData`, `getFinalData`, the storage snapshot of `fillHiddenFields` |
| `TrackerRecordProps` | `tracker_record_props.dfy` | what the minimal tracker's record promises across those operations |

The model takes its inputs as parameters:

- The clock is one reading `now` in milliseconds per operation.
- The URL query is `Query`, the value `urlParams.get(k)` returns for each
  key. `decodeURIComponent` and `encodeURIComponent` are function
  parameters whose `None` result means "throws".
- `document.cookie` is a string.
- A `localStorage.setItem` failure is a `WriteFault` parameter:
  `NoFault`, `QuotaExceeded(retrySucceeds)` or `OtherFault`.
- The length of the JSON text of an envelope is a parameter. A stored item
  is kept as the value it parses to: `Blank`, `Unparsable`, `NoData` or
  `Wrapped(envelope)`.

Where the scripts loop or update in place, the model does too:

- The parsers, the form-body encoder, the field loops and the snapshot are
  methods with `while` loops. Each is proved equal to a function that
  specifies it.
- `LocalStore` and `TrackingManager` are classes whose methods state their
  whole new state.

The model reproduces these behaviours of the code exactly:

- The two query parsers differ.
  - `webhook.js` keeps only the text between the first and the second `=`.
    When either half fails to decode, it stores the raw key and value.
  - `tracker.js` keeps everything after the first `=`. A segment that fails
    to decode ends the parse and keeps what was read before it.
- The two scripts disagree on `fbp`/`fbc`.
  - `tracker.js` lets a stored value beat the cookie: the cookie only fills
    a gap (`TrackerRecordProps.StoredBeatsCookie`).
  - `webhook.js` reads `_fbp` only in `ClientIds.facebook`.
  - `TrackingManager` takes `fbp`/`fbc` from the URL alone.
- The two `_ga` readers differ.
  - `webhook.js` uses `/_ga=GA\d\.\d\.([\d\.]+)/`, with single-digit version
    fields. Its fallback splits the cookie on `;`.
  - `tracker.js` uses `/_ga=GA\d+\.\d+\.(\d+\.\d+|\d+)/`.
- `processCurrentPageParams` tests `value.trim()` before it sanitises.
  - A URL value that is not all white space passes the non-blank test. It
    is trimmed and then sanitised. It is captured as `''` exactly when its
    trimmed text, cut to 1000 characters, is made only of control
    characters. `\x01` is one example and `" \x01 "` is another
    (`WebhookTracking.ControlCharactersBlankAField`).
  - Tab, line feed, carriage return, vertical tab and form feed are control
    characters and also white space, so a value made only of them fails the
    test and is not captured (`WebhookTracking.WhiteSpaceNotCaptured`).
  - A captured `''` replaces the saved value. An empty `document.referrer`
    also overwrites a saved `last_visit_referrer` with `''`
    (`WebhookTracking.MergedFields`).
- Storage reads and writes follow the code exactly.
  - A read deletes an unparsable entry, an entry without `data`, an entry
    whose truthy `version` is not `2.1.0`, and an entry past a truthy expiry.
  - `webhook.js` writes nothing when the JSON text is longer than 100000
    characters.
  - On a quota error, `webhook.js` removes its two keys and retries once.
  - `tracker.js` removes the key on any write failure.

## Model

| member | source | states |
|---|---|---|
| Common.Trim | webflow/webhook.js:341 | the trimmed text has no white space at either end and is empty exactly when the input is all white space |
| Common.TrimInfix | webflow/webhook.js:341 | the trimmed text is a slice of the input with only white space cut off before and after it |
| Common.TrimIdempotent | webflow/webhook.js:341 | trimming twice is trimming once |
| Common.NonBlank | webflow/tracker.js:119-120 | `v && String(v).trim()` is truthy exactly when `v` is present and not all white space, and then gives the non-empty trimmed value |
| Common.Get | webflow/tracker.js:152 | `stored[k] \|\| null` is a value exactly when the key is present with a non-empty string, and then it is that string |
| Common.Split | webflow/webhook.js:84 | `split` with a one-character separator yields at least one piece and no piece contains the separator |
| Common.JoinSplit | webflow/webhook.js:339 | joining the pieces of a split with the separator gives back the string |
| Common.SplitJoin | webflow/tracker.js:75 | splitting a join of separator-free pieces gives back the pieces |
| Common.NatToString | webflow/webhook.js:168 | `String(n)` of a natural number is a non-empty run of digits |
| Common.NatToStringValue | webflow/webhook.js:168 | those digits spell `n` in decimal, with a leading zero only for `0` |
| CookieMatch.Run | webflow/webhook.js:361 | a greedy run of a character class is maximal and stays inside the string |
| CookieMatch.CaptureAt | webflow/webhook.js:371 | `/prefix(cls+)/` at a position captures a non-empty run of the class right after the prefix |
| CookieMatch.GaOneDigitAt | webflow/webhook.js:335 | `/_ga=GA\d\.\d\.([\d\.]+)/` at a position captures a non-empty run of digits and dots |
| CookieMatch.GaIdAt | webflow/tracker.js:57 | the group `(\d+\.\d+\|\d+)` captures one digit run or two joined by a dot |
| CookieMatch.GaDigitRunsAt | webflow/tracker.js:57 | `/_ga=GA\d+\.\d+\.(\d+\.\d+\|\d+)/` at a position starts with `_ga=GA` and captures a client-id shape |
| CookieMatch.SearchFrom | webflow/tracker.js:53 | the search returns the leftmost position where the pattern matches, and none only when it matches nowhere |
| CookieMatch.MatchLeftmost | webflow/tracker.js:53 | `s.match(p)` is null exactly when the pattern matches at no position, and otherwise is the capture at the leftmost matching position |
| CookieMatch.MatchAfterPrefix | webflow/webhook.js:361 | a match that starts right after a prefix holding no first character of the pattern is the result |
| CookieMatch.CaptureCookie | webflow/webhook.js:371 | a cookie `name=value` whose value is a maximal run of the class is read as that value |
| WebhookUtils.ParseQueryFallback | webflow/webhook.js:80-93 | the loop over `&`-pairs builds exactly the object the pairs specify in order |
| WebhookUtils.EmptyValueHasButNoGet | webflow/webhook.js:95-100 | a key given as `key=` is reported by `has` while `get` returns null |
| WebhookUtils.ValueStopsAtSecondEquals | webflow/webhook.js:84-87 | the value is only the text between the first and second `=` |
| WebhookUtils.DecodeFailureKeepsRaw | webflow/webhook.js:86-90 | when either half fails to decode, the raw key and value are stored |
| WebhookUtils.LastPairWins | webflow/webhook.js:83-92 | a later pair with the same decoded key overwrites an earlier one |
| WebhookUtils.KeysFromPairs | webflow/webhook.js:85 | every stored key comes from a pair with a non-empty raw key |
| WebhookUtils.StripControls | webflow/webhook.js:170 | removing U+0000–U+001F and U+007F–U+009F leaves none of them and changes a string that has none of them not at all |
| WebhookUtils.StripControlsAppend | webflow/webhook.js:170 | the replacement works character by character: a concatenation is stripped part by part |
| WebhookUtils.StripAllControls | webflow/webhook.js:170 | stripping gives `''` exactly when the string is made only of control characters |
| WebhookUtils.StripControlsChar | webflow/webhook.js:170 | a control character is removed and every other character kept, so the non-control characters stay in their order |
| WebhookUtils.SanitizeValue | webflow/webhook.js:163-174 | the result is at most `maxLength` long and free of control characters; null and undefined give `''`; anything else is `String(v)` cut to its first `maxLength` characters and then stripped of control characters; a short clean string is unchanged |
| WebhookUtils.SanitizeIdempotent | webflow/webhook.js:163-174 | sanitising a sanitised value changes nothing |
| WebhookUtils.FormPairs | webflow/webhook.js:178-187 | there are never more pairs than entries |
| WebhookUtils.CreateFormDataString | webflow/webhook.js:176-190 | the loop produces the emitted pairs joined by `&` |
| WebhookUtils.FormPairsAppend | webflow/webhook.js:178 | entries are encoded independently and in entry order |
| WebhookUtils.SkippedEntry | webflow/webhook.js:179 | an entry with an empty key or a null, undefined or `''` value adds nothing |
| WebhookUtils.PairSource | webflow/webhook.js:178-183 | pair `i` of the body is the encoded `k=v` of an emitting entry at or after position `i` |
| WebhookUtils.PairsAreEncoded | webflow/webhook.js:179-183 | every pair in the body is the encoded `k=v` of some emitting entry |
| WebhookUtils.EncodedPairSplits | webflow/webhook.js:183 | with an encoder that never writes `&` or `=`, an encoded pair has no `&` and exactly one `=` |
| WebhookUtils.FormBodySplits | webflow/webhook.js:176-190 | with such an encoder the body splits on `&` back into the pairs, each with one `=` |
| WebhookStorage.Read | webflow/webhook.js:272-308 | `get` returns `data` exactly when the entry is present, parses, has `data`, has no other truthy version and is not past a truthy expiry; a discarded entry is removed and nothing else changes |
| WebhookStorage.Write | webflow/webhook.js:221-270 | `set` succeeds exactly when storage works, the text is at most 100000 long and the first write or the one retry succeeds; a success stores the envelope; an oversize or other failure changes nothing |
| WebhookStorage.WriteFootprint | webflow/webhook.js:246-263 | a write touches only its own key; only on a quota error are the script's two keys touched, and then they are gone unless written |
| WebhookStorage.Get | webflow/webhook.js:272-308 | the method changes the store as `Read` says and returns its value |
| WebhookStorage.Set | webflow/webhook.js:221-270 | the method stamps the envelope with `now` and the 30-day default and changes the store as `Write` says |
| WebhookStorage.Remove | webflow/webhook.js:310-317 | removes exactly the key when storage works |
| WebhookStorage.Clear | webflow/webhook.js:319-328 | removes exactly the two keys of the script |
| WebhookStorage.SetThenGet | webflow/webhook.js:221-300 | what a successful `set` wrote is read back unchanged until its expiry |
| WebhookStorage.GetAfterExpiry | webflow/webhook.js:295-298 | past its expiry the entry reads as absent and is deleted |
| WebhookStorage.DefaultLifetime | webflow/webhook.js:225-230 | without a requested expiry an entry lives exactly 30 days |
| WebhookStorage.ReadIdempotent | webflow/webhook.js:272-308 | a second read right away gives the same answer and changes nothing |
| WebhookStorage.OtherVersionDiscarded | webflow/webhook.js:288-292 | an entry of another version is deleted on the first read even before its expiry |
| WebhookClientIds.GaPiece | webflow/webhook.js:341-349 | a piece qualifies only when its trimmed text starts with `_ga=`, and gives a non-empty id |
| WebhookClientIds.GaPieceTwoFields | webflow/webhook.js:347 | the fallback's id is two dot-free fields joined by one dot |
| WebhookClientIds.GaFromPieces | webflow/webhook.js:339-352 | the fallback's result is the id of one of the pieces |
| WebhookClientIds.Google | webflow/webhook.js:332-357 | `google()` gives a non-empty id or null |
| WebhookClientIds.GoogleClientId | webflow/webhook.js:332-357 | the loop over the cookie pieces computes `Google` |
| WebhookClientIds.StandardGaCookie | webflow/webhook.js:335-336 | `_ga=GA1.2.<id>` gives `<id>` |
| WebhookClientIds.GaPieceFields | webflow/webhook.js:341-349 | the fallback on `_ga=<a>.<b>.<c>.<d>` with `a` starting `GA` gives `<c>.<d>` |
| WebhookClientIds.FallbackFirstPiece | webflow/webhook.js:340-350 | the fallback returns what the first qualifying piece gives |
| WebhookClientIds.FallbackNone | webflow/webhook.js:339-352 | without a qualifying piece the fallback returns null |
| WebhookClientIds.Yandex | webflow/webhook.js:359-367 | `yandex()` gives a non-empty run of digits or null |
| WebhookClientIds.YandexCookie | webflow/webhook.js:361-362 | `_ym_uid=<digits>` gives the digits |
| WebhookClientIds.Facebook | webflow/webhook.js:369-377 | `facebook()` gives a non-empty value without `;` or null |
| WebhookClientIds.FacebookCookie | webflow/webhook.js:371-372 | `_fbp=<v>` gives `v` up to the next `;` |
| WebhookClientIds.Pinterest | webflow/webhook.js:379-395 | a non-blank `epik` URL value, trimmed, wins; any result is non-empty |
| WebhookClientIds.PinterestCookie | webflow/webhook.js:388-390 | without a usable URL value the `_epik` cookie is read up to the next `;` |
| WebhookClientIds.GetAll | webflow/webhook.js:398-405 | every id reported is non-empty |
| WebhookSession.Continuing | webflow/webhook.js:414-425 | a stored session is continued exactly when it is valid and not idle for more than 30 minutes |
| WebhookSession.VisitPage | webflow/webhook.js:439-446 | a listed page leaves the list unchanged; a new one is appended and the list is cut to its last 100 entries |
| WebhookSession.NextSession | webflow/webhook.js:427-449 | a new session starts with `[url]` at `now`; a continued one keeps its id and start time; both get `lastActivity = now` |
| WebhookSession.Init | webflow/webhook.js:410-455 | `init()` returns and saves, with a 30-minute expiry, the session `NextSession` describes |
| WebhookSession.RoundedSeconds | webflow/webhook.js:480 | `Math.round(ms / 1000)` is the nearest whole second, halves up |
| WebhookSession.MetricsOf | webflow/webhook.js:468-489 | an invalid session reports the defaults; a valid one its id, page count and non-negative duration |
| WebhookSession.GetMetrics | webflow/webhook.js:468-489 | the method reports `MetricsOf` the stored session |
| WebhookSession.DurationRounds | webflow/webhook.js:480-485 | the duration is the elapsed time rounded to the nearest second |
| WebhookSession.NextSessionValid | webflow/webhook.js:457-462 | a session `init` builds passes `isValidSession`, given a non-empty new id and a clock past the epoch |
| WebhookSession.VisitBounded | webflow/webhook.js:443-445 | the page list never exceeds 100 entries |
| WebhookSession.VisitNoDuplicates | webflow/webhook.js:439-440 | the page list stays free of duplicates |
| WebhookSession.VisitIdempotent | webflow/webhook.js:439 | visiting the same page twice is visiting it once |
| WebhookSession.SessionContinues | webflow/webhook.js:414-449 | a saved session is continued by an `init` within 30 minutes with the same id and start time |
| WebhookSession.SessionTimesOut | webflow/webhook.js:421-437 | after 30 idle minutes `init` starts a new session |
| WebhookTracking.UrlCaptures | webflow/webhook.js:529-535 | the captured parameters are exactly those with a non-blank URL value, each trimmed and sanitised |
| WebhookTracking.NewParamsFields | webflow/webhook.js:525-545 | the new parameters are the non-blank URL values, and `epik` exactly when the Pinterest id exists |
| WebhookTracking.MergedFields | webflow/webhook.js:549-564 | merging keeps every other field, takes the new parameters, rewrites the last-visit fields and writes the first-visit fields only when none is stored |
| WebhookTracking.FinalData | webflow/webhook.js:572-591 | `getFinalData` is the saved record with each non-blank URL value and the Pinterest id laid over it |
| WebhookTracking.Pick | webflow/webhook.js:594-615 | the picked record holds exactly the truthy fields of the listed keys |
| WebhookTracking.TrackingManager.constructor | webflow/webhook.js:493-503 | the object literal starts with no parameters and an empty record |
| WebhookTracking.TrackingManager.Init | webflow/webhook.js:505-521 | `init` sets the 24 parameters, loads the saved record and processes the page |
| WebhookTracking.TrackingManager.ProcessCurrentPageParams | webflow/webhook.js:523-570 | the record becomes `Captured` and is persisted only when something is new |
| WebhookTracking.TrackingManager.MergeVisit | webflow/webhook.js:547-567 | the `hasNewParams` block writes `Merged` into `savedData` |
| WebhookTracking.TrackingManager.GetFinalData | webflow/webhook.js:572-591 | returns `FinalData` and changes nothing |
| WebhookTracking.TrackingManager.GetUtmData | webflow/webhook.js:594-603 | returns the truthy UTM fields of the final data |
| WebhookTracking.TrackingManager.GetClickIdData | webflow/webhook.js:606-615 | returns the truthy click-id fields of the final data |
| WebhookTracking.CollectNewParams | webflow/webhook.js:525-545 | the loop builds the new parameters and sets the flag exactly when there are some |
| WebhookTracking.Select | webflow/webhook.js:597-601 | the loop picks the truthy fields of the keys |
| WebhookTracking.AllParamsAreNotVisitKeys | webflow/webhook.js:494-518 | no tracked parameter is a visit field |
| WebhookTracking.NewParamsAreFinalOverEmpty | webflow/webhook.js:525-591 | the new parameters are what `getFinalData` lays over an empty record |
| WebhookTracking.NothingNewChangesNothing | webflow/webhook.js:529-544 | with no non-blank URL value and no Pinterest id nothing is new |
| WebhookTracking.CapturedKeepsStored | webflow/webhook.js:547-567 | no stored field is removed, and fields other than new parameters and visit fields keep their values |
| WebhookTracking.FirstVisitSetOnce | webflow/webhook.js:555-559 | over two page loads the first-visit time is the first one's |
| WebhookTracking.FinalDataAfterCapture | webflow/webhook.js:523-591 | right after processing a page, `getFinalData` on the same page returns the saved record |
| WebhookTracking.ControlCharactersBlankAField | webflow/webhook.js:530-532 | a URL value of any tracked key but `epik` that is not all white space is captured, and it is captured as `''` exactly when its trimmed text, cut to 1000 characters, is made only of control characters |
| WebhookTracking.WhiteSpaceNotCaptured | webflow/webhook.js:530-532 | a URL value made only of white space, including tab and line feed, is not captured |
| TrackerUrl.StripQuestion | webflow/tracker.js:34 | exactly one leading `?` is removed |
| TrackerUrl.ParseUrlParamsFallback | webflow/tracker.js:31-44 | the loop over the segments builds exactly the map `ParseUrlParams` specifies, stopping at a decode error |
| TrackerUrl.ValueKeepsLaterEquals | webflow/tracker.js:38-40 | the value is everything after the first `=`, later `=` included |
| TrackerUrl.NoEqualsMapsToEmpty | webflow/tracker.js:39 | a segment without `=` maps to `''` |
| TrackerUrl.ParseAppend | webflow/tracker.js:36-41 | segments are read left to right, each on the map the earlier ones built |
| TrackerUrl.LastSegmentWins | webflow/tracker.js:36-41 | a later duplicate key overwrites an earlier one |
| TrackerUrl.DecodeErrorKeepsPrefix | webflow/tracker.js:35-42 | a decode error ends the parse and keeps the entries read before it |
| TrackerUrl.ReadGoogleClientId | webflow/tracker.js:56-59 | the id read is one digit run or two joined by a dot |
| TrackerUrl.ReadGoogleOfMatch | webflow/tracker.js:57-58 | the id is the capture itself: trimming never changes it |
| TrackerUrl.GaCookieTwoRuns | webflow/tracker.js:56-59 | `_ga=GA<v1>.<v2>.<x>.<y>` gives `<x>.<y>` for digit runs of any length, when the cookie text before it holds no `_` and a non-digit or the end follows `<y>` |
| TrackerUrl.KeptPairs | webflow/tracker.js:74-75 | the filter never adds pairs |
| TrackerUrl.KeptPairsMembers | webflow/tracker.js:74-75 | the kept pairs are exactly the non-empty pairs whose key is not excluded |
| TrackerUrl.KeptPairsAppend | webflow/tracker.js:74-75 | the filter keeps the pairs in their original order |
| TrackerUrl.KeptPairsIdentity | webflow/tracker.js:74-75 | pairs that are all kept come through unchanged |
| TrackerUrl.QuerySplitsBack | webflow/tracker.js:72-76 | the query is emitted, with `?`, exactly when a pair remains, and splits back into the kept pairs |
| TrackerUrl.QueryWithoutIdempotent | webflow/tracker.js:67-76 | rebuilding the query again changes nothing |
| TrackerUrl.NoExcludedKeyRemains | webflow/tracker.js:75 | no kept pair has an excluded key |
| TrackerUrl.PageUrlWithoutParams | webflow/tracker.js:61-79 | the page URL is empty only when `location.href` is |
| TrackerUrl.PageUrlKeepsParts | webflow/tracker.js:67-78 | the page URL starts with origin and path and ends with the hash; between them is nothing when no pair is kept, otherwise `?` and text that splits on `&` into exactly the kept pairs; `location.href` stands in only when all of that is empty |
| TrackerStorage.Stamp | webflow/tracker.js:97 | the written envelope holds the data and expires 30 days after `now` |
| TrackerStorage.Read | webflow/tracker.js:83-93 | `_get` returns `data` exactly when the entry is present, parses, has `data` and is not past a truthy expiry; an unparsable, data-less or expired entry is removed |
| TrackerStorage.Write | webflow/tracker.js:94-101 | `_set` succeeds exactly when storage works and `setItem` does; any failure removes the key; unsupported storage changes nothing |
| TrackerStorage.Get | webflow/tracker.js:83-93 | the method changes the store as `Read` says and returns its value |
| TrackerStorage.Set | webflow/tracker.js:94-101 | the method changes the store as `Write` says |
| TrackerStorage.SetThenGet | webflow/tracker.js:83-101 | what a successful `_set` wrote is read back for 30 days |
| TrackerStorage.GetAfterExpiry | webflow/tracker.js:90 | after 30 days the entry reads as absent and is deleted |
| TrackerStorage.FailedWriteForgets | webflow/tracker.js:100 | after a failed write a read finds nothing |
| TrackerStorage.ReadIdempotent | webflow/tracker.js:83-93 | a second read right away gives the same answer and changes nothing |
| TrackerData.UrlOverlayFields | webflow/tracker.js:118-129 | the URL loops keep every stored key and set exactly the fields with a non-blank URL value to that value, trimmed |
| TrackerData.CookieFill | webflow/tracker.js:131-132 | a cookie fills a field only when the stored one is missing or empty |
| TrackerData.OverlayUrl | webflow/tracker.js:118-129 | the three URL loops compute `UrlOverlay` over the 10 fields |
| TrackerData.FillFromCookies | webflow/tracker.js:131-132 | the two cookie steps compute `CookieFills` |
| TrackerData.InitTrackingData | webflow/tracker.js:113-141 | `initTrackingData` reads the record, returns `Initialized` of it and writes that back |
| TrackerData.FieldValue | webflow/tracker.js:152 | a field is null exactly when neither the URL nor the store has a non-empty value, and is never `''` |
| TrackerData.FieldValuesFields | webflow/tracker.js:150-161 | the field loops give every tracked field, and only those, its URL value, else stored value, else null |
| TrackerData.CollectFieldValues | webflow/tracker.js:150-161 | the three loops compute `FieldValues` over the 10 fields |
| TrackerData.BuildFinalData | webflow/tracker.js:147-167 | the body of `getFinalData` computes `FinalRecord` |
| TrackerData.GetFinalData | webflow/tracker.js:144-169 | `getFinalData` returns `FinalRecord` of the stored record and changes storage only by the read's own deletion |
| TrackerData.SnapshotFields | webflow/tracker.js:200-201 | the snapshot keeps every stored key and overwrites exactly the keys with a truthy form value |
| TrackerData.MergeSnapshot | webflow/tracker.js:200-201 | the loop over the 12 keys computes `Snapshot` |
| TrackerData.SaveSnapshot | webflow/tracker.js:198-203 | the snapshot is merged into the record read again and written back |
| TrackerData.FillHiddenFields | webflow/tracker.js:186-205 | the form receives `FinalRecord`, and its snapshot is merged into the same stored record it came from |
| TrackerRecordProps.UrlBeatsStored | webflow/tracker.js:118-134 | a non-blank URL value is stored whatever was stored before and whatever the cookies hold |
| TrackerRecordProps.StoredBeatsCookie | webflow/tracker.js:131-132 | without a URL value a non-empty stored value stays, even against a cookie |
| TrackerRecordProps.CookieFillsGap | webflow/tracker.js:131-132 | with neither a URL nor a stored value, `fbp`/`fbc` come from their cookies, trimmed |
| TrackerRecordProps.InitializedKeys | webflow/tracker.js:113-141 | `initTrackingData` removes no key |
| TrackerRecordProps.InitializedSettled | webflow/tracker.js:134-137 | the page URL is always reset; the client id is overwritten when the cookie has one and kept otherwise |
| TrackerRecordProps.InitializedOthers | webflow/tracker.js:113-141 | keys outside the snapshot keys keep their stored values |
| TrackerRecordProps.StoredRecordReadBack | webflow/tracker.js:83-101 | a record written on one page is what reads return for the next 30 days |
| TrackerRecordProps.FinalPageUrlCases | webflow/tracker.js:164-165 | there is always a page URL; the stored one is used only when the current one is empty |
| TrackerRecordProps.FinalRecordKeys | webflow/tracker.js:147-167 | the form record holds the 10 fields, `google_client_id`, `page_url` and `form_name`, and nothing else |
| TrackerRecordProps.FinalRecordTracked | webflow/tracker.js:150-161 | a field of the form record is the URL value, else the stored one, else null |
| TrackerRecordProps.FinalRecordExtras | webflow/tracker.js:163-166 | the client id prefers the cookie over the store; the page URL is present; `form_name` is null |
| TrackerRecordProps.FinalAgreesWithInit | webflow/tracker.js:113-169 | on the page that initialised the record the form receives what was stored under each snapshot key |
| TrackerRecordProps.SnapshotIdempotent | webflow/tracker.js:200-201 | a second snapshot of the same form data changes nothing |
| TrackerRecordProps.SnapshotOfStored | webflow/tracker.js:200-201 | a snapshot of data that agrees with the store changes nothing, so no stored key is ever cleared |
| TrackerRecordProps.SnapshotAfterInit | webflow/tracker.js:113-203 | on the page that initialised the record the snapshot writes back exactly the stored record |

## Left out

- The jQuery submit interception, the AJAX POST, redirects and button
  state are DOM and network I/O.
- The public `window.WebflowAnalytics` API and its aliases are left out.
  The `MutationObserver` watchers are left out.
- The Binotel wait, `setFieldValue`, and the DOM half of
  `fillHiddenFields`/`initForms` are timers or DOM writes. The model keeps
  only the storage snapshot of `fillHiddenFields`.
- Browser feature detection is the `supported` field of `LocalStore`.
  `BrowserSupport.urlSearchParams()` is not modelled: `Query` stands for
  whatever `getUrlParams` returns.
- `getCleanUrl` and `getFullCleanUrl` are built on the browser's `URL`.
  Their results are the `url` and `pageUrl` parameters of the
  form-interception model. The `URL` branch of the tracker's
  `getPageUrlWithoutParams` is not modelled; the line on
  `TrackerData.Initialized` below says what that leaves out.
- `generateSessionId` uses `Math.random`; the id is a parameter.
  `Date.now`, `toISOString` and `document.referrer` are parameters too. The
  source reads the clock more than once per `Storage.set`; the model reads it
  once.
- `JSON.stringify` and `JSON.parse` are not modelled.
  - A stored item is kept as its parsed value, and the text length is a
    parameter.
  - Objects that JSON turns into something else (functions, `undefined`
    members) are outside the model.
- `encodeURIComponent` and `decodeURIComponent` are abstract parameters.
  Strings are sequences of characters, not UTF-16 code units, so lone
  surrogates are not modelled. The length cuts of `sanitizeValue` (100
  characters for a key, 1000 for a value) count characters here.
  JavaScript counts code units, so a character outside the Basic
  Multilingual Plane counts twice there. For example, the
  script cuts a value of 600 such characters to 500, while the model keeps
  all 600.
- `try`/`catch` and `safe(...)` are modelled only where the code turns an
  exception into a result: decoding, encoding and `setItem`. Other
  exceptions are left out, and so are the `|| (Storage.get() || {})`
  fallbacks they would reach.
- `getMetrics` does not produce its ISO date string; the model reports the
  last-activity time instead.
- Object key order is not modelled: records are maps. `createFormDataString`
  is given its entries as a sequence in `Object.entries` order.
- TrackerData.Initialized, TrackerData.InitTrackingData, TrackerData.FinalPageUrl, TrackerData.GetFinalData: the page URL is the one `getPageUrlWithoutParams` builds in a browser without `URL` (webflow/tracker.js:67-76). Where `URL` exists, webflow/tracker.js:63-66 runs instead, and `searchParams.delete` writes the query out again in its own form (`?a&utm_source=x` becomes `?a=` there, `?a` here). That branch depends on the browser's URL parser, which is not modelled.
- WebhookUtils.QueryGet, WebhookUtils.QueryHas: the parameter object is a map, so names inherited from `Object.prototype` are not modelled. In the script, `has('toString')` is true, and a `__proto__` key is not stored as a property.
- BrowserStorage.AsFields: a truthy `data` that is not a flat object of strings reads as the empty object in the model, while the scripts would go on with that value.
- Common.NatToString: `JsValue.Int` stands for a safe integer below 10^21, which `String` writes in plain decimal. Larger numbers, which JavaScript writes as `1e+21`, and non-integral numbers are not modelled. The only numbers the script passes on are `pages_viewed` and `session_duration` (webflow/webhook.js:756-757), and these stay far below that bound.
- WebhookClientIds.Google: the regular-expression branch is stated through its shape (digits and dots, non-empty) and through the `_ga=GA<d>.<d>.<id>` example, not as a full regular-expression semantics.
- TrackerUrl.ReadGoogleClientId: the single-run alternative of `(\d+\.\d+|\d+)` is stated only through the shape ensures (one digit run or two joined by a dot); the example lemma covers the two-run case.
