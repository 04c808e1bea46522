# A verified model of a browser-only URL shortener

This project models the bookkeeping core of a single-page URL shortener that keeps everything in the browser's local storage. The parts modelled are:

- the validators and time arithmetic (`urlUtils`);
- the storage manager (`StorageManager`). It holds an ordered list of URL records and a map from short code to an append-only list of click events;
- the batch creation form (`URLShortener`): up to five entries, first-error validation, and a generate-until-unique loop for codes;
- the redirect page (`RedirectHandler`): look the code up, refuse unknown or expired codes, otherwise record exactly one click and redirect;
- the statistics dashboard (`Statistics`): a newest-first sort and the summary counts;
- the bounded in-memory log (`Logger`).

The model's shape follows the source:

- Objects whose fields change in place are Dafny classes with `modifies` clauses: the storage manager, the form, the redirect page, the dashboard and the logger.
- Expressions over their inputs are functions, each with lemmas about it.
- Loops stay loops with invariants: code generation, validation, the batch save, the sort and clear-all.

The environment enters as parameters:

- the clock `now`, in milliseconds; one value stands for every `Date.now()` call in a step;
- the random draws `random: nat -> AlphabetIndex`;
- the browser's URL parser `parse`, returning the protocol or None when it throws;
- the visitor context: referrer, geolocation and user agent;
- whether each store write fails (`writeFails`).

Files:

| file | module | models |
|---|---|---|
| wrappers.dfy | Wrappers | `Option` |
| records.dfy | Records | URL record, click event, partial-update patch, first match by code |
| url_utils.dfy | UrlUtils | src/utils/urlUtils.js |
| storage.dfy | Storage | src/utils/storage.js |
| url_shortener.dfy | Shortener | src/components/URLShortener.jsx |
| redirect_handler.dfy | Redirect | src/components/RedirectHandler.jsx |
| statistics.dfy | Statistics | src/components/Statistics.jsx |
| logger.dfy | Logging | src/utils/logger.js |

## Model

| member | source | states |
|---|---|---|
| Records.ApplyPatch | src/utils/storage.js:67 | every field present in the patch overwrites the record's field; every absent one keeps it (object spread) |
| Records.FirstIndexOfCode | src/utils/storage.js:64 | None exactly when no record carries the code; otherwise the index of a record carrying it with none before it (`findIndex`) |
| UrlUtils.NormalizeUrl | src/utils/urlUtils.js:26-31 | the result always starts with "http://" or "https://"; an input with either prefix is returned unchanged, any other gets "https://" in front |
| UrlUtils.NormalizeUrlIdempotent | src/utils/urlUtils.js:26-31 | normalising twice equals normalising once |
| UrlUtils.MatchesAlnumPatternIff | src/utils/urlUtils.js:53 | the regular expression `^[a-zA-Z0-9]+$` holds exactly for non-empty strings of ASCII letters and digits |
| UrlUtils.IsValidUrl | src/utils/urlUtils.js:16-23 | accepted exactly when the parser returns the protocol "http:" or "https:"; a throwing parse is refused. Shortener.BuiltRecordIsWellFormed shows every saved record passes it |
| UrlUtils.IsValidShortCode | src/utils/urlUtils.js:47-57 | true exactly when the code has 3 to 20 characters, all ASCII letters or digits |
| UrlUtils.ShortCodeUniqueAppend | src/utils/urlUtils.js:60-62 | a code is free in a joined list exactly when it is free in both parts, and free exactly when no record (expired or not) carries it at any index |
| UrlUtils.IsShortCodeUnique | src/utils/urlUtils.js:60-62 | no record, expired or not, carries the code; UrlUtils.ShortCodeUniqueAppend ties it to FirstIndexOfCode and to joined lists |
| UrlUtils.IsValidValidityDuration | src/utils/urlUtils.js:65-68 | the intended check: true exactly when 1 <= minutes <= 1440 (24 hours), the range its error message names |
| UrlUtils.LeadingDigit | src/utils/urlUtils.js:66 | the first decimal digit of a positive number, 1 to 9 |
| UrlUtils.ParseIntOfNumber | src/utils/urlUtils.js:66 | `parseInt` of a number: the number itself below 10^21 in magnitude; from 10^21 on only the sign and the leading digit of its decimal rendering |
| UrlUtils.IsValidValidityDurationAsWritten | src/utils/urlUtils.js:65-68 | the check as written: true exactly when 1 <= minutes <= 1440 or minutes >= 10^21 |
| UrlUtils.HugeValidityPassesAsWritten | src/utils/urlUtils.js:65-75 | a validity of 10^21 minutes passes the check as written, fails the intended one, and expires more than 24 hours ahead |
| UrlUtils.ValidityChecksAgreeBelowThreshold | src/utils/urlUtils.js:65-68 | below 10^21 the check as written and the intended check agree |
| UrlUtils.CalculateExpiryTime | src/utils/urlUtils.js:71-75 | now plus the validity in milliseconds, 30 minutes when omitted; its properties are stated by UrlUtils.ExpiryWithinWindow and UrlUtils.DefaultExpiry |
| UrlUtils.IsExpired | src/utils/urlUtils.js:78-80 | expired strictly after the expiry instant; Redirect.ExpiryInstantIsLiveButSwept shows that the instant itself is still live |
| UrlUtils.ExpiryWithinWindow | src/utils/urlUtils.js:71-80 | a valid validity gives an expiry exactly validity*60000 ms after now, between 1 minute and 24 hours ahead, and not yet expired |
| UrlUtils.DefaultExpiry | src/utils/urlUtils.js:71-75 | an omitted validity means 30 minutes: now + 1,800,000 ms |
| UrlUtils.TimeLeft | src/utils/urlUtils.js:88-98 | "Expired" exactly when expiresAt - now <= 0; otherwise the floor-divided hours and the minutes (< 60) bracket the remaining time to the minute |
| UrlUtils.NatToString | src/utils/urlUtils.js:100-103 | the decimal rendering of a number: digits only, denoting the number, no leading zero |
| UrlUtils.GetTimeRemainingCases | src/utils/urlUtils.js:88-104 | the label is "Expired" exactly when no time remains; otherwise it is "{h}h {m}m" when at least one hour remains and "{m}m" below an hour |
| UrlUtils.GetTimeRemaining | src/utils/urlUtils.js:88-104 | the label of TimeLeft; its three shapes are stated by UrlUtils.GetTimeRemainingCases |
| UrlUtils.GetReferrerInfo | src/utils/urlUtils.js:137-146 | the referrer is the page's referrer or "Direct" when there is none (never empty), with the user agent and the call time |
| UrlUtils.GeneratedCodeIsValid | src/utils/urlUtils.js:34-44 | every code built from six draws is a valid short code |
| UrlUtils.AlphabetIsAlnum | src/utils/urlUtils.js:35 | the alphabet has 62 distinct ASCII letters and digits: upper case, then lower case, then digits |
| UrlUtils.GenerateShortCode | src/utils/urlUtils.js:34-44 | the loop appends one drawn alphabet character per step; the result is the six-draw code, of length 6 and a valid short code |
| Storage.ReadOr | src/utils/storage.js:30-38 | getItem yields the stored value, or the default when the key is absent or unreadable |
| Storage.Unexpired | src/utils/storage.js:92 | the records kept are exactly those with expiresAt > now; nothing is removed exactly when all expire after now, and then the list is unchanged |
| Storage.UnexpiredAppend | src/utils/storage.js:92 | the sweep distributes over concatenation, so survivors keep their order |
| Storage.UnexpiredIdempotent | src/utils/storage.js:89-102 | a second sweep at the same instant removes nothing |
| Storage.UnexpiredLater | src/utils/storage.js:89-102 | sweeping at a later instant equals sweeping the earlier sweep's result again |
| Storage.AppendClick | src/utils/storage.js:75-82 | the click goes to the end of its code's list, the list is created when missing, and every other code's list is unchanged |
| Storage.SaveAnalyticsAsWritten | src/utils/storage.js:75-82 | as written: fails (TypeError) exactly for a code that is not an own key but names an inherited member of a plain object; otherwise appends like AppendClick |
| Storage.PrototypeNamedCodeCannotRecordClicks | src/utils/storage.js:77-80 | the code "toString" cannot record a first click as written, while the own-key version records it |
| Storage.StorageManager.GetShortenedUrls | src/utils/storage.js:58-60 | the stored list, or [] when the key is absent or unreadable |
| Storage.StorageManager.GetAnalytics | src/utils/storage.js:84-86 | the stored click log, or {} when the key is absent or unreadable |
| Storage.StorageManager.SetShortenedUrls | src/utils/storage.js:18-28 | true and the new list on success; false and the old value on failure; the other keys untouched |
| Storage.StorageManager.SetAnalytics | src/utils/storage.js:18-28 | the same for the click log |
| Storage.StorageManager.RemoveItem | src/utils/storage.js:40-49 | the key becomes absent, the others untouched |
| Storage.StorageManager.SaveShortenedUrl | src/utils/storage.js:52-56 | the record is appended as the last element with earlier records unchanged; the answer is the write's success flag |
| Storage.StorageManager.UpdateShortenedUrl | src/utils/storage.js:62-72 | only the first record with the code gets the patch; with no such record the answer is false and nothing is written |
| Storage.StorageManager.SaveAnalytics | src/utils/storage.js:75-82 | the click log becomes AppendClick of the old one (own keys only); the records are untouched |
| Storage.StorageManager.CleanupExpiredUrls | src/utils/storage.js:89-103 | returns exactly the unexpired records, writes them back only when at least one was removed, and never touches the click log |
| Storage.StorageManager.ClearAllData | src/utils/storage.js:106-111 | the loop removes the URL, click-log and settings keys; afterwards the getters yield [] and {} |
| Logging.KeepLast | src/utils/logger.js:25-30 | `slice(-n)`: the last min(n, length) elements, in order |
| Logging.KeepLastAbsorbs | src/utils/logger.js:21-26 | trimming after every append gives the same buffer as trimming once at the end: the buffer is always the most recent entries |
| Logging.Logger.Log | src/utils/logger.js:12-34 | the new entry is the newest element; the buffer is the last 1000 of old buffer + entry; the persisted copy is its last 100, or unchanged when the write fails |
| Logging.Logger.LogInfo | src/utils/logger.js:36-38 | logs with level "INFO": the same buffer and persisted copy as `log` gives |
| Logging.Logger.LogWarn | src/utils/logger.js:40-42 | logs with level "WARN": the same buffer and persisted copy as `log` gives |
| Logging.Logger.LogError | src/utils/logger.js:44-46 | logs with level "ERROR": the same buffer and persisted copy as `log` gives |
| Logging.Logger.LogDebug | src/utils/logger.js:48-50 | logs with level "DEBUG": the same buffer and persisted copy as `log` gives |
| Logging.Logger.ClearLogs | src/utils/logger.js:56-59 | the buffer is empty and the persisted copy removed |
| Shortener.TrimSpec | src/components/URLShortener.jsx:107 | trim cuts a slice out of the string: what is cut is white space, and what is kept neither starts nor ends with white space |
| Shortener.Trim | src/components/URLShortener.jsx:107 | String.prototype.trim over the JavaScript white-space set; characterised by Shortener.TrimSpec and Shortener.TrimEmptyIff |
| Shortener.TrimEmptyIff | src/components/URLShortener.jsx:107 | the trimmed URL is empty exactly when the input is white space only |
| Shortener.EntryError | src/components/URLShortener.jsx:106-133 | the first failing check of one entry, with the intended validity check; characterised by Shortener.EntryErrorIsFirstFailingCheck and Shortener.EntryPasses |
| Shortener.EntryErrorAsWritten | src/components/URLShortener.jsx:106-133 | the same verdict with the validity check as written |
| Shortener.EntryErrorAsWrittenDiffers | src/components/URLShortener.jsx:106-133 | the verdicts as written and as intended differ exactly on entries that pass every other check with a validity of 10^21 or more, which pass as written |
| Shortener.HugeValidityEntryPassesAsWritten | src/components/URLShortener.jsx:130-133 | an entry for "a.io" with a validity of 10^21 minutes is let through as written and refused as intended |
| Shortener.EntryErrorIsFirstFailingCheck | src/components/URLShortener.jsx:106-133 | each error is reported exactly when all earlier checks pass and its own fails, in the order: required URL, URL syntax, custom-code syntax, custom-code uniqueness, validity |
| Shortener.EntryPasses | src/components/URLShortener.jsx:106-133 | an entry passes exactly when its URL is present and valid, its custom code (when used) is valid and unused by the stored records, and its validity is 1..1440 |
| Shortener.BatchErrors | src/components/URLShortener.jsx:102-134 | an entry has an error exactly when it fails a check, and that error is its first failing one |
| Shortener.BatchErrorsEmptyIff | src/components/URLShortener.jsx:136 | validation succeeds exactly when every entry passes |
| Shortener.BatchErrorsIndependent | src/components/URLShortener.jsx:106-133 | changing one entry does not change whether any other entry has an error |
| Shortener.TakenCodeIsRefused | src/components/URLShortener.jsx:118-128 | a custom code carried by a stored record is refused |
| Shortener.SiblingCodesAreNotCompared | src/components/URLShortener.jsx:124 | two entries of one batch requesting the same unused custom code both pass |
| Shortener.BuildRecord | src/components/URLShortener.jsx:165-173 | the record saved for one entry; Shortener.BuiltRecordIsWellFormed states its properties |
| Shortener.BuiltRecordIsWellFormed | src/components/URLShortener.jsx:152-173 | a validated entry's record points at an http(s) URL the parser accepts, expires validity*60000 ms after creation (1 minute to 24 hours), is live, and is custom exactly when the custom code is used |
| Shortener.ShortenerForm.Mount | src/components/URLShortener.jsx:64-72 | mounting the form sweeps the stored records once and leaves the click log alone |
| Shortener.ShortenerForm.AddUrlField | src/components/URLShortener.jsx:74-79 | a default entry is appended only while there are fewer than 5, keeping 1..5 entries |
| Shortener.ShortenerForm.RemoveUrlField | src/components/URLShortener.jsx:81-87 | the entry at the index is removed only while there are more than 1, keeping 1..5 entries |
| Shortener.ShortenerForm.UpdateUrl | src/components/URLShortener.jsx:89-100 | only the named field of the named entry changes, and only that entry's error is cleared |
| Shortener.ShortenerForm.ValidateInputs | src/components/URLShortener.jsx:102-137 | the loop leaves exactly the batch's first-failing-check errors, checked against the records stored now, and succeeds exactly when there are none |
| Shortener.ShortenerForm.ShortenUrls | src/components/URLShortener.jsx:140-206 | it fails validation exactly when some entry fails, and then nothing is saved. Otherwise each entry yields one record in entry order, appended to the store (each write may fail), with results shown and the form reset to one empty entry |
| Shortener.SaveBatch | src/components/URLShortener.jsx:150-189 | the i-th result is the i-th entry's record (id now + i) with its short URL and time label. A generated code is valid and unused by every record stored when it was drawn, the batch's earlier saved ones included |
| Shortener.FirstFreeDraw | src/components/URLShortener.jsx:158-162 | the offset it finds lies at or after the first draw and gives a code that no stored record carries |
| Shortener.FirstFreeDrawExhausted | src/components/URLShortener.jsx:158-162 | the search finds nothing only when every one of the codes it may draw is already taken |
| Shortener.DrawUniqueCode | src/components/URLShortener.jsx:160-162 | the do-while loop returns exactly FirstFreeDraw's code, a valid six-character code unused by the stored records |
| Shortener.UpdateField | src/components/URLShortener.jsx:91 | `{ ...entry, [field]: value }` changes exactly the named field |
| Shortener.WithoutIndex | src/components/URLShortener.jsx:83 | filtering out one index removes exactly that entry and keeps the others in order; an index out of range removes nothing |
| Shortener.EntryCountBounds | src/components/URLShortener.jsx:74-87 | adding and removing entries keeps their number between 1 and 5 |
| Shortener.RecordsOf | src/components/URLShortener.jsx:178-182 | each result carries its record, in the same order |
| Shortener.Saved | src/components/URLShortener.jsx:176 | the records that reached the store are a subset of the batch's records, no more of them |
| Redirect.Resolve | src/components/RedirectHandler.jsx:38-58 | not found exactly when no record carries the code; otherwise the first record carrying it, expired exactly when now > expiresAt |
| Redirect.RedirectHandler.HandleRedirect | src/components/RedirectHandler.jsx:37-82 | unknown and expired codes end in the error state with their messages and record no click. A live code appends exactly one click to its list (a failed write is ignored) and redirects to the record's URL. The records are never changed. The click is recorded with the own-key `saveAnalytics` (the corrected behaviour); the outcome as written for codes named like inherited members is `Redirect.RedirectAsWritten` |
| Redirect.RedirectHandler.Run | src/components/RedirectHandler.jsx:91-93 | nothing happens for an empty code; otherwise the outcome is handleRedirect's: the error messages with no click for unknown and expired codes, one appended click and the record's URL as destination for a live code, and the records never changed |
| Redirect.ClickOf | src/components/RedirectHandler.jsx:61-66 | the recorded click carries the current time, the page's referrer or "Direct" (never empty), the position and the user agent |
| Redirect.RedirectAsWritten | src/components/RedirectHandler.jsx:60-88 | as written: a live code that names an inherited object member makes saveAnalytics throw, and the page shows the generic failure message |
| Redirect.ToStringCodeCannotRedirect | src/components/RedirectHandler.jsx:68-88 | a live record with the valid custom code "toString" and no clicks yet ends in the generic failure as written |
| Redirect.ExpiryInstantIsLiveButSwept | src/components/RedirectHandler.jsx:49-58 | at now == expiresAt the redirect still follows the record while the sweep already drops it |
| Redirect.LapsedRecordsAreSwept | src/components/RedirectHandler.jsx:49-58 | a record refused as expired is one the sweep removes |
| Statistics.SortNewestFirst | src/components/Statistics.jsx:45 | the array is sorted in place by createdAt non-increasing and keeps exactly its elements (a permutation) |
| Statistics.InsertNewest | src/components/Statistics.jsx:45 | one insertion pass extends the sorted prefix by one element and keeps the elements |
| Statistics.SwapWithPrevious | src/components/Statistics.jsx:45 | an adjacent exchange keeps the array's elements |
| Statistics.CountExtremes | src/components/Statistics.jsx:212 | a filter's length is 0 exactly when nothing matches, and the full length exactly when everything does |
| Statistics.CountAppend | src/components/Statistics.jsx:212 | a filter's length distributes over concatenation |
| Statistics.CountPermutation | src/components/Statistics.jsx:41-48 | a filter's length does not depend on the order, so sorting changes no count |
| Statistics.ActiveCount | src/components/Statistics.jsx:212 | the records not expired at now; Statistics.ActiveCountVersusSweep and Statistics.TilesIgnoreOrder state its properties |
| Statistics.CustomCount | src/components/Statistics.jsx:252 | the records marked custom; Statistics.CountExtremes and Statistics.TilesIgnoreOrder state its properties |
| Statistics.ActiveCountVersusSweep | src/components/Statistics.jsx:212 | the active count equals what the sweep keeps plus the records expiring exactly now |
| Statistics.TotalClicks | src/components/Statistics.jsx:232 | the lengths of all click lists added up; Statistics.TotalClicksWithout and Statistics.TotalClicksAfterClick state its properties |
| Statistics.TotalClicksWithout | src/components/Statistics.jsx:232 | the sum of all list lengths does not depend on the order of the codes |
| Statistics.TotalClicksAfterClick | src/components/Statistics.jsx:232 | one recorded click raises the total by exactly one |
| Statistics.ClickCount | src/components/Statistics.jsx:288 | the length of the code's own list, 0 when it has none |
| Statistics.ClickCountAfterClick | src/components/Statistics.jsx:288 | a click raises its own code's count by one and leaves every other code's count unchanged |
| Statistics.ClickCountAsWritten | src/components/Statistics.jsx:288 | as written: own keys give their list length, inherited member names give that member's `length`, and everything else gives 0 |
| Statistics.ClickCountAsWrittenAgrees | src/components/Statistics.jsx:288 | both counts agree on every code that is not an inherited member's name |
| Statistics.ConstructorCodeShowsOneClick | src/components/Statistics.jsx:288 | the valid custom code "constructor" shows 1 click before any click as written, where the own-key count is 0 |
| Statistics.Dashboard.LoadData | src/components/Statistics.jsx:38-57 | the shown list is the stored one sorted newest first, with nothing added or lost, and the click log is the stored one |
| Statistics.TilesIgnoreOrder | src/components/Statistics.jsx:41-59 | after loading, the total, active and custom tiles and the empty state are those of the stored list |

## Left out

- Rendering, styling, animations, the route table and the theme: UI and foreign libraries.
- Every logging call inside storage, the validators and the components: log side effects are not part of the data model. The logger itself is modelled on its own.
- `new URL(...)`, the browser's URL parser, is the parameter `parse`. Only the http:/https: check is modelled.
- Serialisation (`JSON.stringify` and `JSON.parse`) and `localStorage` itself. The store keeps typed values. An unreadable value is the `Unreadable` slot, and a failed write is the `writeFails` flag.
- `Logging.Logger.Log`: `data ? JSON.stringify(data) : null` is taken as already decided. The parameter is the serialised text or None, so falsy data is not modelled.
- `Storage.StorageManager.RemoveItem`: removal never fails in the model. A thrown `removeItem` is not modelled.
- Geolocation, `document.referrer` and `navigator.userAgent` are inputs (`ClientContext`). The float rounding of the coordinates is not modelled; coordinates are given in hundredths.
- `Math.random` is the draw sequence `random`.
- `Shortener.DrawUniqueCode`: the do-while would draw until it finds a free code. The model stops after `maxRedraws` further draws and reports `StillDrawing`. Its termination is not modelled.
- `Date.now` is one `now` per step. The few milliseconds between the calls for id, createdAt and expiresAt are not modelled.
- `formatTimestamp` (locale-dependent), the `setTimeout` delays (hiding the success banner, the two-second wait before navigating), the clipboard, `window.location` (the redirect's `destination` field), async/await and React's state batching. State updates are plain assignments.
- `Shortener.ShortenerForm.UpdateUrl`: requires an index inside the list, as the form's inputs always pass. Writing past the end of the list is not modelled.
- `Shortener.ShortenerForm.ShortenUrls`: the validity is an integer because the form stores `parseInt(value) || 30`. A JavaScript number that large is a double; the model takes it as an exact integer.
- `UrlUtils.IsValidValidityDuration`: the intended 1..1440 check, which the rest of the model uses. The source applies `parseInt` to the number first and so accepts every validity of 10^21 or more (see "## Findings"); `UrlUtils.IsValidValidityDurationAsWritten` models that.
- `UrlUtils.ParseIntOfNumber`: from 10^21 on it takes the leading digit of the exact integer. JavaScript takes that of the shortest decimal form that identifies the double, which for very large numbers can round up to the next digit. Either way the result lies in 1..9, so the validity verdict is the same.
- `Shortener.EntryErrorIsFirstFailingCheck`: its validity clause is the intended 1..1440 check. As written, validities of 10^21 or more also pass; `Shortener.EntryErrorAsWrittenDiffers` states exactly where the two verdicts part.
- `Shortener.EntryPasses`: states the intended condition "validity 1..1440". As written, an entry with a validity of 10^21 or more that passes the other checks also passes (`Shortener.EntryErrorAsWrittenDiffers`).
- `Shortener.BuiltRecordIsWellFormed`: the 1-minute-to-24-hours window holds under the intended check. As written, a validated validity of 10^21 minutes gives an expiry about 6·10^25 ms ahead (`UrlUtils.HugeValidityPassesAsWritten`).
- `Statistics.SortNewestFirst`: the sort is stable, since it never swaps equal dates, but stability is not stated. Only the order and the permutation are proved.
- `Statistics.TotalClicksWithout`: the total-clicks tile is a ghost sum over the map. JavaScript sums in the object's own-key order (integer-like codes such as "123" first, in ascending numeric order, then the others in insertion order); the lemma shows that the order does not matter.
- `Statistics.ClickCountAsWritten`: the `length` of the inherited accessor `__proto__` (Object.prototype) is undefined and is rendered as nothing (None). Only alphanumeric names can be short codes, so this case cannot be reached from the form.

Behaviour of the code worth knowing:

- Custom codes are compared only with the stored records, never with the other entries of the same batch (src/components/URLShortener.jsx:118-128). Two entries of one batch may therefore ask for the same code, and both are saved (`Shortener.SiblingCodesAreNotCompared`).
- The dashboard never calls the sweep (src/components/Statistics.jsx:38-57). Expired records count towards the total and are left out of the active count only.

## Findings

| source | as written | input that shows it | evidently intended | confidence | as-written member | corrected member |
|---|---|---|---|---|---|---|
| src/utils/storage.js:77-80 | the truthiness test on the code's entry also sees members inherited from Object.prototype, so no list is created and the click is pushed onto a function | custom code "toString" (valid: 8 letters) with no click yet; the redirect then shows "An error occurred while processing the redirect" | test for an own key and append the first click | not executed | Storage.PrototypeNamedCodeCannotRecordClicks | Storage.StorageManager.SaveAnalytics |
| src/utils/urlUtils.js:65-68 | the range test is applied to `parseInt` of the number; a number of 10^21 or more is rendered in exponent notation and only its leading digit is read | an entry for "a.io" with validity 1000000000000000000000 (typed into the number field): it passes validation and expires about 6·10^25 ms later, against the message "between 1 minute and 24 hours" | refuse every validity outside 1..1440 minutes | not executed | Shortener.HugeValidityEntryPassesAsWritten | UrlUtils.IsValidValidityDuration |
| src/components/Statistics.jsx:288 | the lookup of the code's entry also sees inherited members, so an inherited function's arity is shown as the click count | custom code "constructor" with no click: shows 1 click | the length of the code's own list, 0 when absent | not executed | Statistics.ConstructorCodeShowsOneClick | Statistics.ClickCountAfterClick |
