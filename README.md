# CHANSE clinic front-end configuration, modelled in Dafny

This project models `frontend-config.js`. That is the browser-side configuration script of the CHANSE clinic
website, and the model covers five parts of it:

- **URL resolution.** The page location picks one of three environments: local, production or the clinic
  fallback. The environment selects a backend and a frontend base URL. A named API endpoint resolves against
  the backend base URL, and an unknown name resolves to `null` (`Config`, `config.dfy`).
- **`enhancedFetch`**, as a decision policy over what the network does on each attempt
  (`FetchPolicy`, `fetch_policy.dfy`):
  - the caller's options are merged over the defaults;
  - the CSRF header rule decides whether the token is added;
  - only an error named `AbortError`, or one whose message contains `timeout`, is retried;
  - the retry counter is capped by `maxRetries`;
  - the wait before a retry is `1000 * (retries + 1)` ms.

  The network is an oracle indexed by the retry counter. For each attempt it supplies the token reply of
  `getCSRFToken` and either a response (status and parsed body) or a rejection. A call yields a `Report`: the
  value or error it ends with, the requests it made to the endpoint URL, and the waits between those requests.
- **`RateLimiter`**, as a class (`RateLimiting`, `rate_limiter.dfy`):
  - its `requests` field holds the keys of the source's `Map`, in insertion order;
  - `CanMakeRequest` runs the source's clean-up loop, deleting stale keys in place;
  - the method is proved equal to the pure specification `Admit`, and `Admit`'s properties are proved as
    lemmas;
  - the class invariant `Valid` says the keys are distinct and at most `maxRequests`.
- **`isValidEmail` and `isValidPhone`.** Each of the two fixed regular expressions is matched by hand, and a
  lemma proves the matcher equal to a piece-by-piece reading of the pattern (`Validation`, `validation.dfy`).
- **`sanitizeInput`**: `trim`, then removal of every `<` and `>`; an argument that is not a string is returned
  unchanged (`Validation`).

`js_string.dfy` (`JsString`) holds the JavaScript string primitives the script relies on:

- the whitespace class used by both `\s` and `String.prototype.trim`: WhiteSpace and LineTerminator, sections
  12.2 and 12.3 of ECMA-262;
- `String.prototype.includes`;
- the decimal rendering of an integer inside a template literal.

`wrappers.dfy` holds `Option` and `Result`.

Three details of the code that are easy to misread:

- Trimming runs before the removal of `<` and `>` (`frontend-config.js:250`), so `"< a"` becomes `" a"`
  (`SanitizeNotIdempotent`).
- In the phone pattern, `\s` accepts every ECMA-262 whitespace and line-terminator character, not only the
  space.
- A source comment calls the backoff "exponential". It is linear (`RetryDelays`).

## Model

| member | source | states |
|---|---|---|
| Config.EnvironmentOf | frontend-config.js:10-11 | Local exactly for the hostnames `localhost` and `127.0.0.1`; otherwise Production exactly when the protocol is `https:`, and Clinic exactly when it is not; the three cases are exclusive and cover every location |
| Config.GetBackendUrl | frontend-config.js:64-72 | the backend URL is the `BACKEND_URL` entry of the environment the location classifies into |
| Config.GetFrontendUrl | frontend-config.js:77-85 | the frontend URL is the `FRONTEND_URL` entry of the environment the location classifies into |
| Config.SameVariant | frontend-config.js:64-85 | the backend and frontend URLs always come from the same environment variant |
| Config.LocalBackendOnlyOnLocalhost | frontend-config.js:64-72 | the local backend is selected if and only if the hostname is `localhost` or `127.0.0.1` |
| Config.GetApiUrl | frontend-config.js:90-100 | `null` (None) exactly for a name outside the five endpoints; otherwise the backend base URL followed by the endpoint's path |
| Config.ApiUrlInjective | frontend-config.js:90-100 | two endpoints that resolve to the same URL are the same endpoint |
| JsString.Includes | frontend-config.js:151 | `includes` is true exactly when the pattern occurs at some index of the string |
| JsString.NatToString | frontend-config.js:143 | the rendering of the status is a non-empty string of decimal digits whose left-to-right decimal value is the status, with no leading zero |
| FetchPolicy.EnhancedFetch | frontend-config.js:105-160 | no contract of its own; specified by the rows `UnknownEndpointFailsFast`, `AtMostMaxRetriesPlusOneRequests`, `HttpStatusErrorNotRetried`, `EveryAttemptAborted` and `SentHeaders` |
| FetchPolicy.RetryLoop | frontend-config.js:149-158 | no contract of its own; specified by the rows `RetryDelays`, `RetriedAttempts`, `FinalAttempt` and `NonRetryableFailsOnFirstAttempt` |
| FetchPolicy.PrepareOptions | frontend-config.js:124-130 | no contract of its own; specified by the row `CsrfHeaderRule`, and by `AttemptsSendOnce` with `UndefinedHeadersErrorNotRetryable` for the throwing case |
| FetchPolicy.SetCsrfHeader | frontend-config.js:128 | no contract of its own; specified by the row `CsrfHeaderRule` for a headers object and by `UndefinedHeadersErrorNotRetryable` for missing headers |
| FetchPolicy.IsRetryable | frontend-config.js:151 | no contract of its own; specified by the rows `RetriedAttempts`, `UndefinedHeadersErrorNotRetryable` and `HttpErrorNotRetryable` |
| FetchPolicy.MergeOptions | frontend-config.js:112-121 | the merge has the keys of both objects; every caller property wins as a whole; every other default is kept |
| FetchPolicy.GetCsrfToken | frontend-config.js:165-174 | a token is returned exactly when the reply parsed and carries a non-empty token, and it is that token; on any failure the result is `null`, never an error |
| FetchPolicy.CsrfHeaderRule | frontend-config.js:124-130 | with a headers object, preparing never throws; `X-CSRF-Token` is set to the token exactly when CSRF is enabled, the endpoint is not `csrf` and the token is non-empty; otherwise the options are unchanged; no other header or option changes |
| FetchPolicy.UnknownEndpointFailsFast | frontend-config.js:106-110 | an unknown endpoint fails with `Invalid endpoint: <name>`, sends no request and is not retried |
| FetchPolicy.RetryDelays | frontend-config.js:150-155 | at most `maxRetries - retries` waits, wait `i` lasting `1000 * (retries + i + 1)` ms |
| FetchPolicy.RetriedAttempts | frontend-config.js:149-158 | every attempt followed by a wait failed with a retryable error while its counter was below the cap; each such attempt sent exactly one request; at most one more request is sent than there are waits |
| FetchPolicy.FinalAttempt | frontend-config.js:142-158 | the call ends with the outcome of its last attempt; that attempt was not retried; its request, if any, is the last one sent |
| FetchPolicy.AttemptsSendOnce | frontend-config.js:123-147 | each attempt makes at most one request to the endpoint URL; an attempt that makes none failed with a non-retryable error |
| FetchPolicy.UndefinedHeadersErrorNotRetryable | frontend-config.js:124-151 | the TypeError from writing the token into missing headers is never retried |
| FetchPolicy.HttpErrorNotRetryable | frontend-config.js:142-151 | an `HTTP error! status: N` error is never retried, whatever the status |
| FetchPolicy.NonRetryableFailsOnFirstAttempt | frontend-config.js:149-158 | a first failure that is not retryable is the call's result, with no wait and no further attempt |
| FetchPolicy.HttpStatusErrorNotRetried | frontend-config.js:135-158 | a non-2xx response on the first attempt ends the call with the HTTP error after exactly one request and no wait |
| FetchPolicy.AtMostMaxRetriesPlusOneRequests | frontend-config.js:105-160 | a call makes at most `maxRetries + 1` requests to the endpoint URL, and at most `maxRetries - retries + 1` when it starts with counter `retries` |
| FetchPolicy.EveryAttemptAborted | frontend-config.js:132-158 | when every attempt is aborted: `maxRetries - retries + 1` requests to the endpoint URL, waits of 1000, 2000, … ms, and the abort error as the result |
| FetchPolicy.SentHeaders | frontend-config.js:112-138 | every request goes to the resolved URL and carries the caller's headers (or, without them, the default ones), apart from the CSRF token |
| RateLimiting.Prune | frontend-config.js:189-194 | the clean-up loop never lengthens the window |
| RateLimiting.PruneMembers | frontend-config.js:189-194 | the clean-up loop keeps exactly the keys not older than the cutoff, one minute before `now` |
| RateLimiting.Admit | frontend-config.js:185-203 | no contract of its own; specified by the rows `AdmitEffect`, `AdmitKeepsValid`, `SameMillisecond`, `QuietMinuteFreesCapacity` and `BurstWithinAMinute`, and implemented in place by `RateLimiter.CanMakeRequest` |
| RateLimiting.AdmitEffect | frontend-config.js:185-203 | the call is admitted exactly when fewer than `maxRequests` keys survive the clean-up; afterwards the other keys are exactly the surviving ones; `now` is present exactly when admitted or already present; a denial records nothing |
| RateLimiting.AdmitKeepsValid | frontend-config.js:179-203 | every call keeps the keys distinct and their number at most `maxRequests` |
| RateLimiting.SameMillisecond | frontend-config.js:198 | a second call in the same millisecond leaves the window as the first left it, because `Map.set` on an existing key does not grow the map |
| RateLimiting.QuietMinuteFreesCapacity | frontend-config.js:186-199 | after a minute without calls every old key is dropped, and the call is admitted with only `now` recorded |
| RateLimiting.BurstWithinAMinute | frontend-config.js:185-203 | in a burst of calls within one minute, call `i` is admitted exactly when the recorded keys plus `i` are below the cap; the window ends with `min(recorded + calls, cap)` keys |
| RateLimiting.RateLimiter.constructor | frontend-config.js:180-183 | a new limiter has an empty window and takes its cap from `maxRequestsPerMinute` |
| RateLimiting.RateLimiter.CanMakeRequest | frontend-config.js:185-203 | the in-place clean-up and the admission leave exactly the answer and window of `Admit`, and keep `Valid` |
| RateLimiting.RateLimiter.RemainingRequests | frontend-config.js:205-207 | the remaining count is the cap minus the recorded keys; the clamp at zero never applies, since the window never exceeds the cap |
| Validation.IsValidEmail | frontend-config.js:232-235 | no contract of its own; specified by the rows `EmailMatchesPattern`, `EmailHasOneAt` and `EmailExamples` |
| Validation.EmailMatchesPattern | frontend-config.js:232-235 | the matcher accepts a string exactly when it is `L@A.B`, with `L`, `A` and `B` non-empty runs of characters that are neither whitespace nor `@` |
| Validation.EmailHasOneAt | frontend-config.js:233 | an accepted address contains exactly one `@`, not at the start |
| Validation.EmailExamples | frontend-config.js:232-235 | `a@b.com` is accepted; `a@@b` and `a@b.` are rejected |
| Validation.IsValidPhone | frontend-config.js:240-243 | no contract of its own; specified by the rows `PhoneMatchesPattern`, `PhonePlusOnlyLeading` and `PhoneExamples` |
| Validation.PhoneMatchesPattern | frontend-config.js:240-243 | the matcher accepts a string exactly when it is at least ten phone characters (digits, whitespace, `-`, `(`, `)`), optionally after one `+` |
| Validation.PhonePlusOnlyLeading | frontend-config.js:241 | in an accepted number a `+` can stand only first, and with it the number is at least eleven characters long |
| Validation.PhoneExamples | frontend-config.js:240-243 | `+256 700 123456` is accepted; `12345` is rejected |
| Validation.TrimStartIsSuffix | frontend-config.js:250 | trimming the start leaves a suffix after a whitespace-only prefix, beginning with a non-whitespace character |
| Validation.TrimEndIsPrefix | frontend-config.js:250 | trimming the end leaves a prefix before a whitespace-only suffix, ending with a non-whitespace character |
| Validation.Trim | frontend-config.js:250 | no contract of its own; specified by the rows `TrimStartIsSuffix`, `TrimEndIsPrefix`, `TrimIsTrimmedSlice` and `TrimmedSliceUnique` |
| Validation.TrimIsTrimmedSlice | frontend-config.js:250 | `trim` cuts off exactly the leading and trailing whitespace, keeping the middle slice |
| Validation.TrimmedSliceUnique | frontend-config.js:250 | any two ways of cutting off the surrounding whitespace leave the same string |
| Validation.StripAngles | frontend-config.js:250 | after the removal no `<` or `>` is left, and the string is no longer than it was |
| Validation.StripAnglesAppend | frontend-config.js:250 | the removal acts on each piece of a concatenation separately, so the remaining characters keep their order |
| Validation.StripAnglesKeepsClean | frontend-config.js:250 | a string without `<` and `>` is left unchanged |
| Validation.StripAnglesCounts | frontend-config.js:250 | every character other than `<` and `>` keeps its number of occurrences |
| Validation.SanitizeInput | frontend-config.js:248-251 | a value that is not a string is returned unchanged; a string comes back with no `<` or `>` and no longer than it was |
| Validation.SanitizeIsTrimThenStrip | frontend-config.js:248-251 | a sanitized string is the input with its surrounding whitespace cut off and then every `<` and `>` removed |
| Validation.SanitizeNotIdempotent | frontend-config.js:250 | `"< a"` sanitizes to `" a"`, which sanitizes again to `"a"`, because the trim runs before the removal |
| Validation.SanitizeTagExample | frontend-config.js:250 | `<b>hi</b>` sanitizes to `bhi/b` |

## Left out

- The network is a parameter, an oracle indexed by the retry counter. That oracle stands for `fetch`, the JSON
  parsing of the response body and the token request made by `getCSRFToken`.
- The token request's URL and query string (`?form_id=contact_form&expiry=30`) are not modelled; only its
  reply is.
- FetchPolicy.Report: `requests` records only the requests to the endpoint URL. When CSRF is enabled and the
  endpoint is not `csrf`, every attempt also calls `fetch` for the token (`frontend-config.js:126`,
  `frontend-config.js:167`). Those token requests are not recorded, so a default call whose attempts all
  abort makes eight `fetch` calls, of which the report lists four.
- The `AbortController` timer is not modelled. A timeout appears as an attempt the oracle rejects with an
  `AbortError`.
- The `signal` property that each request adds is not modelled.
- The waits are recorded as numbers in the report. The promise and `setTimeout` scheduling is not modelled.
- `Date.now()` is the `now` parameter of `CanMakeRequest`.
- `window.location` is the `Location` parameter.
- Asynchrony and interleaving of concurrent calls on the event loop are not modelled. Each call is a pure run
  of its own attempts.
- `showMessage`, `console.error` and `console.warn` only write output and are not modelled. A log line's
  wording is not part of any contract.
- `CLINIC_INFO` is data that no modelled code reads.
- The module export and the `window` globals are not modelled.
- `enableRateLimiting`, `showSuccessMessage` and `showErrorMessage` are carried in the settings but read by no
  modelled operation. Only `showMessage` reads the latter two.
- FetchPolicy.SetCsrfHeader: writing the token mutates the caller's `headers` object, shared through the
  spread. A retry after a failed token fetch can therefore still carry the earlier token, and the caller sees
  the header afterwards. The model writes into a fresh copy, so it does not capture this aliasing.
- FetchPolicy.EnhancedFetch: the counter `retries` is a natural number. A negative value passed by a caller is
  not modelled.
- FetchPolicy.EnhancedFetch: the `url` is resolved once per call. Re-entering the function resolves the same
  URL again, because it depends only on the location and the endpoint.
- FetchPolicy.GetCsrfToken: a token is modelled as a string. A non-string `token` field (a number, an object)
  that is truthy is not modelled.
- FetchPolicy.OptionValue: option values are strings, numbers, header maps or `undefined`. Other values
  (`null`, arrays, functions) are not modelled.
- JavaScript property lookups through the prototype chain are not modelled. Examples are
  `API_ENDPOINTS['toString']` and a `headers` value that inherits a setter.
- Config.GetApiUrl: an endpoint is one of the five own properties of `API_ENDPOINTS`. A prototype key such
  as `constructor` is treated as unknown, whereas the script would concatenate a function's source text.
- Validation.IsValidEmail and Validation.IsValidPhone take strings. `RegExp.prototype.test` first converts
  any other argument to a string (`undefined` becomes `"undefined"`), and that conversion is not modelled.
- Strings are sequences of Unicode scalar values. JavaScript strings are UTF-16 code units, and a regular
  expression without the `u` flag works on code units. For the classes used here (whitespace, `@`, `.`,
  digits, brackets) the two agree on every character in the Basic Multilingual Plane.
- RateLimiting.RateLimiter: `Map`'s `true` values carry no information, so the window is the sequence of its
  keys in insertion order.
