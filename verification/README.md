# tacticdev-worker in Dafny

A model of the core of the tacticdev-worker repository, a Cloudflare Workers project made of three parts:

- **The error tracker** (`src/error-tracker.ts`). `createErrorFingerprint` groups errors by name, message and a canonical JSON form of their context. `ErrorTracker` counts occurrences per fingerprint and reports the frequent ones, sorted by count. `DocumentationFetcher` matches an error record against two keyword tables (Cloudflare Workers docs and MDN), always adds a Stack Overflow search link, sorts by relevance, and caches the list under the fingerprint until a timer evicts it.
- **The static-site worker** (`src/worker.ts`). It redirects `www.` hosts to the apex, and serves files from an R2 bucket under a prefix: `ext`, `join`, the content-type table, the cache policy, the `index.html` fallback for extensionless routes, and the `..` refusal. It also validates the contact form and relays it to a mail service.
- **The homepage handler** (`src/index.ts`, lines 931-976). GET and HEAD serve the page. POST `/contact` validates the same form and sends nothing.

Every operation is a pure function of its inputs. The clock (`Date.now()`) is an argument `now`. The bucket is a map from keys to objects. The mail relay's answer is an argument. The asynchronous eviction timer is a list of pending timers, and the due ones run before the next call.

Module layout, one module per file:

- `Options` holds the `Option` type.
- `Strings` holds JavaScript white space, `trim`, `includes` and `startsWith`.
- `Ranking` is a stable descending sort by an integer rank. JavaScript's `Array.prototype.sort` has been stable since ES2019.
- `Fingerprint` covers `createErrorFingerprint` and the `JSON.stringify` of a context with sorted keys.
- `Tracker` is `ErrorTracker`.
- `UriEncoding` is `encodeURIComponent`.
- `Documentation` is `DocumentationFetcher`.
- `Http` holds the slice of URL, Request and Response the handlers use.
- `Paths` holds `ext`, `join` and key normalisation.
- `ContactForm` holds the e-mail pattern and the field checks both handlers share.
- `StaticSite` is `src/worker.ts`.
- `Homepage` is the handler of `src/index.ts`.

`clearCache()` empties the cache but does not cancel the `setTimeout` evictions already pending (src/error-tracker.ts:148-150, 235-237). A timer set before `clearCache()` still deletes whatever is cached under its fingerprint when it fires, including a list fetched again after the clear. `Documentation.StaleTimerEvictsNewEntry` shows this.

## Model

| member | source | states |
|---|---|---|
| Fingerprint.BeforeTotal | src/error-tracker.ts:28 | the key order of `Object.keys(context).sort()` relates any two distinct keys |
| Fingerprint.BeforeTransitive | src/error-tracker.ts:28 | that key order is transitive |
| Fingerprint.BeforeAsymmetric | src/error-tracker.ts:28 | that key order is asymmetric, so it is a strict total order |
| Fingerprint.SortKeys | src/error-tracker.ts:28 | sorting the keys permutes the context's properties and, for distinct keys, puts them in ascending key order |
| Fingerprint.AscendingUnique | src/error-tracker.ts:28 | two key-ascending orderings of the same properties are equal, so the sorted form does not depend on insertion order |
| Fingerprint.EscapeInjective | src/error-tracker.ts:28 | JSON string escaping is injective and prefix-free up to the closing quote |
| Fingerprint.QuoteInjective | src/error-tracker.ts:28 | a quoted JSON string can be split off the front of a text in one way only |
| Fingerprint.MemberInjective | src/error-tracker.ts:28 | a `"key":"value"` member can be split off the front of a text in one way only |
| Fingerprint.MembersInjective | src/error-tracker.ts:28 | the serialised member list determines the properties and their order |
| Fingerprint.Canon | src/error-tracker.ts:28 | the serialisation is empty exactly without a context, and otherwise a JSON object text from '{' to '}' |
| Fingerprint.CreateFingerprint | src/error-tracker.ts:26-31 | the fingerprint starts with the name, ':', the message and ':', and ends with ':' exactly when no context is given |
| Fingerprint.FingerprintIdentifiesContext | src/error-tracker.ts:26-31 | for one error, two fingerprints are equal exactly when both contexts are absent or both hold the same properties in any order |
| Fingerprint.NameAndMessageCanCollide | src/error-tracker.ts:30 | the ':' separator is not escaped, so any two errors whose name, ':' and message spell the same text get the same fingerprint for every context |
| Fingerprint.ColonCollisionExample | src/error-tracker.ts:30 | a counterexample to injectivity: the errors `Error:x`/`y` and `Error`/`x:y` differ but share a fingerprint |
| Tracker.Track | src/error-tracker.ts:47-71 | a known fingerprint gets its count raised by one and its last-seen time set to now, with nothing else changed; a new one gets a record with count 1, first and last seen now, and is appended to the insertion order, which is otherwise unchanged; no other record changes and the tracker stays consistent |
| Tracker.CountIsNumberOfTracks | src/error-tracker.ts:47-71 | after a sequence of tracks a record's count is its old count plus the number of occurrences with its fingerprint; last-seen is the latest one's time; a new record keeps the first occurrence's message, stack, context and time |
| Tracker.TrackAllValid | src/error-tracker.ts:47-71 | tracking keeps every record stored under its own fingerprint with a count of at least one |
| Tracker.IsFrequent | src/error-tracker.ts:76-79 | true exactly when a record exists and its count reaches the threshold |
| Tracker.FrequentOnceThresholdReached | src/error-tracker.ts:76-79 | from an empty tracker, n occurrences of one error give count n, which is frequent exactly when n reaches the threshold |
| Tracker.GetFrequentErrors | src/error-tracker.ts:84-88 | the result is sorted by count, descending, and holds each record whose count reaches the threshold exactly once, and nothing else |
| Tracker.GetAllErrors | src/error-tracker.ts:93-96 | the result is sorted by count, descending, and holds every record exactly once |
| Tracker.AllErrorsTiesInInsertionOrder | src/error-tracker.ts:93-96 | records with equal counts keep the map's insertion order |
| Tracker.GetError | src/error-tracker.ts:101-103 | a record is returned exactly when one is stored under the fingerprint, and it is that record |
| Tracker.NewTracker | src/error-tracker.ts:40-42 | a new tracker holds no record and keeps the given threshold |
| Tracker.Clear | src/error-tracker.ts:108-110 | after clearing, no record is found and the threshold is kept |
| Ranking.SortByRank | src/error-tracker.ts:85-87 | sorting by descending rank permutes its input into descending order |
| Ranking.SortIsStable | src/error-tracker.ts:142 | elements of equal rank keep their relative order |
| Ranking.SortedInputUnchanged | src/error-tracker.ts:142 | an input already in descending order is left as it is |
| UriEncoding.EncodeURIComponent | src/error-tracker.ts:221 | the output uses only unreserved characters and '%', and a message of unreserved characters is left unchanged |
| Documentation.MentionsMessageOrStack | src/error-tracker.ts:172-180 | a keyword is found in the message or the stack; without a stack only the message counts, and no other field of the record matters |
| Documentation.SearchTable | src/error-tracker.ts:158-184 | a table search returns at most one result per keyword, each with the provider's source name and relevance |
| Documentation.SearchTableHitsFromTable | src/error-tracker.ts:172-180 | every result comes from a table keyword mentioned in the message or the stack |
| Documentation.SearchTableFindsMentioned | src/error-tracker.ts:172-180 | every table keyword mentioned in the message or the stack yields its result |
| Documentation.SearchTableContents | src/error-tracker.ts:158-215 | a result is in a provider's search exactly when it is the entry of a table keyword the record mentions |
| Documentation.SearchFollowsTableOrder | src/error-tracker.ts:203-212 | the results appear in table order, one per matching keyword |
| Documentation.StackOverflowHit | src/error-tracker.ts:220-230 | the link is the search URL followed by a query of unreserved characters and '%' only, so the message cannot end the parameter or start a fragment; a message of unreserved characters appears as it is |
| Documentation.Resolve | src/error-tracker.ts:134-142 | the computed list is the Cloudflare matches, the MDN matches, then the Stack Overflow link, which is already in descending order of relevance; the link appears once, last |
| Documentation.ResolveContents | src/error-tracker.ts:134-142 | an entry is in the list exactly when it is a matched Cloudflare or MDN entry or the Stack Overflow link |
| Documentation.DueGrowsWithTime | src/error-tracker.ts:148-150 | a fingerprint whose eviction has come due stays due at every later instant |
| Documentation.DueAppend | src/error-tracker.ts:148-150 | setting one more timer adds its fingerprint to the due set exactly when that timer has itself come due |
| Documentation.FireTimers | src/error-tracker.ts:148-150 | running the due timers deletes exactly their fingerprints, keeps the other lists unchanged, and leaves just the timers still pending |
| Documentation.CacheStep | src/error-tracker.ts:128-152 | on a hit the fetcher is left as the due timers left it and the cached list is returned; on a miss the computed list is cached and returned and one timer `cacheTimeout` later is appended |
| Documentation.FetchDocumentation | src/error-tracker.ts:127-153 | a list still cached is returned as it is, and otherwise the list is computed; either way it ends up cached under the fingerprint, and every cached list keeps the result shape |
| Documentation.FetchKeepsOtherEntries | src/error-tracker.ts:127-153 | no other fingerprint's entry is added or changed; an entry disappears only when its timer has come due |
| Documentation.FetchSetsTimer | src/error-tracker.ts:147-150 | a timer `cacheTimeout` after now is added exactly when the list is computed, and only due timers are removed |
| Documentation.NewFetcher | src/error-tracker.ts:120-122 | a new fetcher has an empty cache, no timers and the given timeout |
| Documentation.ClearCache | src/error-tracker.ts:235-237 | clearing empties the cache and does not cancel any timer |
| Documentation.ClearCacheRecomputes | src/error-tracker.ts:235-237 | after clearing, the next fetch computes the list afresh, and that list is not empty |
| Documentation.RepeatFetchIsCached | src/error-tracker.ts:129-132 | a second fetch for the same fingerprint within the timeout returns the first call's list, provided every timer set earlier for that fingerprint has come due by the first call; otherwise an older timer can evict the list in between (see `Documentation.StaleTimerEvictsNewEntry`) |
| Documentation.StaleTimerEvictsNewEntry | src/error-tracker.ts:148-150 | a timer set before `clearCache()` deletes a list cached again after it, before that list's own timeout |
| Http.SetHostnameChangesHref | src/worker.ts:34 | the serialised URL changes exactly when the new host is non-empty and differs from the old one, and then the new host follows `//` |
| Http.MissingFieldReadsBlank | src/worker.ts:80-82 | a field reads blank exactly when it is missing or submitted empty, so the two cannot be told apart; other fields do not affect it |
| Strings.Trim | src/worker.ts:80-82 | the trimmed text is a slice of the input with only white space cut before and after it, and it neither starts nor ends with white space |
| Strings.TrimEmptyIffAllSpace | src/worker.ts:84 | a trimmed field is empty exactly when it held only white space |
| Paths.Lower | src/worker.ts:24 | lower-casing keeps the length and maps each character on its own |
| Paths.Ext | src/worker.ts:24 | the extension is empty exactly when `\.[a-z0-9]+$` has no match; otherwise it is the lower-cased match |
| Paths.ExtShape | src/worker.ts:24 | an extension is a dot followed by at least one lower-case letter or digit |
| Paths.ExtIgnoresDirectories | src/worker.ts:24 | the extension of a key does not depend on the directories above it |
| Paths.DropTrailingSlashes | src/worker.ts:26 | the result is the input up to its run of trailing slashes |
| Paths.DropLeadingSlashes | src/worker.ts:26 | the result is the input after its run of leading slashes |
| Paths.Join | src/worker.ts:25-26 | the joined key is the prefix up to its trailing slashes, one slash, then the key after its leading slashes |
| Paths.JoinAbsorbsSlashes | src/worker.ts:25-26 | an extra slash at the seam does not change the joined key |
| Paths.JoinOfTrimmedParts | src/worker.ts:25-26 | the joined key depends only on the trimmed prefix and key |
| Paths.AppendIndexKeepsDots | src/worker.ts:46-47 | appending `index.html` to a directory key neither creates nor removes a `..` |
| Paths.NormaliseKey | src/worker.ts:44-47 | a path is refused exactly when it contains `..`; otherwise a directory path gets `index.html` appended, and the key never ends in '/' |
| Paths.NormaliseKeyIdempotent | src/worker.ts:44-47 | normalising a normalised key changes nothing |
| ContactForm.MatchShape | src/worker.ts:84 | an address matching the pattern has one '@', no white space, and a dot with characters on both sides after a non-empty local part |
| ContactForm.ShapeMatches | src/worker.ts:84 | every address of that shape matches the pattern |
| ContactForm.PatternIffShape | src/worker.ts:84 | the pattern accepts exactly the addresses of that shape |
| ContactForm.TestEmail | src/worker.ts:84 | a single scan answers exactly as the pattern does |
| ContactForm.AcceptableMeaning | src/worker.ts:80-86 | a form is accepted exactly when name and message each hold something besides white space and the trimmed address has the e-mail shape; a missing field counts as blank |
| StaticSite.ContentType | src/worker.ts:6-22 | a type other than `application/octet-stream` is chosen exactly for the fifteen extensions the table lists |
| StaticSite.CacheControl | src/worker.ts:61-63 | the policy is one of the two, and the short one exactly when the content type mentions `text/html` |
| StaticSite.OnlyHtmlMentionsHtml | src/worker.ts:6-22 | of the table's types and the default, only the HTML type contains `text/html` |
| StaticSite.CachePoliciesDiffer | src/worker.ts:61-63 | the two cache policies are different values |
| StaticSite.HtmlTypeIffHtmlExtension | src/worker.ts:58-63 | only `.html` maps to the HTML type, so only it gets the short, revalidating policy |
| StaticSite.NoExtensionIsOctetStream | src/worker.ts:58 | a key without an extension gets `application/octet-stream` |
| StaticSite.ExtOfIndexKey | src/worker.ts:54 | the fallback key's extension is `.html` |
| StaticSite.ServedKey | src/worker.ts:49-56 | the requested key is served when the bucket holds it; otherwise the fallback is served only for an extensionless key and only when the bucket holds it; otherwise nothing is served; any other served key is `/index.html` for an extensionless request |
| StaticSite.ServeAsWritten | src/worker.ts:49-67 | the worker as written answers 404 when nothing is served; otherwise 200 with the object, its etag, a content type from the requested key's extension, the policy that type selects, and the served object's etag |
| StaticSite.Serve | src/worker.ts:49-67 | the same response with the content type taken from the key actually served |
| StaticSite.ServeCachePolicy | src/worker.ts:58-63 | a served object is sent as HTML, with the short policy, exactly when the served key ends in `.html` |
| StaticSite.FallbackServedAsHtml | src/worker.ts:52-63 | the corrected fallback sends `index.html` as HTML with the short policy |
| StaticSite.AsWrittenFallbackIsOctetStream | src/worker.ts:52-63 | as written, the fallback sends `index.html` as `application/octet-stream` with the one-year immutable policy |
| StaticSite.HandleContact | src/worker.ts:71-108 | a body that is not a form gives 400; any non-empty honeypot gives 200 "OK" and sends nothing; a refused form gives 422; mail is sent exactly for an accepted form, with the trimmed fields, and the relay's answer decides between 200 and 500 |
| StaticSite.Fetch | src/worker.ts:29-68 | the redirect comes first, then POST `/contact`, then static files answered as the worker writes them; only the contact endpoint sends mail; a path with `..` gets 404 |
| StaticSite.FetchCorrected | src/worker.ts:29-68 | the same dispatch with the fallback document typed by the key actually served |
| StaticSite.ServeDiffersOnlyForFallback | src/worker.ts:49-67 | the corrected and as-written responses for a key have the same status and body, and differ only when the fallback stands in for a missing key |
| StaticSite.FetchCorrectedDiffersOnlyForFallback | src/worker.ts:29-68 | the corrected `fetch` gives the same status, body and mail as the worker, and differs from it only for a path answered with the fallback |
| StaticSite.DotDotIgnoresBucket | src/worker.ts:47 | a path with `..` gets 404 whatever the method and whatever the bucket holds |
| StaticSite.WwwRedirectToApex | src/worker.ts:33-36 | the redirect takes precedence over the contact endpoint and points at the apex host |
| StaticSite.BareWwwRedirectsToItself | src/worker.ts:33-36 | the host `www.` redirects to its own URL, because the hostname setter refuses the empty host |
| Homepage.HandleContact | src/index.ts:955-976 | 400 exactly for a body that is not a form; 200 with thanks exactly for a filled trimmed honeypot or an acceptable form; 422 otherwise; only the implied `text/plain;charset=UTF-8` content type as header |
| Homepage.Fetch | src/index.ts:937-953 | POST `/contact` goes to the form handler; GET serves the page and HEAD an empty body, both with the page headers; 404 "Not found" exactly for every other request |
| Homepage.GetIgnoresPath | src/index.ts:944-948 | every GET gets the page with the page headers, whatever the path |
| Homepage.HeadIsGetWithoutBody | src/index.ts:944-948 | HEAD gets the status and headers of GET and no body |
| Homepage.HoneypotIgnoresFields | src/index.ts:961-964 | with a filled honeypot the other fields do not affect the answer |
| Homepage.SameRefusalsAsWorker | src/index.ts:966-973 | without a honeypot value, the homepage refuses with 422 exactly the forms the worker refuses |
| Homepage.BlankHoneypotDividesHandlers | src/index.ts:961-964 | a honeypot of white space only ends the worker's handler with "OK" but is trimmed away by the homepage, which goes on to validate |

## Left out

- Fingerprint.FingerprintIdentifiesContext: the if-and-only-if is proved for contexts whose values are strings. In the source it fails for other values: the sorted key list passed to `JSON.stringify` as a replacer (src/error-tracker.ts:28) also filters the keys of nested objects, and `undefined` and function values are dropped. So `{req: {method: "GET"}}` and `{req: {method: "POST"}}` both serialise as `{"req":{}}`, `{a: undefined}` serialises like `{}`, and each pair shares one fingerprint although the contexts differ.
- Fingerprint.Canon: context values are strings only. Numbers, booleans, nested objects, `undefined` values and `toJSON` are not modelled, and keys are compared by code point rather than by UTF-16 code unit. This only differs for characters outside the Basic Multilingual Plane.
- Lone surrogates in strings are not representable, so their `\uXXXX` escapes in `JSON.stringify` and the `URIError` they raise in `encodeURIComponent` are left out.
- Documentation.NewFetcher: the timeout is a natural number of milliseconds. A negative delay, which `setTimeout` fires at once, and the clamping of delays above 2^31-1 ms by the host are not modelled.
- Tracker.Track, Tracker.GetError, Tracker.GetAllErrors, Tracker.GetFrequentErrors and Documentation.FetchDocumentation: results are values. The source returns the stored record objects and the cached array itself (src/error-tracker.ts:47-103, 131-132, 145), so a later `track()` changes a record a caller already holds, and a caller's mutation changes the tracker or the cache; the model returns snapshots and does not describe that aliasing.
- Counts and timestamps are unbounded integers. Relevances 0.9, 0.8 and 0.7 are the integers 90, 80 and 70, which keeps their order.
- The `async`/`await` structure, the `Headers` object, `Response` bodies as streams, and R2 object bodies are abstract. An object is its id and its `httpEtag`.
- The MailChannels request (its JSON body, addresses and subject) is reduced to the mail handed over and the relay's answer. The relay's failure text is an input, and a failing `r.text()` reads as "".
- `request.formData()` is either a map of text fields or a failure. File fields, repeated fields and `String(file)` are left out.
- URL parsing is assumed done: hostnames arrive lower-cased, URLs carry no credentials, and `Href` is `toString()` for the parts the handlers touch.
- The text of `HOMEPAGE_HTML` and its client script (src/index.ts:1-929) is the abstract body `HomepageDocument`.
- The `/api/errors` report is not modelled as an operation, and neither are the tests. Some test expectations appear as lemmas above (the page and its headers for GET, thanks for a valid contact form). Three do not: test/index.spec.ts:22 looks for text inside the page, which is abstract here, and test/index.spec.ts:41-45 and 47-70 expect a 404 for `/downloads/loom-lang/invalid-file` and a JSON report at `/api/errors`, routes the homepage handler (src/index.ts:936-976) does not have: it answers every GET with the page, as `Homepage.GetIgnoresPath` states.

## Findings

| source | as written | input that shows it | evidently intended | confidence | as-written member | corrected member |
|---|---|---|---|---|---|---|
| src/worker.ts:53-63 | the content type is looked up from the extension of the requested key, even when the fallback `index.html` is served instead | a bucket holding only `<prefix>/index.html` and a request for `/about`: the page is sent as `application/octet-stream` with `public, max-age=31536000, immutable` | the fallback page goes out as `text/html; charset=utf-8` with the short revalidating policy, like `/index.html` itself | not executed | StaticSite.AsWrittenFallbackIsOctetStream | StaticSite.FallbackServedAsHtml |

`StaticSite.ServeAsWritten` and `StaticSite.Fetch` are the worker as written. `StaticSite.Serve` and `StaticSite.FetchCorrected` are the corrected versions, and `StaticSite.FetchCorrectedDiffersOnlyForFallback` shows that the two differ only in the headers of the fallback document.
