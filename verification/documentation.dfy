/** `DocumentationFetcher` (src/error-tracker.ts). Two fixed keyword tables, one for the
    Cloudflare Workers documentation and one for MDN, are matched against the record's
    message and stack; a Stack Overflow search link is always added; the list is sorted
    by relevance and cached under the fingerprint. Relevances 0.9, 0.8 and 0.7 are the
    integers 90, 80 and 70. Nothing here touches the network, so every operation is a
    pure function of the fetcher, the record and the clock reading `now`. */
module Documentation {
  import opened Options
  import opened Strings
  import opened Ranking
  import opened Tracker
  import opened UriEncoding

  /** `DocumentationResult`. */
  datatype DocumentationResult = DocumentationResult(
    source: string,
    url: string,
    snippet: string,
    relevance: int)

  /** The rank `fetchDocumentation` sorts by. */
  function RelevanceOf(d: DocumentationResult): int {
    d.relevance
  }

  /** The two keyword-table searches. */
  datatype Provider = Cloudflare | Mdn

  function SourceName(p: Provider): string {
    match p
    case Cloudflare => "Cloudflare Workers Docs"
    case Mdn => "MDN Web Docs"
  }

  function Relevance(p: Provider): int {
    match p
    case Cloudflare => 90
    case Mdn => 80
  }

  function Snippet(p: Provider, keyword: string): string {
    match p
    case Cloudflare => "Documentation for " + keyword + " in Cloudflare Workers"
    case Mdn => "MDN documentation for " + keyword
  }

  /** The keys of the two lookup tables. */
  datatype Keyword =
    | R2 | KV | Fetch | Response | Request | Headers | FormData
    | TypeError | ReferenceError | SyntaxError | RangeError | Json | Promise | Async

  /** The text searched for in the message and stack. */
  function KeywordText(k: Keyword): string {
    match k
    case R2 => "R2"
    case KV => "KV"
    case Fetch => "fetch"
    case Response => "Response"
    case Request => "Request"
    case Headers => "Headers"
    case FormData => "FormData"
    case TypeError => "TypeError"
    case ReferenceError => "ReferenceError"
    case SyntaxError => "SyntaxError"
    case RangeError => "RangeError"
    case Json => "JSON"
    case Promise => "Promise"
    case Async => "async"
  }

  const CloudflareRuntime: string := "https://developers.cloudflare.com/workers/runtime-apis/"
  const MdnGlobals: string := "https://developer.mozilla.org/en-US/docs/Web/JavaScript/Reference/Global_Objects/"

  /** The page each keyword links to. */
  function DocUrl(k: Keyword): string {
    match k
    case R2 => "https://developers.cloudflare.com/r2/"
    case KV => "https://developers.cloudflare.com/kv/"
    case Fetch => CloudflareRuntime + "fetch/"
    case Response => CloudflareRuntime + "response/"
    case Request => CloudflareRuntime + "request/"
    case Headers => CloudflareRuntime + "headers/"
    case FormData => CloudflareRuntime + "formdata/"
    case TypeError => MdnGlobals + "TypeError"
    case ReferenceError => MdnGlobals + "ReferenceError"
    case SyntaxError => MdnGlobals + "SyntaxError"
    case RangeError => MdnGlobals + "RangeError"
    case Json => MdnGlobals + "JSON"
    case Promise => MdnGlobals + "Promise"
    case Async => "https://developer.mozilla.org/en-US/docs/Web/JavaScript/Reference/Statements/async_function"
  }

  /** Each table's keys, in the order `Object.entries` yields them. */
  function Table(p: Provider): seq<Keyword> {
    match p
    case Cloudflare => [R2, KV, Fetch, Response, Request, Headers, FormData]
    case Mdn => [TypeError, ReferenceError, SyntaxError, RangeError, Json, Promise, Async]
  }

  const StackOverflowSource: string := "Stack Overflow"
  const StackOverflowRelevance: int := 70
  const StackOverflowSearch: string := "https://stackoverflow.com/search?q="

  /** `error.message.includes(keyword) || error.stack?.includes(keyword)`: a
      case-sensitive substring test, and an absent stack never matches. */
  predicate Mentions(e: ErrorRecord, keyword: string) {
    Includes(e.message, keyword) || (e.stack.Some? && Includes(e.stack.value, keyword))
  }

  /** A keyword is found in the message or in the stack; without a stack only the
      message is searched, and the count, times and context play no part. */
  lemma MentionsMessageOrStack(e: ErrorRecord, keyword: string, other: ErrorRecord)
    ensures e.stack.None? ==> (Mentions(e, keyword) <==> Includes(e.message, keyword))
    ensures Includes(e.message, keyword) ==> Mentions(e, keyword)
    ensures e.stack.Some? && Includes(e.stack.value, keyword) ==> Mentions(e, keyword)
    ensures other.message == e.message && other.stack == e.stack ==>
              (Mentions(other, keyword) <==> Mentions(e, keyword))
  {
  }

  /** The result a matched keyword contributes. */
  function Hit(p: Provider, k: Keyword): DocumentationResult {
    DocumentationResult(SourceName(p), DocUrl(k), Snippet(p, KeywordText(k)), Relevance(p))
  }

  /** The search over one table: one result per keyword the record mentions, each
      carrying the provider's name and relevance. */
  function SearchTable(p: Provider, table: seq<Keyword>, e: ErrorRecord): (r: seq<DocumentationResult>)
    ensures |r| <= |table|
    ensures forall d :: d in r ==> d.source == SourceName(p) && d.relevance == Relevance(p)
  {
    if table == [] then []
    else (if Mentions(e, KeywordText(table[0])) then [Hit(p, table[0])] else []) + SearchTable(p, table[1..], e)
  }

  /** Every result of a search comes from a keyword of the table the record mentions. */
  lemma {:induction false} SearchTableHitsFromTable(p: Provider, table: seq<Keyword>, e: ErrorRecord, d: DocumentationResult)
    requires d in SearchTable(p, table, e)
    ensures exists k :: k in table && Hit(p, k) == d && Mentions(e, KeywordText(k))
  {
    if table != [] && !(Mentions(e, KeywordText(table[0])) && d == Hit(p, table[0])) {
      SearchTableHitsFromTable(p, table[1..], e, d);
      var k :| k in table[1..] && Hit(p, k) == d && Mentions(e, KeywordText(k));
      assert k in table;
    }
  }

  /** Every keyword of the table the record mentions yields its result. */
  lemma {:induction false} SearchTableFindsMentioned(p: Provider, table: seq<Keyword>, e: ErrorRecord, k: Keyword)
    requires k in table && Mentions(e, KeywordText(k))
    ensures Hit(p, k) in SearchTable(p, table, e)
  {
    if k != table[0] {
      SearchTableFindsMentioned(p, table[1..], e, k);
    }
  }

  /** The keywords of the table the record mentions, in table order. */
  function Matched(table: seq<Keyword>, e: ErrorRecord): seq<Keyword> {
    if table == [] then []
    else (if Mentions(e, KeywordText(table[0])) then [table[0]] else []) + Matched(table[1..], e)
  }

  function Hits(p: Provider, ks: seq<Keyword>): seq<DocumentationResult> {
    if ks == [] then [] else [Hit(p, ks[0])] + Hits(p, ks[1..])
  }

  /** The search yields the matched keywords' results in table order. */
  lemma {:induction false} SearchFollowsTableOrder(p: Provider, table: seq<Keyword>, e: ErrorRecord)
    ensures SearchTable(p, table, e) == Hits(p, Matched(table, e))
  {
    if table != [] {
      SearchFollowsTableOrder(p, table[1..], e);
      HitsAppend(p, if Mentions(e, KeywordText(table[0])) then [table[0]] else [], Matched(table[1..], e));
    }
  }

  lemma {:induction false} HitsAppend(p: Provider, a: seq<Keyword>, b: seq<Keyword>)
    ensures Hits(p, a + b) == Hits(p, a) + Hits(p, b)
  {
    AppendParts(a, b);
    if a != [] {
      HitsAppend(p, a[1..], b);
      AppendAssoc([Hit(p, a[0])], Hits(p, a[1..]), Hits(p, b));
    }
  }

  lemma AppendParts<T>(a: seq<T>, b: seq<T>)
    ensures a == [] ==> a + b == b
    ensures a != [] ==> (a + b)[0] == a[0] && (a + b)[1..] == a[1..] + b
  {
  }

  /** `searchStackOverflow`: the one search link, built from the encoded message. The
      encoded query holds only unreserved characters and '%', so no message can end the
      `q` parameter, add another or start a fragment; a message of unreserved characters
      is passed through as it is. */
  function StackOverflowHit(e: ErrorRecord): (r: DocumentationResult)
    ensures r.source == StackOverflowSource && r.relevance == StackOverflowRelevance
    ensures StartsWith(r.url, StackOverflowSearch)
    ensures forall i :: |StackOverflowSearch| <= i < |r.url| ==> Unreserved(r.url[i]) || r.url[i] == '%'
    ensures (forall i :: 0 <= i < |e.message| ==> Unreserved(e.message[i])) ==>
              r.url == StackOverflowSearch + e.message
  {
    DocumentationResult(
      StackOverflowSource,
      StackOverflowSearch + EncodeURIComponent(e.message),
      "Search Stack Overflow for: " + e.message,
      StackOverflowRelevance)
  }

  /** The shape of every list `fetchDocumentation` returns: sorted by relevance, highest
      first, and ending with the single Stack Overflow entry. */
  predicate WellFormedResults(r: seq<DocumentationResult>) {
    && SortedByRank(r, RelevanceOf)
    && |r| >= 1
    && r[|r| - 1].source == StackOverflowSource
    && forall i :: 0 <= i < |r| - 1 ==> r[i].source != StackOverflowSource
  }

  /** A run of Cloudflare results, then a run of MDN results, then one Stack Overflow
      link is already in decreasing order of relevance. */
  lemma ConcatenationWellFormed(cf: seq<DocumentationResult>, mdn: seq<DocumentationResult>, so: DocumentationResult)
    requires forall d :: d in cf ==> d.source == SourceName(Cloudflare) && d.relevance == Relevance(Cloudflare)
    requires forall d :: d in mdn ==> d.source == SourceName(Mdn) && d.relevance == Relevance(Mdn)
    requires so.source == StackOverflowSource && so.relevance == StackOverflowRelevance
    ensures WellFormedResults(cf + mdn + [so])
  {
    var all := cf + mdn + [so];
    forall i | 0 <= i < |all| - 1
      ensures all[i].source != StackOverflowSource && all[i].relevance >= 80
      ensures i < |cf| ==> all[i].relevance == 90
    {
      if i < |cf| { assert all[i] in cf; } else { assert all[i] == mdn[i - |cf|]; }
    }
    forall i, j | 0 <= i < j < |all| ensures RelevanceOf(all[i]) >= RelevanceOf(all[j]) {
      if j < |all| - 1 && |cf| <= j {
        assert all[j] == mdn[j - |cf|];
        if |cf| <= i { assert all[i] == mdn[i - |cf|]; }
      }
    }
  }

  /** The list computed on a cache miss: the Cloudflare matches in table order, then the
      MDN matches in table order, then the Stack Overflow link. Sorting by relevance
      leaves that concatenation as it is, since it is already in decreasing order. */
  function Resolve(e: ErrorRecord): (r: seq<DocumentationResult>)
    ensures r == SearchTable(Cloudflare, Table(Cloudflare), e) + SearchTable(Mdn, Table(Mdn), e)
                 + [StackOverflowHit(e)]
    ensures WellFormedResults(r)
  {
    var all := SearchTable(Cloudflare, Table(Cloudflare), e) + SearchTable(Mdn, Table(Mdn), e)
               + [StackOverflowHit(e)];
    ConcatenationWellFormed(SearchTable(Cloudflare, Table(Cloudflare), e), SearchTable(Mdn, Table(Mdn), e),
                            StackOverflowHit(e));
    SortedInputUnchanged(all, RelevanceOf);
    SortByRank(all, RelevanceOf)
  }

  /** `d` is the result of a keyword of `p`'s table that the record mentions. */
  predicate FoundIn(p: Provider, e: ErrorRecord, d: DocumentationResult) {
    exists k :: k in Table(p) && Mentions(e, KeywordText(k)) && d == Hit(p, k)
  }

  /** The list holds a table's entry exactly when the record mentions its keyword, and
      nothing else but the Stack Overflow link. */
  lemma ResolveContents(e: ErrorRecord, d: DocumentationResult)
    ensures d in Resolve(e) <==> FoundIn(Cloudflare, e, d) || FoundIn(Mdn, e, d) || d == StackOverflowHit(e)
  {
    var cf := SearchTable(Cloudflare, Table(Cloudflare), e);
    var mdn := SearchTable(Mdn, Table(Mdn), e);
    SearchTableContents(Cloudflare, e, d);
    SearchTableContents(Mdn, e, d);
    InConcatenation(cf, mdn, StackOverflowHit(e), d);
  }

  /** A provider's search holds exactly the results of the keywords the record mentions. */
  lemma SearchTableContents(p: Provider, e: ErrorRecord, d: DocumentationResult)
    ensures d in SearchTable(p, Table(p), e) <==> FoundIn(p, e, d)
  {
    if d in SearchTable(p, Table(p), e) {
      SearchTableHitsFromTable(p, Table(p), e, d);
    }
    if FoundIn(p, e, d) {
      var k :| k in Table(p) && Mentions(e, KeywordText(k)) && d == Hit(p, k);
      SearchTableFindsMentioned(p, Table(p), e, k);
    }
  }

  lemma InConcatenation<T>(a: seq<T>, b: seq<T>, x: T, d: T)
    ensures d in a + b + [x] <==> d in a || d in b || d == x
  {
  }

  // ---------------------------------------------------------------------------------
  // The cache

  /** A pending `setTimeout` that deletes `fingerprint` from the cache at `fireAt`. */
  datatype Timer = Timer(fireAt: int, fingerprint: string)

  /** The fetcher: its timeout, the cache, and the eviction timers not yet run. */
  datatype DocumentationFetcher = DocumentationFetcher(
    cacheTimeout: nat,
    cache: map<string, seq<DocumentationResult>>,
    timers: seq<Timer>)

  /** The constructor's default timeout: one hour in milliseconds. */
  const DefaultCacheTimeout: nat := 3600000

  /** Some timer set for `k` has come due by `now`. */
  predicate EvictedBy(timers: seq<Timer>, now: int, k: string) {
    exists t :: t in timers && t.fireAt <= now && t.fingerprint == k
  }

  function Due(timers: seq<Timer>, now: int): (r: set<string>)
    ensures forall k :: k in r <==> EvictedBy(timers, now, k)
  {
    set t | t in timers && t.fireAt <= now :: t.fingerprint
  }

  /** What has come due stays due: later instants see a superset. */
  lemma DueGrowsWithTime(timers: seq<Timer>, now1: int, now2: int)
    requires now1 <= now2
    ensures Due(timers, now1) <= Due(timers, now2)
  {
    forall k | k in Due(timers, now1) ensures k in Due(timers, now2) {
      assert EvictedBy(timers, now1, k);
      var t :| t in timers && t.fireAt <= now1 && t.fingerprint == k;
      assert EvictedBy(timers, now2, k);
    }
  }

  /** Setting one more timer adds its fingerprint to what is due exactly when it has come
      due itself. */
  lemma DueAppend(timers: seq<Timer>, tm: Timer, now: int)
    ensures Due(timers + [tm], now) == Due(timers, now) + (if tm.fireAt <= now then {tm.fingerprint} else {})
  {
    var extra: set<string> := if tm.fireAt <= now then {tm.fingerprint} else {};
    forall k ensures k in Due(timers + [tm], now) <==> k in Due(timers, now) + extra {
      if EvictedBy(timers + [tm], now, k) {
        var t :| t in timers + [tm] && t.fireAt <= now && t.fingerprint == k;
        if t != tm {
          assert t in timers;
          assert EvictedBy(timers, now, k);
        }
      }
      if EvictedBy(timers, now, k) {
        var t :| t in timers && t.fireAt <= now && t.fingerprint == k;
        assert t in timers + [tm];
        assert EvictedBy(timers + [tm], now, k);
      }
      if k in extra {
        assert tm in timers + [tm];
        assert EvictedBy(timers + [tm], now, k);
      }
    }
  }

  /** The timers that have not come due by `now`, in the order they were set. */
  function Pending(timers: seq<Timer>, now: int): seq<Timer> {
    if timers == [] then []
    else (if timers[0].fireAt > now then [timers[0]] else []) + Pending(timers[1..], now)
  }

  lemma {:induction false} PendingMembers(timers: seq<Timer>, now: int, t: Timer)
    ensures t in Pending(timers, now) <==> t in timers && t.fireAt > now
  {
    if timers != [] {
      PendingMembers(timers[1..], now, t);
    }
  }

  /** The timers whose time has come run before the next call: each deletes its
      fingerprint, whichever entry is stored under it by then. */
  function FireTimers(f: DocumentationFetcher, now: int): (r: DocumentationFetcher)
    ensures r.cacheTimeout == f.cacheTimeout
    ensures forall k :: k in r.cache <==> k in f.cache && !EvictedBy(f.timers, now, k)
    ensures forall k :: k in r.cache ==> r.cache[k] == f.cache[k]
    ensures forall t {:trigger t in r.timers} :: t in r.timers <==> t in f.timers && t.fireAt > now
  {
    forall t ensures t in Pending(f.timers, now) <==> t in f.timers && t.fireAt > now {
      PendingMembers(f.timers, now, t);
    }
    f.(cache := f.cache - Due(f.timers, now), timers := Pending(f.timers, now))
  }

  /** Every cached list has the shape `fetchDocumentation` gives its results. */
  predicate CacheWellFormed(f: DocumentationFetcher) {
    forall k :: k in f.cache ==> WellFormedResults(f.cache[k])
  }

  datatype Fetched = Fetched(fetcher: DocumentationFetcher, results: seq<DocumentationResult>)

  /** One call of `fetchDocumentation` for fingerprint `k` at time `now`, where
      `computed` is the list the searches give. Once the due timers have run, a list
      still cached under `k` is returned as it is; otherwise `computed` is cached and
      returned, and a timer is set to delete it `cacheTimeout` later. */
  function CacheStep(f: DocumentationFetcher, k: string, now: int, computed: seq<DocumentationResult>)
    : (r: Fetched)
    ensures var live := FireTimers(f, now);
            r.results == (if k in live.cache then live.cache[k] else computed)
    ensures k in r.fetcher.cache && r.fetcher.cache[k] == r.results
    ensures r.fetcher.cacheTimeout == f.cacheTimeout
    ensures CacheWellFormed(f) && WellFormedResults(computed) ==>
              CacheWellFormed(r.fetcher) && WellFormedResults(r.results)
    ensures k in FireTimers(f, now).cache ==> r.fetcher == FireTimers(f, now)
    ensures k !in FireTimers(f, now).cache ==>
              r.fetcher.timers == FireTimers(f, now).timers + [Timer(now + f.cacheTimeout, k)]
  {
    var live := FireTimers(f, now);
    assert CacheWellFormed(f) ==> CacheWellFormed(live);
    if k in live.cache then
      Fetched(live, live.cache[k])
    else
      Fetched(live.(cache := live.cache[k := computed],
                    timers := live.timers + [Timer(now + live.cacheTimeout, k)]),
              computed)
  }

  /** `fetchDocumentation(error)` at time `now`: the cache step for the record's
      fingerprint, where a miss computes the list. Either way the list returned is the
      one cached under the fingerprint afterwards, and no other entry changes. */
  function FetchDocumentation(f: DocumentationFetcher, e: ErrorRecord, now: int): (r: Fetched)
    ensures var live := FireTimers(f, now);
            r.results == (if e.fingerprint in live.cache then live.cache[e.fingerprint] else Resolve(e))
    ensures e.fingerprint in r.fetcher.cache && r.fetcher.cache[e.fingerprint] == r.results
    ensures r.fetcher.cacheTimeout == f.cacheTimeout
    ensures CacheWellFormed(f) ==> CacheWellFormed(r.fetcher) && WellFormedResults(r.results)
  {
    CacheStep(f, e.fingerprint, now, Resolve(e))
  }

  /** A fetch stores nothing under any other fingerprint: another entry survives exactly
      when no timer for it has come due, and keeps its list. */
  lemma FetchKeepsOtherEntries(f: DocumentationFetcher, e: ErrorRecord, now: int, k: string)
    requires k != e.fingerprint
    ensures var r := FetchDocumentation(f, e, now).fetcher;
            && (k in r.cache <==> k in f.cache && !EvictedBy(f.timers, now, k))
            && (k in r.cache ==> r.cache[k] == f.cache[k])
  {
    var live := FireTimers(f, now);
    assert k in live.cache <==> k in f.cache && !EvictedBy(f.timers, now, k);
  }

  /** The timers pending after a fetch: those set earlier that have not come due, and,
      on a miss, one new timer for the fingerprint `cacheTimeout` from now. */
  lemma FetchSetsTimer(f: DocumentationFetcher, e: ErrorRecord, now: int, t: Timer)
    ensures t in FetchDocumentation(f, e, now).fetcher.timers <==>
            || (t in f.timers && t.fireAt > now)
            || (e.fingerprint !in FireTimers(f, now).cache && t == Timer(now + f.cacheTimeout, e.fingerprint))
  {
    CacheStepSetsTimer(f, e.fingerprint, now, Resolve(e), t);
  }

  lemma CacheStepSetsTimer(f: DocumentationFetcher, k: string, now: int, computed: seq<DocumentationResult>, t: Timer)
    ensures t in CacheStep(f, k, now, computed).fetcher.timers <==>
            || (t in f.timers && t.fireAt > now)
            || (k !in FireTimers(f, now).cache && t == Timer(now + f.cacheTimeout, k))
  {
    InAppend(FireTimers(f, now).timers, Timer(now + f.cacheTimeout, k), t);
  }

  lemma InAppend<T>(s: seq<T>, x: T, t: T)
    ensures t in s + [x] <==> t in s || t == x
  {
  }

  /** `clearCache()`: the cache empties; timers already set stay pending. */
  function ClearCache(f: DocumentationFetcher): (r: DocumentationFetcher)
    ensures r.cache == map[] && r.timers == f.timers && r.cacheTimeout == f.cacheTimeout
    ensures CacheWellFormed(r)
  {
    f.(cache := map[])
  }

  /** `new DocumentationFetcher(cacheTimeoutMs)`: nothing cached, nothing pending. */
  function NewFetcher(cacheTimeout: nat := DefaultCacheTimeout): (f: DocumentationFetcher)
    ensures f.cache == map[] && f.timers == [] && f.cacheTimeout == cacheTimeout
    ensures CacheWellFormed(f)
  {
    DocumentationFetcher(cacheTimeout, map[], [])
  }

  /** After `clearCache()` the next call computes the list afresh, and that list is never
      empty. */
  lemma ClearCacheRecomputes(f: DocumentationFetcher, e: ErrorRecord, now: int)
    ensures FetchDocumentation(ClearCache(f), e, now).results == Resolve(e)
    ensures |FetchDocumentation(ClearCache(f), e, now).results| >= 1
  {
  }

  /** A second call for the same fingerprint before the timeout has run out returns the
      list of the first call, even for a record whose message or stack differ, provided no
      older timer for that fingerprint is still pending at the first call. */
  lemma RepeatFetchIsCached(f: DocumentationFetcher, e1: ErrorRecord, e2: ErrorRecord, t1: int, t2: int)
    requires e1.fingerprint == e2.fingerprint
    requires forall t :: t in f.timers && t.fingerprint == e1.fingerprint ==> t.fireAt <= t1
    requires t1 <= t2 < t1 + f.cacheTimeout
    ensures var first := FetchDocumentation(f, e1, t1);
            FetchDocumentation(first.fetcher, e2, t2).results == first.results
  {
    CacheStepRepeat(f, e1.fingerprint, Resolve(e1), Resolve(e2), t1, t2);
  }

  lemma CacheStepRepeat(f: DocumentationFetcher, k: string, c1: seq<DocumentationResult>,
                        c2: seq<DocumentationResult>, t1: int, t2: int)
    requires forall t :: t in f.timers && t.fingerprint == k ==> t.fireAt <= t1
    requires t1 <= t2 < t1 + f.cacheTimeout
    ensures var first := CacheStep(f, k, t1, c1);
            CacheStep(first.fetcher, k, t2, c2).results == first.results
  {
    var first := CacheStep(f, k, t1, c1);
    var live1 := FireTimers(f, t1);
    assert k in first.fetcher.cache && first.fetcher.cache[k] == first.results;
    assert !EvictedBy(first.fetcher.timers, t2, k) by {
      assert forall t :: t in live1.timers ==> t in f.timers && t.fireAt > t1;
    }
  }

  /** `clearCache()` does not cancel the timers already set, so a list cached again soon
      after a clear is deleted by the older timer well before its own timeout. */
  lemma StaleTimerEvictsNewEntry(e: ErrorRecord)
    ensures var f0 := NewFetcher(100);
            var f1 := FetchDocumentation(f0, e, 0).fetcher;
            var f2 := FetchDocumentation(ClearCache(f1), e, 50).fetcher;
            && e.fingerprint in f2.cache
            && e.fingerprint !in FireTimers(f2, 100).cache
  {
    var f0 := NewFetcher(100);
    var f1 := FetchDocumentation(f0, e, 0).fetcher;
    assert Timer(100, e.fingerprint) in f1.timers;
    var f2 := FetchDocumentation(ClearCache(f1), e, 50).fetcher;
    assert Timer(100, e.fingerprint) in f2.timers;
  }
}
