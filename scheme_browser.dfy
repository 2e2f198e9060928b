/**
  SchemeBrowser.py: the MFAPI scheme catalog, kept lazily in the browser,
  keyword search over it, and the retrying fetch of one scheme's history.
  HTTP answers are given as oracles; the two catalog cache files under
  data/raw are fields of the browser holding their contents (None when
  the file does not exist).
 */
module SchemeBrowsing {
  import opened Basics
  import opened Sorting
  import opened Text

  /** One catalog row: schemeCode (as text, the way the collector keys it) and schemeName. */
  datatype Scheme = Scheme(code: string, name: string)

  /** One element of a scheme payload's 'data' list. */
  datatype NavPoint = NavPoint(date: string, nav: string)

  /** The JSON object returned for a scheme: its 'data' list and its 'meta' object, each possibly absent. */
  datatype Payload = Payload(data: Option<seq<NavPoint>>, meta: Option<map<string, string>>)

  const BaseUrl: string := "https://api.mfapi.in"
  const DataDir: string := "data/raw"

  /** The URL get_scheme_with_retry requests (line 110). */
  function SchemeUrl(code: string): string {
    BaseUrl + "/mf/" + code
  }

  // ---------------------------------------------------------------------
  // search
  // ---------------------------------------------------------------------

  /**
    str.contains with na=False (lines 44-47), the keyword read as plain text:
    case-sensitive, or after lowercasing both sides.
   */
  predicate Matches(name: string, keyword: string, caseSensitive: bool) {
    if caseSensitive then Contains(name, keyword) else Contains(Lower(name), Lower(keyword))
  }

  /** Line 50: where the lowercased keyword first occurs in the lowercased name, or -1. */
  function MatchPosition(name: string, keyword: string): int {
    Find(Lower(name), Lower(keyword))
  }

  /** Line 51's order: by match_position, smallest first. */
  function ByMatchPosition(keyword: string): (Scheme, Scheme) -> bool {
    (a: Scheme, b: Scheme) => MatchPosition(a.name, keyword) <= MatchPosition(b.name, keyword)
  }

  lemma {:induction false} ByMatchPositionIsTotalPreorder(keyword: string)
    ensures TotalPreorder(ByMatchPosition(keyword))
  {
  }

  /** Line 49: the catalog rows whose name matches, in catalog order. */
  function FilterMatching(catalog: seq<Scheme>, keyword: string, caseSensitive: bool): (r: seq<Scheme>)
    ensures |r| <= |catalog|
  {
    if catalog == [] then []
    else
      var s := catalog[|catalog| - 1];
      FilterMatching(catalog[..|catalog| - 1], keyword, caseSensitive)
        + (if Matches(s.name, keyword, caseSensitive) then [s] else [])
  }

  /** The filter keeps every matching row as often as it occurs, and nothing else. */
  lemma {:induction false} FilterMatchingCount(catalog: seq<Scheme>, keyword: string, caseSensitive: bool, s: Scheme)
    ensures multiset(FilterMatching(catalog, keyword, caseSensitive))[s]
            == if Matches(s.name, keyword, caseSensitive) then multiset(catalog)[s] else 0
  {
    if catalog != [] {
      var init := catalog[..|catalog| - 1];
      FilterMatchingCount(init, keyword, caseSensitive, s);
      assert catalog == init + [catalog[|catalog| - 1]];
    }
  }

  /** search on a loaded catalog (lines 44-53). pandas' sort is not stable; any sorted order is allowed. */
  function SearchCatalog(catalog: seq<Scheme>, keyword: string, caseSensitive: bool): seq<Scheme> {
    SortBy(FilterMatching(catalog, keyword, caseSensitive), ByMatchPosition(keyword))
  }

  /**
    The result holds exactly the matching rows of the catalog (with their
    multiplicity), each with a real match position, in non-decreasing order
    of that position.
   */
  lemma {:induction false} SearchCatalogSpec(catalog: seq<Scheme>, keyword: string, caseSensitive: bool)
    ensures var r := SearchCatalog(catalog, keyword, caseSensitive);
      && (forall s: Scheme :: multiset(r)[s] == if Matches(s.name, keyword, caseSensitive) then multiset(catalog)[s] else 0)
      && (forall i :: 0 <= i < |r| ==> Matches(r[i].name, keyword, caseSensitive) && MatchPosition(r[i].name, keyword) >= 0)
      && (forall i, j :: 0 <= i < j < |r| ==> MatchPosition(r[i].name, keyword) <= MatchPosition(r[j].name, keyword))
  {
    var filtered := FilterMatching(catalog, keyword, caseSensitive);
    var r := SearchCatalog(catalog, keyword, caseSensitive);
    SortByPermutes(filtered, ByMatchPosition(keyword));
    ByMatchPositionIsTotalPreorder(keyword);
    SortBySorted(filtered, ByMatchPosition(keyword));
    forall s: Scheme ensures multiset(r)[s] == if Matches(s.name, keyword, caseSensitive) then multiset(catalog)[s] else 0 {
      FilterMatchingCount(catalog, keyword, caseSensitive, s);
    }
    forall i | 0 <= i < |r| ensures Matches(r[i].name, keyword, caseSensitive) && MatchPosition(r[i].name, keyword) >= 0 {
      assert r[i] in multiset(r);
      FilterMatchingCount(catalog, keyword, caseSensitive, r[i]);
      if caseSensitive {
        ContainsLower(r[i].name, keyword);
      }
    }
    forall i, j | 0 <= i < j < |r| ensures MatchPosition(r[i].name, keyword) <= MatchPosition(r[j].name, keyword) {
      assert ByMatchPosition(keyword)(r[i], r[j]);
    }
  }

  // ---------------------------------------------------------------------
  // get_scheme_with_retry
  // ---------------------------------------------------------------------

  function Pow2(n: nat): (p: nat)
    ensures p >= 1
  {
    if n == 0 then 1 else 2 * Pow2(n - 1)
  }

  /** The sleeps after the first n failed attempts: 2^0, ..., 2^(n-1) seconds. */
  function Backoff(n: nat): (d: seq<nat>)
    ensures |d| == n
  {
    seq(n, i requires 0 <= i < n => Pow2(i))
  }

  function Total(d: seq<nat>): nat {
    if d == [] then 0 else Total(d[..|d| - 1]) + d[|d| - 1]
  }

  /** The total time spent sleeping before the (n+1)-th attempt is 2^n - 1 seconds. */
  lemma {:induction false} BackoffTotal(n: nat)
    ensures Total(Backoff(n)) == Pow2(n) - 1
  {
    if n > 0 {
      BackoffTotal(n - 1);
      assert Backoff(n)[..n - 1] == Backoff(n - 1);
    }
  }

  /** What a call to get_scheme_with_retry yields: its payload, the attempts made and the sleeps taken. */
  datatype RetryRun = RetryRun(payload: Option<Payload>, attempts: nat, delays: seq<nat>)

  /** The attempts from `attempt` on, out of n; respond(url, a) is the outcome of attempt a. */
  function RetryFrom(respond: (string, nat) -> Option<Payload>, url: string, n: nat, attempt: nat): (run: RetryRun)
    ensures run.attempts <= if attempt < n then n else attempt
    decreases n - attempt
  {
    if attempt >= n then RetryRun(None, attempt, [])
    else if respond(url, attempt).Some? then RetryRun(respond(url, attempt), attempt + 1, [])
    else if attempt < n - 1 then
      var rest := RetryFrom(respond, url, n, attempt + 1);
      RetryRun(rest.payload, rest.attempts, [Pow2(attempt)] + rest.delays)
    else RetryRun(None, attempt + 1, [])
  }

  /** get_scheme_with_retry(url, max_retries), lines 107-119; range() of a negative count is empty. */
  function Retry(respond: (string, nat) -> Option<Payload>, url: string, maxRetries: int): RetryRun {
    RetryFrom(respond, url, Clamp(maxRetries), 0)
  }

  lemma {:induction false} RetryFromSpec(respond: (string, nat) -> Option<Payload>, url: string, n: nat, attempt: nat)
    requires attempt <= n
    ensures var run := RetryFrom(respond, url, n, attempt);
      && attempt <= run.attempts <= n
      && (run.payload.Some? ==> attempt < run.attempts && run.payload == respond(url, run.attempts - 1)
                                && forall a :: attempt <= a < run.attempts - 1 ==> respond(url, a).None?)
      && (run.payload.None? ==> run.attempts == n && forall a :: attempt <= a < n ==> respond(url, a).None?)
      && run.delays == Backoff(if attempt < run.attempts then run.attempts - 1 else attempt)[attempt..]
    decreases n - attempt
  {
    var run := RetryFrom(respond, url, n, attempt);
    if attempt < n && respond(url, attempt).None? && attempt < n - 1 {
      RetryFromSpec(respond, url, n, attempt + 1);
      var rest := RetryFrom(respond, url, n, attempt + 1);
      assert Backoff(rest.attempts - 1)[attempt..] == [Pow2(attempt)] + Backoff(rest.attempts - 1)[attempt + 1..];
    }
  }

  /**
    At most max(0, max_retries) attempts; the first successful payload is
    returned at once; None only after every attempt failed; and one sleep of
    2^a seconds after each failed attempt a except the last one made.
   */
  lemma {:induction false} RetrySpec(respond: (string, nat) -> Option<Payload>, url: string, maxRetries: int)
    ensures var run := Retry(respond, url, maxRetries);
      && run.attempts <= Clamp(maxRetries)
      && (run.payload.Some? ==> 1 <= run.attempts && run.payload == respond(url, run.attempts - 1)
                                && forall a :: 0 <= a < run.attempts - 1 ==> respond(url, a).None?)
      && (run.payload.None? ==> run.attempts == Clamp(maxRetries) && forall a :: 0 <= a < run.attempts ==> respond(url, a).None?)
      && run.delays == Backoff(Clamp(run.attempts - 1))
  {
    RetryFromSpec(respond, url, Clamp(maxRetries), 0);
  }

  /** The default three attempts, all failing: None after sleeping 1 and then 2 seconds. */
  lemma {:induction false} RetryThreeFailures(respond: (string, nat) -> Option<Payload>, url: string)
    requires forall a :: respond(url, a).None?
    ensures Retry(respond, url, 3) == RetryRun(None, 3, [1, 2])
  {
    RetrySpec(respond, url, 3);
    assert Backoff(2) == [1, 2];
  }

  /** With max_retries <= 0 nothing is requested. */
  lemma {:induction false} RetryNoAttempt(respond: (string, nat) -> Option<Payload>, url: string, maxRetries: int)
    requires maxRetries <= 0
    ensures Retry(respond, url, maxRetries) == RetryRun(None, 0, [])
  {
  }

  // ---------------------------------------------------------------------
  // The browser object
  // ---------------------------------------------------------------------

  class SchemeBrowser {
    const baseUrl: string := BaseUrl
    const dataDir: string := DataDir
    /** schemes_df: None until a fetch method loads the catalog. */
    var schemes: Option<seq<Scheme>>
    /** Contents of data/raw/Schemes-List.csv, the cache of fetchAllSchemes. */
    var schemesListCache: Option<seq<Scheme>>
    /** Contents of data/raw/all_schemes.csv, the cache of load_or_fetch_schemes. */
    var allSchemesCache: Option<seq<Scheme>>

    /** Lines 7-11, the two cache files as found on disk. */
    constructor (schemesListCache: Option<seq<Scheme>>, allSchemesCache: Option<seq<Scheme>>)
      ensures schemes == None
      ensures this.schemesListCache == schemesListCache && this.allSchemesCache == allSchemesCache
    {
      schemes := None;
      this.schemesListCache := schemesListCache;
      this.allSchemesCache := allSchemesCache;
    }

    /**
      fetchAllSchemes (lines 13-37): the cache file if it exists, else the
      catalog from GET /mf (`remote`, None when the request or its decoding
      fails), which is then cached.
     */
    method FetchAllSchemes(remote: Option<seq<Scheme>>) returns (ok: bool)
      modifies this
      ensures allSchemesCache == old(allSchemesCache)
      ensures old(schemesListCache).Some? ==> ok && schemes == old(schemesListCache) && schemesListCache == old(schemesListCache)
      ensures old(schemesListCache).None? ==> ok == remote.Some?
      ensures old(schemesListCache).None? && remote.Some? ==> schemes == remote && schemesListCache == remote
      ensures old(schemesListCache).None? && remote.None? ==> schemes == old(schemes) && schemesListCache == None
      ensures ok ==> schemes.Some?
    {
      if schemesListCache.Some? {
        schemes := schemesListCache;
        return true;
      }
      if remote.None? {
        return false;
      }
      schemes := remote;
      schemesListCache := remote;
      return true;
    }

    /**
      search (lines 39-53): loads the catalog on first use, None when that
      fails, otherwise the matching rows ordered by match position.
     */
    method Search(keyword: string, caseSensitive: bool, remote: Option<seq<Scheme>>)
      returns (results: Option<seq<Scheme>>)
      modifies this
      ensures allSchemesCache == old(allSchemesCache)
      ensures old(schemes).Some? ==> schemes == old(schemes) && schemesListCache == old(schemesListCache)
      ensures old(schemes).None? && old(schemesListCache).Some? ==>
        schemes == old(schemesListCache) && schemesListCache == old(schemesListCache)
      ensures old(schemes).None? && old(schemesListCache).None? ==> schemes == remote && schemesListCache == remote
      ensures results.None? <==> old(schemes).None? && old(schemesListCache).None? && remote.None?
      ensures results.Some? ==> schemes.Some? && results.value == SearchCatalog(schemes.value, keyword, caseSensitive)
    {
      if schemes.None? {
        var ok := FetchAllSchemes(remote);
        if !ok {
          return None;
        }
      }
      results := Some(SearchCatalog(schemes.value, keyword, caseSensitive));
    }

    /**
      load_or_fetch_schemes (lines 87-105): data/raw/all_schemes.csv if it
      exists, else GET /mf, cached on success; false when the request fails.
     */
    method LoadOrFetchSchemes(remote: Option<seq<Scheme>>) returns (ok: bool)
      modifies this
      ensures schemesListCache == old(schemesListCache)
      ensures old(allSchemesCache).Some? ==> ok && schemes == old(allSchemesCache) && allSchemesCache == old(allSchemesCache)
      ensures old(allSchemesCache).None? ==> ok == remote.Some?
      ensures old(allSchemesCache).None? && remote.Some? ==> schemes == remote && allSchemesCache == remote
      ensures old(allSchemesCache).None? && remote.None? ==> schemes == old(schemes) && allSchemesCache == None
    {
      if allSchemesCache.Some? {
        schemes := allSchemesCache;
        return true;
      }
      if remote.None? {
        return false;
      }
      schemes := remote;
      allSchemesCache := remote;
      return true;
    }

    /**
      get_scheme_with_retry (lines 107-119): respond(url, a) is the outcome
      of attempt a; a failed attempt that is not the last sleeps 2^a seconds,
      recorded in `delays`.
     */
    method GetSchemeWithRetry(schemeCode: string, maxRetries: int, respond: (string, nat) -> Option<Payload>)
      returns (payload: Option<Payload>, attempts: nat, delays: seq<nat>)
      ensures RetryRun(payload, attempts, delays) == Retry(respond, baseUrl + "/mf/" + schemeCode, maxRetries)
    {
      var url := baseUrl + "/mf/" + schemeCode;
      var n := Clamp(maxRetries);
      payload, attempts, delays := None, 0, [];
      for attempt := 0 to n
        invariant attempts == attempt && (attempt == 0 || attempt < n)
        invariant var rest := RetryFrom(respond, url, n, attempt);
          Retry(respond, url, maxRetries) == RetryRun(rest.payload, rest.attempts, delays + rest.delays)
      {
        attempts := attempt + 1;
        var response := respond(url, attempt);
        if response.Some? {
          return response, attempts, delays;
        }
        if attempt < maxRetries - 1 {
          delays := delays + [Pow2(attempt)];
        } else {
          return None, attempts, delays;
        }
      }
    }
  }
}
