/**
 * The Gutendex MCP server's own logic: log truncation, the choice of the widget template,
 * the request URL for the Gutendex `/books` endpoint, the cache-aside fetch through
 * `FileFifoCache`, and the shaping of each book in the tool result.
 */
module GutendexServer {
  import opened Wrappers
  import opened Strings
  import opened Sequences
  import opened Ordering
  import opened Json
  import opened Disk
  import opened Cache

  // ---------------------------------------------------------------- truncate

  /** The default `max` of `truncate`. */
  const TRUNCATE_MAX: nat := 4000

  /** What `truncate` appends after the kept prefix when it drops `n` characters. */
  function TruncationNote(n: nat): string {
    "... [truncated " + NatToString(n) + " chars]"
  }

  /**
   * `truncate(str, max)`: the string itself when it has at most `max` characters, else its
   * first `max` characters followed by a note saying how many were dropped.
   */
  function Truncate(str: string, max: nat): (r: string)
    ensures |str| <= max ==> r == str
    ensures |str| > max ==> |r| > max && r[..max] == str[..max] && r[max..] == TruncationNote(|str| - max)
  {
    if |str| <= max then str else str[..max] + TruncationNote(|str| - max)
  }

  /**
   * A truncated string still tells the length of the original: two strings longer than
   * `max` that truncate to the same text have the same length and the same first `max`
   * characters.
   */
  lemma TruncationKeepsLength(s: string, t: string, max: nat)
    requires |s| > max && |t| > max && Truncate(s, max) == Truncate(t, max)
    ensures |s| == |t| && s[..max] == t[..max]
  {
    var r := Truncate(s, max);
    var ns, nt := NatToString(|s| - max), NatToString(|t| - max);
    assert r[max..] == TruncationNote(|s| - max) == TruncationNote(|t| - max);
    assert ns == TruncationNote(|s| - max)[15..15 + |ns|];
    assert |TruncationNote(|s| - max)| == 22 + |ns| && |TruncationNote(|t| - max)| == 22 + |nt|;
    assert nt == TruncationNote(|t| - max)[15..15 + |nt|];
    NatToStringInjective(|s| - max, |t| - max);
  }

  // ------------------------------------------------- resolveWidgetTemplateUri

  const WIDGET_URI_PREFIX := "ui://widget/"

  /** A file of the assets directory that is a hashed build of the component `name`. */
  predicate IsCandidate(name: string, file: string) {
    StartsWith(file, name + "-") && EndsWith(file, ".html")
  }

  /** `files.filter(...)`: the hashed builds of `name`, in directory order. */
  function Candidates(files: seq<string>, name: string): (r: seq<string>)
    ensures forall f :: f in r <==> f in files && IsCandidate(name, f)
  {
    if files == [] then []
    else
      var init := Candidates(files[..|files| - 1], name);
      var f := files[|files| - 1];
      assert files == files[..|files| - 1] + [f];
      if IsCandidate(name, f) then init + [f] else init
  }

  /**
   * `resolveWidgetTemplateUri(name)`: the greatest hashed build of `name` in the assets
   * directory listing (`None` when `readdirSync` throws), or the unversioned file name.
   */
  function ResolveWidgetTemplateUri(name: string, listing: Option<seq<string>>): (uri: string)
    ensures listing.Some? && (exists f :: f in listing.value && IsCandidate(name, f)) ==>
      exists f :: f in listing.value && IsCandidate(name, f) && uri == WIDGET_URI_PREFIX + f &&
        forall g :: g in listing.value && IsCandidate(name, g) ==> LessEq(g, f)
    ensures listing.None? || (forall f :: f in listing.value ==> !IsCandidate(name, f)) ==>
      uri == WIDGET_URI_PREFIX + name + ".html"
  {
    if listing.None? then WIDGET_URI_PREFIX + name + ".html"
    else
      var sorted := Sort(Candidates(listing.value, name));
      SortElements(Candidates(listing.value, name));
      if sorted != [] && sorted[|sorted| - 1] != "" then
        LastIsGreatest(sorted);
        assert sorted[|sorted| - 1] in Candidates(listing.value, name);
        WIDGET_URI_PREFIX + sorted[|sorted| - 1]
      else
        WIDGET_URI_PREFIX + name + ".html"
  }

  // ----------------------------------------------------- the request URL

  const GUTENDEX_BOOKS := "https://gutendex.com/books"

  /** The validated arguments of `gutendex.books.search`; `None` is an absent argument. */
  datatype SearchArgs = SearchArgs(
    search: Option<string>,
    languages: Option<string>,
    authorYearStart: Option<int>,
    authorYearEnd: Option<int>,
    mimeType: Option<string>,
    topic: Option<string>,
    ids: Option<string>,
    copyright: Option<string>,
    sort: Option<string>,
    page: Option<int>,
    pageUrl: Option<string>)

  /** `String(n)` of an optional integer argument. */
  function NumText(n: Option<int>): (r: Option<string>)
    ensures r.Some? <==> n.Some?
    ensures r.Some? ==> r.value != ""
  {
    if n.Some? then Some(IntToString(n.value)) else None
  }

  /** An argument as `set` treats it: absent when undefined or empty. */
  function NonEmpty(v: Option<string>): Option<string> {
    if v.Some? && v.value != "" then v else None
  }

  /** The query names, in the order the request sets them. */
  const PARAM_NAMES: seq<string> := ["search", "languages", "author_year_start", "author_year_end",
    "mime_type", "topic", "ids", "copyright", "sort", "page"]

  lemma ParamNamesDistinct()
    ensures NoDups(PARAM_NAMES)
  {
  }

  /** The ten `set(name, value)` calls of `gutendexFetch`, in their order. */
  function Entries(args: SearchArgs): seq<(string, Option<string>)> {
    [("search", args.search), ("languages", args.languages),
     ("author_year_start", NumText(args.authorYearStart)), ("author_year_end", NumText(args.authorYearEnd)),
     ("mime_type", args.mimeType), ("topic", args.topic), ("ids", args.ids),
     ("copyright", args.copyright), ("sort", args.sort), ("page", NumText(args.page))]
  }

  /** The value of the first pair named `k`. */
  function ParamValue(params: seq<(string, string)>, k: string): (r: Option<string>)
    ensures r.None? <==> forall i :: 0 <= i < |params| ==> params[i].0 != k
    ensures r.Some? ==> (k, r.value) in params
  {
    if params == [] then None
    else if params[0].0 == k then Some(params[0].1)
    else
      assert forall i :: 1 <= i < |params| ==> params[i] == params[1..][i - 1];
      ParamValue(params[1..], k)
  }

  /** No two pairs share a name. */
  predicate UniqueNames(params: seq<(string, string)>) {
    forall i, j :: 0 <= i < j < |params| ==> params[i].0 != params[j].0
  }

  /** Looking a name up in a query with one more pair in front. */
  lemma ParamValueCons(p: (string, string), rest: seq<(string, string)>, n: string)
    ensures ParamValue([p] + rest, n) == if p.0 == n then Some(p.1) else ParamValue(rest, n)
  {
    assert ([p] + rest)[1..] == rest;
  }

  /**
   * `searchParams.set(k, v)`: the first pair named `k` gets the value `v` and the other pairs
   * named `k` go; without such a pair, `(k, v)` is appended.
   */
  function ParamSet(params: seq<(string, string)>, k: string, v: string): (r: seq<(string, string)>)
    ensures ParamValue(r, k) == Some(v)
    ensures forall n :: n != k ==> ParamValue(r, n) == ParamValue(params, n)
    ensures ParamValue(params, k).None? ==> r == params + [(k, v)]
  {
    if params == [] then [(k, v)]
    else if params[0].0 == k then [(k, v)] + WithoutName(params[1..], k)
    else
      var rest := ParamSet(params[1..], k, v);
      assert params == [params[0]] + params[1..];
      ParamSetBehind(params[0], params[1..], rest, k, v);
      [params[0]] + rest
  }

  /** A pair with another name in front of the query stays in front of the result of `set`. */
  lemma ParamSetBehind(p: (string, string), params: seq<(string, string)>, rest: seq<(string, string)>, k: string, v: string)
    requires p.0 != k && ParamValue(rest, k) == Some(v)
    requires forall n :: n != k ==> ParamValue(rest, n) == ParamValue(params, n)
    requires ParamValue(params, k).None? ==> rest == params + [(k, v)]
    ensures ParamValue([p] + rest, k) == Some(v)
    ensures forall n :: n != k ==> ParamValue([p] + rest, n) == ParamValue([p] + params, n)
    ensures ParamValue([p] + params, k).None? ==> [p] + rest == [p] + params + [(k, v)]
  {
    forall n ensures ParamValue([p] + rest, n) == if p.0 == n then Some(p.1) else ParamValue(rest, n)
             ensures ParamValue([p] + params, n) == if p.0 == n then Some(p.1) else ParamValue(params, n) {
      ParamValueCons(p, rest, n);
      ParamValueCons(p, params, n);
    }
  }

  /** The pairs not named `k`, in order. */
  function WithoutName(params: seq<(string, string)>, k: string): (r: seq<(string, string)>)
    ensures ParamValue(r, k).None?
    ensures forall n :: n != k ==> ParamValue(r, n) == ParamValue(params, n)
  {
    if params == [] then []
    else if params[0].0 == k then WithoutName(params[1..], k)
    else [params[0]] + WithoutName(params[1..], k)
  }

  /** The inner `set(k, v)` of `gutendexFetch`: skips an absent or empty value. */
  function SetIfGiven(params: seq<(string, string)>, k: string, v: Option<string>): (r: seq<(string, string)>)
    ensures v.None? || v.value == "" ==> r == params
    ensures v.Some? && v.value != "" ==> ParamValue(r, k) == v
    ensures forall n :: n != k ==> ParamValue(r, n) == ParamValue(params, n)
    ensures ParamValue(params, k).None? ==> r == params || r == params + [(k, v.value)]
  {
    if v.None? || v.value == "" then params else ParamSet(params, k, v.value)
  }

  /** The query that a sequence of `set` calls builds, one call after the other. */
  function BuildQuery(entries: seq<(string, Option<string>)>): (r: seq<(string, string)>)
    ensures forall n :: ParamValue(r, n).Some? ==> n in Names(entries)
  {
    if entries == [] then []
    else
      var init := entries[..|entries| - 1];
      var e := entries[|entries| - 1];
      assert Names(entries) == Names(init) + [e.0];
      SetIfGiven(BuildQuery(init), e.0, e.1)
  }

  /** One more `set` call extends the query of the calls before it. */
  lemma BuildQueryStep(entries: seq<(string, Option<string>)>, k: string, v: Option<string>)
    ensures BuildQuery(entries + [(k, v)]) == SetIfGiven(BuildQuery(entries), k, v)
  {
    assert (entries + [(k, v)])[..|entries|] == entries;
  }

  /** The names of the entries, in order. */
  function Names(entries: seq<(string, Option<string>)>): (r: seq<string>)
    ensures |r| == |entries| && forall i :: 0 <= i < |entries| ==> r[i] == entries[i].0
  {
    seq(|entries|, i requires 0 <= i < |entries| => entries[i].0)
  }

  /** With distinct entry names, no name occurs twice in the query. */
  lemma {:induction false} BuildQueryUnique(entries: seq<(string, Option<string>)>)
    requires NoDups(Names(entries))
    ensures UniqueNames(BuildQuery(entries))
  {
    if entries != [] {
      var init := entries[..|entries| - 1];
      var e := entries[|entries| - 1];
      assert Names(init) == Names(entries)[..|entries| - 1];
      BuildQueryUnique(init);
      var before := BuildQuery(init);
      assert e.0 !in Names(init);
      assert ParamValue(before, e.0).None?;
    }
  }

  /** With distinct entry names, each name carries its entry's value when that is given and not empty. */
  lemma {:induction false} BuildQueryValues(entries: seq<(string, Option<string>)>)
    requires NoDups(Names(entries))
    ensures forall j :: 0 <= j < |entries| ==> ParamValue(BuildQuery(entries), entries[j].0) == NonEmpty(entries[j].1)
  {
    if entries != [] {
      var init := entries[..|entries| - 1];
      var e := entries[|entries| - 1];
      assert Names(init) == Names(entries)[..|entries| - 1];
      BuildQueryValues(init);
      var before := BuildQuery(init);
      assert e.0 !in Names(init);
      assert ParamValue(before, e.0).None?;
      forall j | 0 <= j < |init| ensures ParamValue(BuildQuery(entries), entries[j].0) == NonEmpty(entries[j].1) {
        assert init[j] == entries[j];
        assert Names(entries)[j] != e.0;
      }
    }
  }

  /** The query the first five `set` calls of `gutendexFetch` build, in their order. */
  function FirstFiveParams(args: SearchArgs): seq<(string, string)> {
    var p1 := SetIfGiven([], "search", args.search);
    var p2 := SetIfGiven(p1, "languages", args.languages);
    var p3 := SetIfGiven(p2, "author_year_start", NumText(args.authorYearStart));
    var p4 := SetIfGiven(p3, "author_year_end", NumText(args.authorYearEnd));
    SetIfGiven(p4, "mime_type", args.mimeType)
  }

  /**
   * The query the ten `set` calls of `gutendexFetch` build, in their order: the fold of
   * `set` over `Entries`.
   */
  function QueryParams(args: SearchArgs): (r: seq<(string, string)>)
    ensures r == Query(args)
  {
    var e5 := Entries(args)[..5];
    FirstFiveIsFold(args);
    var e6 := e5 + [("topic", args.topic)];
    BuildQueryStep(e5, "topic", args.topic);
    var e7 := e6 + [("ids", args.ids)];
    BuildQueryStep(e6, "ids", args.ids);
    var e8 := e7 + [("copyright", args.copyright)];
    BuildQueryStep(e7, "copyright", args.copyright);
    var e9 := e8 + [("sort", args.sort)];
    BuildQueryStep(e8, "sort", args.sort);
    BuildQueryStep(e9, "page", NumText(args.page));
    EntriesSplit(args);
    var p6 := SetIfGiven(FirstFiveParams(args), "topic", args.topic);
    var p7 := SetIfGiven(p6, "ids", args.ids);
    var p8 := SetIfGiven(p7, "copyright", args.copyright);
    var p9 := SetIfGiven(p8, "sort", args.sort);
    SetIfGiven(p9, "page", NumText(args.page))
  }

  /**
   * The query of the given arguments, the `set` calls over `Entries` one after the other.
   * It holds exactly the given arguments, once each: a text argument only when it is not
   * empty, a number (`page` included) whenever it is given, and no other name.
   */
  function Query(args: SearchArgs): (q: seq<(string, string)>)
    ensures UniqueNames(q)
    ensures forall n :: ParamValue(q, n).Some? ==> n in PARAM_NAMES
    ensures ParamValue(q, "search") == NonEmpty(args.search)
    ensures ParamValue(q, "languages") == NonEmpty(args.languages)
    ensures ParamValue(q, "author_year_start") == NumText(args.authorYearStart)
    ensures ParamValue(q, "author_year_end") == NumText(args.authorYearEnd)
    ensures ParamValue(q, "mime_type") == NonEmpty(args.mimeType)
    ensures ParamValue(q, "topic") == NonEmpty(args.topic)
    ensures ParamValue(q, "ids") == NonEmpty(args.ids)
    ensures ParamValue(q, "copyright") == NonEmpty(args.copyright)
    ensures ParamValue(q, "sort") == NonEmpty(args.sort)
    ensures ParamValue(q, "page") == NumText(args.page)
  {
    var e := Entries(args);
    ParamNamesDistinct();
    assert Names(e) == PARAM_NAMES;
    BuildQueryUnique(e);
    BuildQueryValues(e);
    var q := BuildQuery(e);
    assert ParamValue(q, e[0].0) == NonEmpty(e[0].1);
    assert ParamValue(q, e[1].0) == NonEmpty(e[1].1);
    assert ParamValue(q, e[2].0) == NonEmpty(e[2].1);
    assert ParamValue(q, e[3].0) == NonEmpty(e[3].1);
    assert ParamValue(q, e[4].0) == NonEmpty(e[4].1);
    assert ParamValue(q, e[5].0) == NonEmpty(e[5].1);
    assert ParamValue(q, e[6].0) == NonEmpty(e[6].1);
    assert ParamValue(q, e[7].0) == NonEmpty(e[7].1);
    assert ParamValue(q, e[8].0) == NonEmpty(e[8].1);
    assert ParamValue(q, e[9].0) == NonEmpty(e[9].1);
    q
  }

  /** The first five entries, one at a time. */
  lemma FirstEntriesSplit(args: SearchArgs)
    ensures Entries(args)[..5] == [] + [("search", args.search)] + [("languages", args.languages)]
      + [("author_year_start", NumText(args.authorYearStart))] + [("author_year_end", NumText(args.authorYearEnd))]
      + [("mime_type", args.mimeType)]
  {
  }

  /** `Entries` is its first five entries followed by the other five, one at a time. */
  lemma EntriesSplit(args: SearchArgs)
    ensures Entries(args) == Entries(args)[..5] + [("topic", args.topic)] + [("ids", args.ids)]
      + [("copyright", args.copyright)] + [("sort", args.sort)] + [("page", NumText(args.page))]
  {
  }

  /** The first five calls are the fold of `BuildQuery` over the first five entries. */
  lemma FirstFiveIsFold(args: SearchArgs)
    ensures FirstFiveParams(args) == BuildQuery(Entries(args)[..5])
  {
    var e0: seq<(string, Option<string>)> := [];
    var e1 := e0 + [("search", args.search)];
    BuildQueryStep(e0, "search", args.search);
    var e2 := e1 + [("languages", args.languages)];
    BuildQueryStep(e1, "languages", args.languages);
    var e3 := e2 + [("author_year_start", NumText(args.authorYearStart))];
    BuildQueryStep(e2, "author_year_start", NumText(args.authorYearStart));
    var e4 := e3 + [("author_year_end", NumText(args.authorYearEnd))];
    BuildQueryStep(e3, "author_year_end", NumText(args.authorYearEnd));
    BuildQueryStep(e4, "mime_type", args.mimeType);
    FirstEntriesSplit(args);
  }

  /** One pair of a query string: `name=value`, both sides form-encoded by `encode`. */
  function PairText(p: (string, string), encode: string -> string): string {
    encode(p.0) + "=" + encode(p.1)
  }

  /** `URLSearchParams.toString()`: the pairs' texts joined by `&`. */
  function Serialize(params: seq<(string, string)>, encode: string -> string): (r: string)
    ensures params == [] ==> r == ""
    ensures |params| == 1 ==> r == PairText(params[0], encode)
  {
    Join(seq(|params|, i requires 0 <= i < |params| => PairText(params[i], encode)), "&")
  }

  /** Every pair is written, in query order: one more pair adds `&` and its text at the end. */
  lemma SerializeSnoc(params: seq<(string, string)>, p: (string, string), encode: string -> string)
    ensures Serialize(params + [p], encode) ==
      if params == [] then PairText(p, encode) else Serialize(params, encode) + "&" + PairText(p, encode)
  {
    var parts := seq(|params|, i requires 0 <= i < |params| => PairText(params[i], encode));
    var q := params + [p];
    assert seq(|q|, i requires 0 <= i < |q| => PairText(q[i], encode)) == parts + [PairText(p, encode)];
    if params != [] {
      JoinSnoc(parts, PairText(p, encode), "&");
    }
  }

  /** `u.toString()`: a query part only when the query is not empty. */
  function Href(base: string, params: seq<(string, string)>, encode: string -> string): (url: string)
    ensures params == [] ==> url == base
    ensures params != [] ==> StartsWith(url, base + "?")
    ensures params != [] ==> url == base + "?" + Serialize(params, encode)
  {
    if params == [] then base else base + "?" + Serialize(params, encode)
  }

  /**
   * The URL that `gutendexFetch` requests and caches under: a truthy `pageUrl` verbatim,
   * otherwise `https://gutendex.com/books` with the query of the given arguments.
   */
  method RequestUrl(args: SearchArgs, encode: string -> string) returns (url: string)
    ensures args.pageUrl.Some? && args.pageUrl.value != "" ==> url == args.pageUrl.value
    ensures !(args.pageUrl.Some? && args.pageUrl.value != "") ==> url == Href(GUTENDEX_BOOKS, Query(args), encode)
  {
    if args.pageUrl.Some? && args.pageUrl.value != "" {
      url := args.pageUrl.value;
    } else {
      var params: seq<(string, string)> := [];
      params := SetIfGiven(params, "search", args.search);
      params := SetIfGiven(params, "languages", args.languages);
      params := SetIfGiven(params, "author_year_start", NumText(args.authorYearStart));
      params := SetIfGiven(params, "author_year_end", NumText(args.authorYearEnd));
      params := SetIfGiven(params, "mime_type", args.mimeType);
      params := SetIfGiven(params, "topic", args.topic);
      params := SetIfGiven(params, "ids", args.ids);
      params := SetIfGiven(params, "copyright", args.copyright);
      params := SetIfGiven(params, "sort", args.sort);
      if args.page.Some? {
        params := SetIfGiven(params, "page", NumText(args.page));
      }
      assert params == QueryParams(args);
      url := Href(GUTENDEX_BOOKS, params, encode);
    }
  }

  /** Without any non-empty argument the request is the bare `/books` endpoint. */
  lemma NoArgumentsBareUrl(args: SearchArgs, encode: string -> string)
    requires NonEmpty(args.search).None? && NonEmpty(args.languages).None? && NonEmpty(args.mimeType).None?
    requires NonEmpty(args.topic).None? && NonEmpty(args.ids).None? && NonEmpty(args.copyright).None?
    requires NonEmpty(args.sort).None? && args.authorYearStart.None? && args.authorYearEnd.None? && args.page.None?
    ensures Href(GUTENDEX_BOOKS, Query(args), encode) == GUTENDEX_BOOKS
  {
    var q := Query(args);
    assert forall i :: 0 <= i < |q| ==> ParamValue(q, q[i].0).Some?;
  }

  // ------------------------------------------------------- gutendexFetch

  /**
   * What `fetch(url)` settles to: a rejection carrying the error's message, or a response
   * whose body is the text `resp.json()` parses.
   */
  datatype FetchOutcome =
    | Rejected(message: string)
    | Responded(ok: bool, status: int, statusText: string, body: Text)

  /**
   * `gutendexFetch(args)`: cache-aside. A truthy cached value is returned as is; otherwise
   * the outcome of `fetch` (a parameter here) is checked, and on success its parsed body is
   * written to the cache under the request URL and returned. A rejected fetch, a failure
   * status and a body that is not JSON all end in an error with nothing written.
   */
  method GutendexFetch(cache: FileFifoCache, disk: Disk, args: SearchArgs, encode: string -> string,
                       readFaults: ReadFaults, resp: FetchOutcome, writeFaults: WriteFaults) returns (r: Result<Json>)
    modifies disk
    ensures var url := if args.pageUrl.Some? && args.pageUrl.value != "" then args.pageUrl.value
                       else Href(GUTENDEX_BOOKS, Query(args), encode);
      var cached := cache.ReadValue(old(disk.files), url, readFaults);
      (Truthy(cached) ==> r == Ok(cached) && disk.files == old(disk.files)) &&
      (!Truthy(cached) && resp.Rejected? ==> r == Err(resp.message) && disk.files == old(disk.files)) &&
      (!Truthy(cached) && resp.Responded? && !resp.ok ==>
        r == Err("Gutendex request failed: " + IntToString(resp.status) + " " + resp.statusText) &&
        disk.files == old(disk.files)) &&
      (!Truthy(cached) && resp.Responded? && resp.ok && Parse(resp.body).None? ==>
        r.Err? && disk.files == old(disk.files)) &&
      (!Truthy(cached) && resp.Responded? && resp.ok && Parse(resp.body).Some? ==>
        r == Ok(Parse(resp.body).value) &&
        disk.files == cache.WriteResult(old(disk.files), url, Parse(resp.body).value, writeFaults))
  {
    var url := RequestUrl(args, encode);
    var cached := cache.Read(disk, url, readFaults);
    if Truthy(cached) {
      return Ok(cached);
    }
    if resp.Rejected? {
      return Err(resp.message);
    }
    if !resp.ok {
      return Err("Gutendex request failed: " + IntToString(resp.status) + " " + resp.statusText);
    }
    var data := Parse(resp.body);
    if data.None? {
      return Err(BODY_NOT_JSON);
    }
    cache.Write(disk, url, data.value, writeFaults);
    return Ok(data.value);
  }

  /** Stands for the `SyntaxError` message `resp.json()` rejects with. */
  const BODY_NOT_JSON := "response body is not valid JSON"

  /**
   * Cache-aside pays off: after a successful fetch whose body is truthy has been written
   * without faults, the next read of the same URL is a hit returning that body, provided
   * the URL survives eviction and no other cached URL shares its digest.
   */
  lemma SecondFetchHits(c: FileFifoCache, files: map<string, Text>, url: string, body: Json)
    requires c.Valid() && c.capacity >= 1 && Truthy(body)
    requires var order := c.StoredOrder(files, false);
      (Str(url) !in order || |order| <= c.capacity) &&
      forall k :: Str(k) in order && k != url ==> c.hashKey(k) != c.hashKey(url)
    ensures var after := c.WriteResult(files, url, body, NO_WRITE_FAULTS);
      var cached := c.ReadValue(after, url, ReadFaults(false, false));
      Truthy(cached) && cached == body
  {
    ReadAfterWrite(c, files, url, body, NO_WRITE_FAULTS);
  }

  // ------------------------------------------------------- result mapping

  /** `x ?? d`: `d` when the member is absent or `null`. */
  function OrDefault(v: Option<Json>, d: Json): (r: Json)
    ensures v.Some? && v.value != Null ==> r == v.value
    ensures v.None? || v.value == Null ==> r == d
  {
    if v.None? || v.value == Null then d else v.value
  }

  /** `Array.isArray(x) ? x : []` */
  function ArrayOrEmpty(v: Option<Json>): (r: Json)
    ensures r.Arr?
    ensures v.Some? && v.value.Arr? ==> r == v.value
    ensures v.None? || !v.value.Arr? ==> r == Arr([])
  {
    if v.Some? && v.value.Arr? then v.value else Arr([])
  }

  /** An author as the tool result shows it; a `None` name is an `undefined` member. */
  datatype Author = Author(name: Option<Json>, birthYear: Json, deathYear: Json)

  /** A book as the tool result shows it; `None` for `id` or `title` is an `undefined` member. */
  datatype Book = Book(
    id: Option<Json>,
    title: Option<Json>,
    authors: seq<Author>,
    languages: Json,
    downloadCount: Json,
    mediaType: Json,
    summaries: Json,
    subjects: Json,
    bookshelves: Json,
    coverUrl: Json,
    formats: Json)

  /** `{ name: a.name, birth_year: a.birth_year ?? null, death_year: a.death_year ?? null }`; throws on a `null` author. */
  function MapAuthor(a: Json): (r: Option<Author>)
    ensures r.None? <==> a == Null
    ensures r.Some? ==> r.value.name == Get(a, "name")
    ensures r.Some? && (Get(a, "birth_year").None? || Get(a, "birth_year") == Some(Null)) ==> r.value.birthYear == Null
    ensures r.Some? && (Get(a, "death_year").None? || Get(a, "death_year") == Some(Null)) ==> r.value.deathYear == Null
    ensures r.Some? && Get(a, "birth_year").Some? && Get(a, "birth_year").value != Null ==>
      r.value.birthYear == Get(a, "birth_year").value
    ensures r.Some? && Get(a, "death_year").Some? && Get(a, "death_year").value != Null ==>
      r.value.deathYear == Get(a, "death_year").value
  {
    if a == Null then None
    else Some(Author(Get(a, "name"), OrDefault(Get(a, "birth_year"), Null), OrDefault(Get(a, "death_year"), Null)))
  }

  /** `authors.map(...)`, failing when any author is `null`. */
  function MapAuthors(authors: seq<Json>): (r: Option<seq<Author>>)
    ensures r.Some? <==> Null !in authors
    ensures r.Some? ==> |r.value| == |authors| && forall i :: 0 <= i < |authors| ==> MapAuthor(authors[i]) == Some(r.value[i])
  {
    if authors == [] then Some([])
    else
      var rest := MapAuthors(authors[1..]);
      assert authors == [authors[0]] + authors[1..];
      if authors[0] == Null || rest.None? then None
      else Some([MapAuthor(authors[0]).value] + rest.value)
  }

  /** Whether `formats["image/jpeg"]` is a string. */
  predicate HasJpeg(formats: Json) {
    Get(formats, "image/jpeg").Some? && Get(formats, "image/jpeg").value.Str?
  }

  /**
   * The mapping of one book `b` of `data.results` into the tool result; `None` where the
   * mapping throws: a `null` book, or a `null` among its authors.
   */
  function MapBook(b: Json): (r: Option<Book>)
    ensures r.None? <==> b == Null || (Get(b, "authors").Some? && Get(b, "authors").value.Arr? && Null in Get(b, "authors").value.items)
    ensures r.Some? ==> r.value.formats == OrDefault(Get(b, "formats"), Obj([]))
    ensures r.Some? ==> (r.value.coverUrl.Str? <==> HasJpeg(r.value.formats))
    ensures r.Some? && HasJpeg(r.value.formats) ==> r.value.coverUrl == Get(r.value.formats, "image/jpeg").value
    ensures r.Some? && !HasJpeg(r.value.formats) ==> r.value.coverUrl == Null
    ensures r.Some? ==> r.value.downloadCount == OrDefault(Get(b, "download_count"), Num(0))
    ensures r.Some? ==> r.value.languages == ArrayOrEmpty(Get(b, "languages")) && r.value.summaries == ArrayOrEmpty(Get(b, "summaries"))
    ensures r.Some? ==> r.value.subjects == ArrayOrEmpty(Get(b, "subjects")) && r.value.bookshelves == ArrayOrEmpty(Get(b, "bookshelves"))
    ensures r.Some? ==> r.value.id == Get(b, "id") && r.value.title == Get(b, "title")
    ensures r.Some? ==> r.value.mediaType == OrDefault(Get(b, "media_type"), Null)
    ensures r.Some? ==> var items := ArrayOrEmpty(Get(b, "authors")).items;
      |r.value.authors| == |items| && forall i :: 0 <= i < |items| ==> MapAuthor(items[i]) == Some(r.value.authors[i])
  {
    if b == Null then None
    else
      var formats := OrDefault(Get(b, "formats"), Obj([]));
      var authors := Get(b, "authors");
      var mapped := if authors.Some? && authors.value.Arr? then MapAuthors(authors.value.items) else Some([]);
      if mapped.None? then None
      else
        var jpeg := Get(formats, "image/jpeg");
        var cover := if jpeg.Some? && jpeg.value.Str? then jpeg.value else Null;
        Some(Book(Get(b, "id"), Get(b, "title"), mapped.value, ArrayOrEmpty(Get(b, "languages")),
                  OrDefault(Get(b, "download_count"), Num(0)), OrDefault(Get(b, "media_type"), Null),
                  ArrayOrEmpty(Get(b, "summaries")), ArrayOrEmpty(Get(b, "subjects")),
                  ArrayOrEmpty(Get(b, "bookshelves")), cover, formats))
  }

  /** The books of `data.results` when it is an array, none otherwise. */
  function ResultBooks(data: Json): seq<Json> {
    var results := Get(data, "results");
    if results.Some? && results.value.Arr? then results.value.items else []
  }

  /** `results.map(...)`: `None` if any book throws. */
  function MapResults(data: Json): (r: Option<seq<Book>>)
    ensures var books := ResultBooks(data);
      (r.Some? <==> forall i :: 0 <= i < |books| ==> MapBook(books[i]).Some?) &&
      (r.Some? ==> |r.value| == |books| && forall i :: 0 <= i < |books| ==> MapBook(books[i]) == Some(r.value[i]))
  {
    MapAll(ResultBooks(data), MapBook)
  }

  /** `xs.map(f)` for a mapping `f` that may throw (`None`): throws when any element does. */
  function MapAll<A, B>(xs: seq<A>, f: A -> Option<B>): (r: Option<seq<B>>)
    ensures r.Some? <==> forall i :: 0 <= i < |xs| ==> f(xs[i]).Some?
    ensures r.Some? ==> |r.value| == |xs| && forall i :: 0 <= i < |xs| ==> f(xs[i]) == Some(r.value[i])
  {
    if xs == [] then Some([])
    else
      var rest := MapAll(xs[1..], f);
      assert forall i :: 1 <= i < |xs| ==> xs[i] == xs[1..][i - 1];
      if f(xs[0]).None? || rest.None? then None
      else Some([f(xs[0]).value] + rest.value)
  }

}
