/**
 * The helpers of the Gutendex search widget: which download link and which cover a book
 * shows, how many chips a list shows, the de-duplicated tags of a book, and when the
 * pager may fetch another page.
 */
module GutendexSearch {
  import opened Wrappers
  import opened Json
  import opened Sequences

  // ---------------------------------------------------------------------------------------
  // Formats

  /** `book?.formats || {}`: the formats member, or an empty object when it is missing or falsy. */
  function Formats(book: Json): (fmts: Json)
    ensures fmts == Obj([]) || Get(book, "formats") == Some(fmts)
    ensures Get(book, "formats").Some? && Truthy(Get(book, "formats").value) ==> fmts == Get(book, "formats").value
    ensures !(Get(book, "formats").Some? && Truthy(Get(book, "formats").value)) ==> fmts == Obj([])
  {
    var f := Get(book, "formats");
    if f.Some? && Truthy(f.value) then f.value else Obj([])
  }

  /** `fmts[k]` is truthy. */
  predicate TruthyAt(fmts: Json, k: string) {
    var v := Get(fmts, k);
    v.Some? && Truthy(v.value)
  }

  /** The MIME types `bestFormatUrl` prefers, best first. */
  const FORMAT_PRIORITY: seq<string> := [
    "text/html; charset=utf-8",
    "text/html",
    "text/plain; charset=us-ascii",
    "text/plain; charset=utf-8",
    "text/plain"
  ]

  /** The position of the first candidate whose entry is truthy. */
  function FirstTruthyIndex(fmts: Json, candidates: seq<string>): (r: Option<nat>)
    ensures r.None? <==> forall i :: 0 <= i < |candidates| ==> !TruthyAt(fmts, candidates[i])
    ensures r.Some? ==> (r.value < |candidates| && TruthyAt(fmts, candidates[r.value]) &&
      forall j :: 0 <= j < r.value ==> !TruthyAt(fmts, candidates[j]))
  {
    if candidates == [] then None
    else if TruthyAt(fmts, candidates[0]) then Some(0)
    else
      var r := FirstTruthyIndex(fmts, candidates[1..]);
      assert forall i :: 1 <= i < |candidates| ==> candidates[i] == candidates[1..][i - 1];
      if r.None? then None else Some(r.value + 1)
  }

  /** The loop over the candidates: the value of the first one whose entry is truthy. */
  function FirstTruthy(fmts: Json, candidates: seq<string>): (r: Option<Json>)
    ensures r.None? <==> forall i :: 0 <= i < |candidates| ==> !TruthyAt(fmts, candidates[i])
    ensures r.Some? ==> exists i :: (0 <= i < |candidates| && TruthyAt(fmts, candidates[i]) &&
      Get(fmts, candidates[i]) == Some(r.value) &&
      forall j :: 0 <= j < i ==> !TruthyAt(fmts, candidates[j]))
  {
    var i := FirstTruthyIndex(fmts, candidates);
    if i.None? then None else Get(fmts, candidates[i.value])
  }

  /**
   * `Object.values(fmts)`: the member values of an object, the elements of an array, the
   * characters of a string, and nothing for other values.
   */
  function FormatValues(fmts: Json): (vs: seq<Json>)
    ensures fmts.Obj? ==> |vs| == |fmts.members| && forall i :: 0 <= i < |vs| ==> vs[i] == fmts.members[i].1
    ensures fmts.Arr? ==> vs == fmts.items
    ensures fmts.Str? ==> |vs| == |fmts.s| && forall i :: 0 <= i < |vs| ==> vs[i] == Str([fmts.s[i]])
    ensures !(fmts.Obj? || fmts.Arr? || fmts.Str?) ==> vs == []
  {
    match fmts
    case Obj(members) => seq(|members|, i requires 0 <= i < |members| => members[i].1)
    case Arr(items) => items
    case Str(s) => seq(|s|, i requires 0 <= i < |s| => Str([s[i]]))
    case _ => []
  }

  /**
   * `bestFormatUrl(book)`: the entry of the first preferred MIME type that is truthy; when
   * there is none, the first format value if it is a string, and `null` otherwise.
   */
  function BestFormatUrl(book: Json): (url: Json)
    ensures var hit := FirstTruthy(Formats(book), FORMAT_PRIORITY);
      hit.Some? ==> url == hit.value && Truthy(url)
    ensures var values := FormatValues(Formats(book));
      FirstTruthy(Formats(book), FORMAT_PRIORITY).None? ==>
        (url != Null <==> values != [] && values[0].Str?) && (url != Null ==> url == values[0])
  {
    var fmts := Formats(book);
    var hit := FirstTruthy(fmts, FORMAT_PRIORITY);
    if hit.Some? then hit.value
    else
      var values := FormatValues(fmts);
      if values != [] && values[0].Str? then values[0] else Null
  }

  /** The preferred entry wins: the first truthy priority type decides, whatever comes after it. */
  lemma BestFormatPrefersPriority(book: Json, i: nat)
    requires i < |FORMAT_PRIORITY| && TruthyAt(Formats(book), FORMAT_PRIORITY[i])
    requires forall j :: 0 <= j < i ==> !TruthyAt(Formats(book), FORMAT_PRIORITY[j])
    ensures Some(BestFormatUrl(book)) == Get(Formats(book), FORMAT_PRIORITY[i])
    ensures Truthy(BestFormatUrl(book))
  {
    var fmts := Formats(book);
    var hit := FirstTruthy(fmts, FORMAT_PRIORITY);
    var k :| 0 <= k < |FORMAT_PRIORITY| && TruthyAt(fmts, FORMAT_PRIORITY[k]) &&
      Get(fmts, FORMAT_PRIORITY[k]) == Some(hit.value) &&
      forall j :: 0 <= j < k ==> !TruthyAt(fmts, FORMAT_PRIORITY[j]);
    assert k == i;
  }

  /** Without a truthy preferred entry the first value is used when it is a string, and `null` otherwise. */
  lemma BestFormatFallback(book: Json)
    requires forall i :: 0 <= i < |FORMAT_PRIORITY| ==> !TruthyAt(Formats(book), FORMAT_PRIORITY[i])
    ensures var values := FormatValues(Formats(book));
      BestFormatUrl(book) == if values != [] && values[0].Str? then values[0] else Null
    ensures BestFormatUrl(book).Str? || BestFormatUrl(book) == Null
  {
  }

  /** A book without formats has no link. */
  lemma NoFormatsNoUrl(book: Json)
    requires Get(book, "formats").None?
    ensures BestFormatUrl(book) == Null
  {
    assert Formats(book) == Obj([]);
    assert FormatValues(Obj([])) == [];
  }

  // ---------------------------------------------------------------------------------------
  // Cover

  /**
   * `coverUrl(book)`: the JPEG format when it is a string, otherwise `book.cover_url` when
   * that is truthy, otherwise `null`.
   */
  function CoverUrl(book: Json): (url: Json)
    ensures var jpeg := Get(Formats(book), "image/jpeg");
      jpeg.Some? && jpeg.value.Str? ==> url == jpeg.value
    ensures var jpeg := Get(Formats(book), "image/jpeg");
      var cover := Get(book, "cover_url");
      !(jpeg.Some? && jpeg.value.Str?) ==> url == if cover.Some? && Truthy(cover.value) then cover.value else Null
  {
    var jpeg := Get(Formats(book), "image/jpeg");
    if jpeg.Some? && jpeg.value.Str? then jpeg.value
    else
      var cover := Get(book, "cover_url");
      if cover.Some? && Truthy(cover.value) then cover.value else Null
  }

  /**
   * The `cover_url` a fetched page stores for a book: its JPEG format when that is a
   * string, `null` otherwise (a falsy `formats` has no members, like `{}`).
   */
  function MappedCoverUrl(formats: Json): Json {
    var jpeg := Get(formats, "image/jpeg");
    if jpeg.Some? && jpeg.value.Str? then jpeg.value else Null
  }

  /**
   * For a book mapped from a fetched page (its `formats` an object and its `cover_url`
   * derived from it), the cover shown is the one stored: the fallback to `cover_url` never
   * finds anything the JPEG format did not already give.
   */
  lemma MappedBookCover(members: seq<(string, Json)>, rest: seq<(string, Json)>)
    requires Lookup(rest, "formats").None? && Lookup(rest, "cover_url").None?
    ensures var formats := Obj(members);
      var book := Obj([("cover_url", MappedCoverUrl(formats)), ("formats", formats)] + rest);
      CoverUrl(book) == MappedCoverUrl(formats)
  {
    var formats := Obj(members);
    var book := Obj([("cover_url", MappedCoverUrl(formats)), ("formats", formats)] + rest);
    assert ([("cover_url", MappedCoverUrl(formats)), ("formats", formats)] + rest)[1..] == [("formats", formats)] + rest;
    assert "cover_url" != "formats" by {
      assert |"cover_url"| != |"formats"|;
    }
    var tail := [("formats", formats)] + rest;
    assert tail[0].0 == "formats";
    assert Lookup(tail, "formats") == Some(formats);
    assert Lookup(tail, "cover_url") == None by {
      assert tail[1..] == rest;
    }
    assert Get(book, "formats") == Some(formats);
    assert Get(book, "cover_url") == Some(MappedCoverUrl(formats));
  }

  // ---------------------------------------------------------------------------------------
  // Chips

  /** What `Chips` renders: nothing, or the chips shown and the count of the "+N more" chip. */
  datatype ChipsView = Nothing | Shown(chips: seq<Json>, more: Option<nat>)

  const DEFAULT_MAX_CHIPS: nat := 3

  /**
   * `Chips({items, max})`: the first `max` items of an array; nothing when that is empty or
   * `items` is no array; a "+N more" chip with the number left out when items were cut.
   */
  function Chips(items: Json, max: nat): (v: ChipsView)
    ensures v.Nothing? <==> !items.Arr? || |items.items| == 0 || max == 0
    ensures v.Shown? ==> items.Arr? && |v.chips| <= max && |v.chips| <= |items.items| && v.chips == items.items[..|v.chips|]
    ensures v.Shown? ==> (|v.chips| == max || |v.chips| == |items.items|)
    ensures v.Shown? ==> (v.more.Some? <==> |items.items| > max)
    ensures v.Shown? && v.more.Some? ==> v.more.value == |items.items| - max && v.more.value > 0
  {
    var list := if items.Arr? then items.items[..if |items.items| < max then |items.items| else max] else [];
    if |list| == 0 then Nothing
    else Shown(list, if |items.items| > |list| then Some(|items.items| - |list|) else None)
  }

  /** Nothing is lost: the chips shown and the "+N more" count add up to the items given. */
  lemma ChipsAccountForAll(items: seq<Json>, max: nat)
    requires Chips(Arr(items), max).Shown?
    ensures var v := Chips(Arr(items), max);
      |v.chips| + v.more.GetOr(0) == |items|
  {
  }

  // ---------------------------------------------------------------------------------------
  // Tags

  /** `Array.isArray(v) ? v : []` */
  function ArrayItems(v: Option<Json>): (items: seq<Json>)
    ensures v.Some? && v.value.Arr? ==> items == v.value.items
    ensures !(v.Some? && v.value.Arr?) ==> items == []
  {
    if v.Some? && v.value.Arr? then v.value.items else []
  }

  /** `.filter(Boolean)`: the truthy elements, in order. */
  function TruthyOnly(s: seq<Json>): (r: seq<Json>)
    ensures forall x :: x in r <==> x in s && Truthy(x)
    ensures |r| <= |s|
  {
    if s == [] then []
    else
      var rest := TruthyOnly(s[..|s| - 1]);
      assert s == s[..|s| - 1] + [s[|s| - 1]];
      if Truthy(s[|s| - 1]) then rest + [s[|s| - 1]] else rest
  }

  /** Filtering keeps the order of what it keeps. */
  lemma {:induction false} TruthyOnlyIsSubsequence(s: seq<Json>)
    ensures IsSubsequence(TruthyOnly(s), s)
  {
    if s != [] {
      var init := s[..|s| - 1];
      TruthyOnlyIsSubsequence(init);
      SubsequenceSnoc(TruthyOnly(init), init, s[|s| - 1]);
      assert s == init + [s[|s| - 1]];
    }
  }

  /** `[...subjects, ...shelves].filter(Boolean)` */
  function CombinedTags(book: Json): seq<Json> {
    TruthyOnly(ArrayItems(Get(book, "subjects")) + ArrayItems(Get(book, "bookshelves")))
  }

  const MAX_TAGS: nat := 3

  /** The first `n` elements, or all of them when there are fewer: `s.slice(0, n)`. */
  function Take<T>(s: seq<T>, n: nat): (r: seq<T>)
    ensures |r| == if |s| < n then |s| else n
    ensures r == s[..|r|]
  {
    if |s| < n then s else s[..n]
  }

  /** The tags a book shows: the first three distinct truthy subjects and shelves. */
  function Tags(book: Json): seq<Json> {
    Take(Dedup(CombinedTags(book)), MAX_TAGS)
  }

  /**
   * The tag block of a book item: subjects then bookshelves, falsy entries dropped, each
   * tag kept at its first occurrence by the `unique` loop, and the first three of those.
   */
  method TopTags(book: Json) returns (top3: seq<Json>)
    ensures top3 == Tags(book)
  {
    var combined := CombinedTags(book);
    var unique: seq<Json> := [];
    for i := 0 to |combined|
      invariant unique == Dedup(combined[..i])
    {
      assert combined[..i + 1] == combined[..i] + [combined[i]];
      DedupSnoc(combined[..i], combined[i]);
      if combined[i] !in unique {
        unique := unique + [combined[i]];
      }
    }
    assert combined[..|combined|] == combined;
    top3 := Take(unique, MAX_TAGS);
  }

  /**
   * The tags shown are distinct, truthy, taken from the subjects and shelves in order of
   * first occurrence, at most three, and exactly three when there are three distinct ones;
   * a tag left out first occurs after every tag shown.
   */
  lemma TagsProperties(book: Json)
    ensures var tags := Tags(book);
      NoDups(tags) && |tags| <= MAX_TAGS &&
      (|Dedup(CombinedTags(book))| >= MAX_TAGS ==> |tags| == MAX_TAGS)
    ensures var tags := Tags(book);
      forall t :: t in tags ==>
        (Truthy(t) && (t in ArrayItems(Get(book, "subjects")) || t in ArrayItems(Get(book, "bookshelves"))))
    ensures Tags(book) == Dedup(CombinedTags(book))[..|Tags(book)|]
    ensures InFirstOccurrenceOrder(Tags(book), CombinedTags(book))
  {
    TagsEarliest(book);
    var d := Dedup(CombinedTags(book));
    var tags := Tags(book);
    assert forall i, j :: 0 <= i < j < |tags| ==> tags[i] == d[i] && tags[j] == d[j];
    forall t | t in tags
      ensures Truthy(t) && (t in ArrayItems(Get(book, "subjects")) || t in ArrayItems(Get(book, "bookshelves")))
    {
      assert t in d;
    }
  }

  /**
   * The tags shown are the earliest: listed in the order of their first occurrences, and a
   * tag left out, when there is one, first occurs after every tag shown, three of them.
   */
  lemma TagsEarliest(book: Json)
    ensures InFirstOccurrenceOrder(Tags(book), CombinedTags(book))
    ensures var c := CombinedTags(book); var tags := Tags(book);
      forall t :: t in c && t !in tags ==>
        |tags| == MAX_TAGS && forall u :: u in tags ==> FirstIndex(c, u) < FirstIndex(c, t)
  {
    var c := CombinedTags(book);
    var tags := Tags(book);
    DedupPrefixOrdered(c, |tags|);
    forall t | t in c && t !in tags
      ensures |tags| == MAX_TAGS && forall u :: u in tags ==> FirstIndex(c, u) < FirstIndex(c, t)
    {
      DedupPrefixEarliest(c, |tags|, t);
    }
  }

  /**
   * Tags come from subjects and shelves in their order: the de-duplicated list is the one
   * listing of the distinct tags in the order of their first occurrences.
   */
  lemma TagsInSourceOrder(book: Json)
    ensures IsSubsequence(Dedup(CombinedTags(book)), CombinedTags(book))
    ensures IsSubsequence(CombinedTags(book), ArrayItems(Get(book, "subjects")) + ArrayItems(Get(book, "bookshelves")))
    ensures forall r :: r == Dedup(CombinedTags(book)) <==>
      InFirstOccurrenceOrder(r, CombinedTags(book)) && forall x :: x in CombinedTags(book) ==> x in r
  {
    DedupIsSubsequence(CombinedTags(book));
    TruthyOnlyIsSubsequence(ArrayItems(Get(book, "subjects")) + ArrayItems(Get(book, "bookshelves")));
    forall r ensures r == Dedup(CombinedTags(book)) <==>
      InFirstOccurrenceOrder(r, CombinedTags(book)) && forall x :: x in CombinedTags(book) ==> x in r
    {
      DedupCharacterised(CombinedTags(book), r);
    }
  }

  /** The tag chips never carry a "+N more" chip: at most three tags reach a three-chip list. */
  lemma TagChipsNeverMore(book: Json)
    requires Chips(Arr(Tags(book)), MAX_TAGS).Shown?
    ensures Chips(Arr(Tags(book)), MAX_TAGS).more.None?
  {
  }

  // ---------------------------------------------------------------------------------------
  // Paging

  /** The parts of the widget state the pager reads; `next` and `previous` are URLs or `null`. */
  datatype PagerState = PagerState(loading: bool, next: Json, previous: Json)

  /** A page fetch: the URL and which direction it goes. */
  datatype PageRequest = PageRequest(url: Json, which: string)

  /**
   * `onNavigate(which)`: nothing while a page is loading or when the target URL is falsy;
   * otherwise a fetch of the next page for "next" and of the previous page for anything else.
   */
  function OnNavigate(state: PagerState, which: string): (r: Option<PageRequest>)
    ensures r.Some? <==> !state.loading && Truthy(if which == "next" then state.next else state.previous)
    ensures r.Some? ==> r.value.which == which
    ensures r.Some? && which == "next" ==> r.value.url == state.next
    ensures r.Some? && which != "next" ==> r.value.url == state.previous
  {
    if state.loading then None
    else
      var target := if which == "next" then state.next else state.previous;
      if !Truthy(target) then None else Some(PageRequest(target, which))
  }

  /** The last page offers no "next" fetch and the first no "previous" one: `null` links fetch nothing. */
  lemma NoFetchPastTheEnds(loading: bool, next: Json, previous: Json)
    ensures OnNavigate(PagerState(loading, Null, previous), "next").None?
    ensures OnNavigate(PagerState(loading, next, Null), "previous").None?
  {
  }
}
