/**
 * The conference schedule: raw talks from the schedule file turned into display talks,
 * filtered by the search criteria, grouped by category or track, and listed by track and tag.
 */
module Schedule {
  import opened Wrappers
  import opened Strings
  import opened Sequences
  import opened Ordering
  import opened Categorize

  /** A talk as the schedule file holds it; `None` is a `null` or missing member. */
  datatype RawTalk = RawTalk(
    id: string,
    title: string,
    speakersPlainText: Option<string>,
    fromTime: string,
    toTime: string,
    kind: string,
    abstr: Option<string>,
    track: Option<string>,
    tags: Option<seq<string>>)

  /** A talk as the server returns it; `abstr` is `None` when the member is absent. */
  datatype Talk = Talk(
    id: string,
    title: string,
    speakers: string,
    time: string,
    day: string,
    kind: string,
    category: string,
    track: string,
    tags: seq<string>,
    abstr: Option<string>)

  /**
   * The local wall-clock reading of a timestamp, as a `Date` in the server's time zone
   * reports it through `getHours`, `getMinutes`, `getMonth` and `getDate`.
   */
  datatype LocalTime = LocalTime(hours: Hour, minutes: Minute, month: Month, date: DayOfMonth)

  type Hour = h: nat | h < 24
  type Minute = m: nat | m < 60
  /** `getMonth()`: 0 for January. */
  type Month = m: nat | m < 12
  type DayOfMonth = d: nat | 1 <= d <= 31 witness 1

  /** `n.toString().padStart(2, "0")` for a clock field. */
  function Pad2(n: nat): (r: string)
    requires n < 100
    ensures |r| == 2 && IsDigit(r[0]) && IsDigit(r[1])
  {
    [Digit(n / 10), Digit(n % 10)]
  }

  function DigitValue(c: char): nat {
    if '0' <= c <= '9' then (c - '0') as nat else 0
  }

  function ParsePad2(s: string): nat
    requires |s| == 2
  {
    10 * DigitValue(s[0]) + DigitValue(s[1])
  }

  lemma ParsePad2Pad2(n: nat)
    requires n < 100
    ensures ParsePad2(Pad2(n)) == n
  {
  }

  /** `formatTimeRange(fromTime, toTime)`: "HH:MM–HH:MM" of the two local times. */
  function FormatTimeRange(from: LocalTime, to: LocalTime): (r: string)
    ensures |r| == 11 && r[2] == ':' && r[5] == '–' && r[8] == ':'
  {
    Pad2(from.hours) + ":" + Pad2(from.minutes) + "–" + Pad2(to.hours) + ":" + Pad2(to.minutes)
  }

  /** Reads back the hours and minutes of a formatted time range. */
  function ParseTimeRange(r: string): (LocalTimeOfDay, LocalTimeOfDay)
    requires |r| == 11
  {
    ((ParsePad2(r[0..2]), ParsePad2(r[3..5])), (ParsePad2(r[6..8]), ParsePad2(r[9..11])))
  }

  type LocalTimeOfDay = (nat, nat)

  /** The time range shows both clock readings exactly. */
  lemma TimeRangeRoundTrip(from: LocalTime, to: LocalTime)
    ensures ParseTimeRange(FormatTimeRange(from, to)) == ((from.hours, from.minutes), (to.hours, to.minutes))
  {
    var r := FormatTimeRange(from, to);
    assert r[0..2] == Pad2(from.hours) && r[3..5] == Pad2(from.minutes);
    assert r[6..8] == Pad2(to.hours) && r[9..11] == Pad2(to.minutes);
    ParsePad2Pad2(from.hours);
    ParsePad2Pad2(from.minutes);
    ParsePad2Pad2(to.hours);
    ParsePad2Pad2(to.minutes);
  }

  /** The en-US short month names `toLocaleString` yields for `{ month: "short" }`. */
  const MONTHS: seq<string> := ["Jan", "Feb", "Mar", "Apr", "May", "Jun", "Jul", "Aug", "Sep", "Oct", "Nov", "Dec"]

  /** `formatDay(fromTime)`: the short month name, a space and the day of the month. */
  function FormatDay(t: LocalTime): (r: string)
    ensures |r| >= 5 && r[..4] == MONTHS[t.month] + " " && r[4..] == NatToString(t.date)
  {
    MONTHS[t.month] + " " + NatToString(t.date)
  }

  /** Different days of the same month show differently. */
  lemma FormatDayInjective(s: LocalTime, t: LocalTime)
    requires s.month == t.month
    ensures FormatDay(s) == FormatDay(t) <==> s.date == t.date
  {
    if FormatDay(s) == FormatDay(t) {
      NatToStringInjective(s.date, t.date);
    }
  }

  /** The track of a talk the schedule file gives none. */
  const DEFAULT_TRACK := "General"

  /** JavaScript truthiness of an optional string: absent, `null` and "" are all false. */
  predicate Given(s: Option<string>) {
    s.Some? && s.value != ""
  }

  /**
   * `transformTalks` on one talk. `localTime` is how the server's `Date` reads a timestamp
   * in its time zone.
   */
  function TransformTalk(raw: RawTalk, includeAbstract: bool, localTime: string -> LocalTime): (t: Talk)
    ensures t.id == raw.id && t.title == raw.title && t.kind == raw.kind
    ensures t.speakers != "" && (Given(raw.speakersPlainText) ==> t.speakers == raw.speakersPlainText.value)
    ensures t.track != "" && (Given(raw.track) ==> t.track == raw.track.value)
    ensures !Given(raw.speakersPlainText) ==> t.speakers == "Various"
    ensures !Given(raw.track) ==> t.track == DEFAULT_TRACK
    ensures t.tags == (if raw.tags.Some? then raw.tags.value else [])
    ensures t.category == CategorizeTalk(raw.title, raw.abstr)
    ensures t.abstr.Some? <==> includeAbstract && Given(raw.abstr)
    ensures t.abstr.Some? ==> t.abstr == raw.abstr
  {
    Talk(
      raw.id,
      raw.title,
      if Given(raw.speakersPlainText) then raw.speakersPlainText.value else "Various",
      FormatTimeRange(localTime(raw.fromTime), localTime(raw.toTime)),
      FormatDay(localTime(raw.fromTime)),
      raw.kind,
      CategorizeTalk(raw.title, raw.abstr),
      if Given(raw.track) then raw.track.value else DEFAULT_TRACK,
      if raw.tags.Some? then raw.tags.value else [],
      if includeAbstract && Given(raw.abstr) then raw.abstr else None)
  }

  /** `transformTalks(rawTalks, includeAbstract)`: every raw talk transformed, in order. */
  function TransformTalks(raws: seq<RawTalk>, includeAbstract: bool, localTime: string -> LocalTime): (r: seq<Talk>)
    ensures |r| == |raws|
    ensures forall i :: 0 <= i < |raws| ==> r[i] == TransformTalk(raws[i], includeAbstract, localTime)
  {
    seq(|raws|, i requires 0 <= i < |raws| => TransformTalk(raws[i], includeAbstract, localTime))
  }

  /** Every transformed talk carries a known category: one of the twelve or "General". */
  lemma TransformedCategoryKnown(raws: seq<RawTalk>, includeAbstract: bool, localTime: string -> LocalTime, i: int)
    requires 0 <= i < |raws|
    ensures TransformTalks(raws, includeAbstract, localTime)[i].category in CategoryNames() + [DEFAULT_CATEGORY]
  {
    CategoryIsKnown(raws[i].title, raws[i].abstr);
  }

  // ---------------------------------------------------------------------------------------
  // Filtering

  /** `TalkFilters`: every criterion is optional; `None` is an absent member. */
  datatype TalkFilters = TalkFilters(
    category: Option<string>,
    day: Option<string>,
    speaker: Option<string>,
    keywords: Option<seq<string>>,
    track: Option<string>,
    tags: Option<seq<string>>)

  const NO_FILTERS := TalkFilters(None, None, None, None, None, None)

  /** A non-empty list criterion; an absent or empty list does not filter. */
  predicate GivenList(s: Option<seq<string>>) {
    s.Some? && |s.value| > 0
  }

  /** Some keyword, lower-cased, occurs in the lower-cased "title speakers". */
  predicate MentionsKeyword(t: Talk, keywords: seq<string>) {
    exists i :: 0 <= i < |keywords| && Contains(Lower(t.title + " " + t.speakers), Lower(keywords[i]))
  }

  /** Some wanted tag is among the talk's tags. */
  predicate HasSomeTag(t: Talk, wanted: seq<string>) {
    exists i :: 0 <= i < |wanted| && wanted[i] in t.tags
  }

  /** The callback of `filterTalks`: the talk satisfies every criterion that is given. */
  predicate Matches(t: Talk, f: TalkFilters) {
    (Given(f.category) ==> t.category == f.category.value) &&
    (Given(f.day) ==> t.day == f.day.value) &&
    (Given(f.speaker) ==> Contains(Lower(t.speakers), Lower(f.speaker.value))) &&
    (GivenList(f.keywords) ==> MentionsKeyword(t, f.keywords.value)) &&
    (Given(f.track) ==> t.track == f.track.value) &&
    (GivenList(f.tags) ==> HasSomeTag(t, f.tags.value))
  }

  /** `filterTalks(talks, filters)`: the talks that match, in their original order. */
  function FilterTalks(talks: seq<Talk>, f: TalkFilters): (r: seq<Talk>)
    ensures |r| <= |talks|
  {
    if talks == [] then []
    else
      var init := talks[..|talks| - 1];
      var last := talks[|talks| - 1];
      FilterTalks(init, f) + (if Matches(last, f) then [last] else [])
  }

  /** A talk is kept exactly when it is one of the talks and satisfies every given criterion. */
  lemma {:induction false} FilterKeepsMatching(talks: seq<Talk>, f: TalkFilters, t: Talk)
    ensures t in FilterTalks(talks, f) <==> t in talks && Matches(t, f)
  {
    if talks != [] {
      var init := talks[..|talks| - 1];
      var last := talks[|talks| - 1];
      FilterKeepsMatching(init, f, t);
      assert talks == init + [last];
    }
  }

  /** Filtering keeps the order of the talks it keeps. */
  lemma {:induction false} FilterIsSubsequence(talks: seq<Talk>, f: TalkFilters)
    ensures IsSubsequence(FilterTalks(talks, f), talks)
  {
    if talks != [] {
      var init := talks[..|talks| - 1];
      var last := talks[|talks| - 1];
      FilterIsSubsequence(init, f);
      SubsequenceSnoc(FilterTalks(init, f), init, last);
      assert talks == init + [last];
      if !Matches(last, f) {
        assert FilterTalks(talks, f) == FilterTalks(init, f) + [];
        assert FilterTalks(init, f) + [] == FilterTalks(init, f);
      }
    }
  }

  /** Filtering keeps every copy of a matching talk and no copy of any other. */
  lemma {:induction false} FilterCounts(talks: seq<Talk>, f: TalkFilters)
    ensures forall t :: multiset(FilterTalks(talks, f))[t] == if Matches(t, f) then multiset(talks)[t] else 0
  {
    if talks != [] {
      var init := talks[..|talks| - 1];
      var last := talks[|talks| - 1];
      FilterCounts(init, f);
      assert talks == init + [last];
      assert multiset(talks) == multiset(init) + multiset{last};
    }
  }

  /** With no criterion given every talk is kept, in order. */
  lemma {:induction false} NoFiltersKeepAll(talks: seq<Talk>)
    ensures FilterTalks(talks, NO_FILTERS) == talks
  {
    if talks != [] {
      NoFiltersKeepAll(talks[..|talks| - 1]);
    }
  }

  /** Filtering the result again with the same criteria changes nothing. */
  lemma {:induction false} FilterIdempotent(talks: seq<Talk>, f: TalkFilters)
    ensures FilterTalks(FilterTalks(talks, f), f) == FilterTalks(talks, f)
  {
    if talks != [] {
      var init := talks[..|talks| - 1];
      var last := talks[|talks| - 1];
      var kept := FilterTalks(init, f);
      FilterIdempotent(init, f);
      if Matches(last, f) {
        assert FilterTalks(talks, f) == kept + [last];
        FilterSnoc(kept, last, f);
      } else {
        assert FilterTalks(talks, f) == kept + [];
        assert kept + [] == kept;
      }
    }
  }

  lemma FilterSnoc(talks: seq<Talk>, t: Talk, f: TalkFilters)
    ensures FilterTalks(talks + [t], f) == FilterTalks(talks, f) + (if Matches(t, f) then [t] else [])
  {
    assert (talks + [t])[..|talks|] == talks;
  }

  /** The speaker criterion ignores letter case on both sides. */
  lemma SpeakerFilterIgnoresCase(talks: seq<Talk>, f: TalkFilters, speaker: string)
    requires f.speaker.Some? && Lower(f.speaker.value) == Lower(speaker)
    ensures FilterTalks(talks, f) == FilterTalks(talks, f.(speaker := Some(speaker)))
  {
    var g := f.(speaker := Some(speaker));
    if f.speaker.value == "" || speaker == "" {
      assert |Lower(f.speaker.value)| == |f.speaker.value|;
    }
    assert forall t :: Matches(t, f) == Matches(t, g);
    FilterSameMatches(talks, f, g);
  }

  /** Two sets of criteria that give the same criteria, however the absent ones are spelled. */
  predicate SameCriteria(f: TalkFilters, g: TalkFilters) {
    Given(f.category) == Given(g.category) && (Given(f.category) ==> f.category == g.category) &&
    Given(f.day) == Given(g.day) && (Given(f.day) ==> f.day == g.day) &&
    Given(f.speaker) == Given(g.speaker) && (Given(f.speaker) ==> f.speaker == g.speaker) &&
    GivenList(f.keywords) == GivenList(g.keywords) && (GivenList(f.keywords) ==> f.keywords == g.keywords) &&
    Given(f.track) == Given(g.track) && (Given(f.track) ==> f.track == g.track) &&
    GivenList(f.tags) == GivenList(g.tags) && (GivenList(f.tags) ==> f.tags == g.tags)
  }

  lemma SameCriteriaFilter(talks: seq<Talk>, f: TalkFilters, g: TalkFilters)
    requires SameCriteria(f, g)
    ensures FilterTalks(talks, f) == FilterTalks(talks, g)
  {
    FilterSameMatches(talks, f, g);
  }

  /** An empty-string or empty-list criterion imposes nothing: it filters as if it were absent. */
  lemma EmptyCriteriaIgnored(talks: seq<Talk>, f: TalkFilters)
    ensures f.category == Some("") ==> FilterTalks(talks, f) == FilterTalks(talks, f.(category := None))
    ensures f.day == Some("") ==> FilterTalks(talks, f) == FilterTalks(talks, f.(day := None))
    ensures f.speaker == Some("") ==> FilterTalks(talks, f) == FilterTalks(talks, f.(speaker := None))
    ensures f.keywords == Some([]) ==> FilterTalks(talks, f) == FilterTalks(talks, f.(keywords := None))
    ensures f.track == Some("") ==> FilterTalks(talks, f) == FilterTalks(talks, f.(track := None))
    ensures f.tags == Some([]) ==> FilterTalks(talks, f) == FilterTalks(talks, f.(tags := None))
  {
    if f.category == Some("") {
      SameCriteriaFilter(talks, f, f.(category := None));
    }
    if f.day == Some("") {
      SameCriteriaFilter(talks, f, f.(day := None));
    }
    if f.speaker == Some("") {
      SameCriteriaFilter(talks, f, f.(speaker := None));
    }
    if f.keywords == Some([]) {
      SameCriteriaFilter(talks, f, f.(keywords := None));
    }
    if f.track == Some("") {
      SameCriteriaFilter(talks, f, f.(track := None));
    }
    if f.tags == Some([]) {
      SameCriteriaFilter(talks, f, f.(tags := None));
    }
  }

  lemma {:induction false} FilterSameMatches(talks: seq<Talk>, f: TalkFilters, g: TalkFilters)
    requires forall t :: Matches(t, f) == Matches(t, g)
    ensures FilterTalks(talks, f) == FilterTalks(talks, g)
  {
    if talks != [] {
      FilterSameMatches(talks[..|talks| - 1], f, g);
    }
  }

  // ---------------------------------------------------------------------------------------
  // Lookup and listings

  /** `getTalkById(talks, id)`: the first talk with that id, `None` for `undefined`. */
  function GetTalkById(talks: seq<Talk>, id: string): (r: Option<Talk>)
    ensures r.None? <==> forall i :: 0 <= i < |talks| ==> talks[i].id != id
    ensures r.Some? ==> exists i :: 0 <= i < |talks| && talks[i] == r.value && r.value.id == id &&
                                    forall j :: 0 <= j < i ==> talks[j].id != id
  {
    if talks == [] then None
    else if talks[0].id == id then Some(talks[0])
    else
      var r := GetTalkById(talks[1..], id);
      assert forall i :: 1 <= i < |talks| ==> talks[i] == talks[1..][i - 1];
      assert r.Some? ==> exists i :: 0 <= i < |talks| && talks[i] == r.value && r.value.id == id &&
                                     forall j :: 0 <= j < i ==> talks[j].id != id by {
        if r.Some? {
          var i :| 0 <= i < |talks[1..]| && talks[1..][i] == r.value && r.value.id == id &&
                   forall j :: 0 <= j < i ==> talks[1..][j].id != id;
          assert talks[i + 1] == r.value;
          forall j | 0 <= j < i + 1 ensures talks[j].id != id {
            if j > 0 {
              assert talks[j] == talks[1..][j - 1];
            }
          }
        }
      }
      r
  }

  /** Which member a grouping or a listing reads. */
  datatype GroupKey = ByCategory | ByTrack

  function KeyOf(t: Talk, key: GroupKey): string {
    match key
    case ByCategory => t.category
    case ByTrack => t.track
  }

  /** `talks.map((t) => t.track)` and its category counterpart. */
  function Keys(talks: seq<Talk>, key: GroupKey): (r: seq<string>)
    ensures |r| == |talks|
  {
    if talks == [] then [] else Keys(talks[..|talks| - 1], key) + [KeyOf(talks[|talks| - 1], key)]
  }

  lemma {:induction false} KeysAt(talks: seq<Talk>, key: GroupKey)
    ensures forall i :: 0 <= i < |talks| ==> Keys(talks, key)[i] == KeyOf(talks[i], key)
  {
    if talks != [] {
      KeysAt(talks[..|talks| - 1], key);
    }
  }

  /**
   * `getAllTracks(talks)`: every track that some talk has, once each, in ascending order.
   */
  function GetAllTracks(talks: seq<Talk>): (r: seq<string>)
    ensures Sorted(r) && NoDups(r)
    ensures forall x :: x in r <==> exists i :: 0 <= i < |talks| && talks[i].track == x
  {
    var tracks := Dedup(Keys(talks, ByTrack));
    KeysAt(talks, ByTrack);
    SortNoDups(tracks);
    SortElements(tracks);
    assert forall x :: x in tracks <==> exists i :: 0 <= i < |talks| && Keys(talks, ByTrack)[i] == x;
    Sort(tracks)
  }

  /** All tags of all talks, in order, repetitions included. */
  function AllTags(talks: seq<Talk>): seq<string> {
    if talks == [] then [] else AllTags(talks[..|talks| - 1]) + talks[|talks| - 1].tags
  }

  lemma {:induction false} AllTagsElements(talks: seq<Talk>, x: string)
    ensures x in AllTags(talks) <==> exists i :: 0 <= i < |talks| && x in talks[i].tags
  {
    if talks != [] {
      var init := talks[..|talks| - 1];
      AllTagsElements(init, x);
      if x in AllTags(talks) {
        if x !in AllTags(init) {
          assert x in talks[|talks| - 1].tags;
        } else {
          var i :| 0 <= i < |init| && x in init[i].tags;
          assert talks[i] == init[i];
        }
      }
      if exists i :: 0 <= i < |talks| && x in talks[i].tags {
        var i :| 0 <= i < |talks| && x in talks[i].tags;
        if i < |init| {
          assert init[i] == talks[i];
        }
      }
    }
  }

  /**
   * `getAllTags(talks)`: the nested loop adds every tag of every talk to a set, which is
   * then listed in ascending order: each tag that some talk has, exactly once.
   */
  method GetAllTags(talks: seq<Talk>) returns (r: seq<string>)
    ensures r == Sort(Dedup(AllTags(talks)))
    ensures Sorted(r) && NoDups(r)
    ensures forall x :: x in r <==> exists i :: 0 <= i < |talks| && x in talks[i].tags
  {
    var tags := CollectTags(talks);
    r := Sort(tags);
    AllTagsListing(talks);
  }

  /** The nested loop of `getAllTags`: each tag added to the set, in order of first occurrence. */
  method CollectTags(talks: seq<Talk>) returns (tags: seq<string>)
    ensures tags == Dedup(AllTags(talks))
  {
    tags := [];
    var i := 0;
    while i < |talks|
      invariant 0 <= i <= |talks|
      invariant tags == Dedup(AllTags(talks[..i]))
    {
      tags := AddTags(AllTags(talks[..i]), tags, talks[i].tags);
      AllTagsSnoc(talks, i);
      i := i + 1;
    }
    assert talks[..i] == talks;
  }

  /** The inner loop of `getAllTags`: adds the tags of one talk to the set. */
  method AddTags(ghost seen: seq<string>, tags0: seq<string>, more: seq<string>) returns (tags: seq<string>)
    requires tags0 == Dedup(seen)
    ensures tags == Dedup(seen + more)
  {
    tags := tags0;
    var j := 0;
    assert seen + more[..0] == seen;
    while j < |more|
      invariant 0 <= j <= |more|
      invariant tags == Dedup(seen + more[..j])
    {
      var tag := more[j];
      AddTagStep(seen, more, j);
      if tag !in tags {
        tags := tags + [tag];
      }
      j := j + 1;
    }
    assert more[..j] == more;
  }

  /** One more tag: the de-duplicated list grows by it exactly when it is new. */
  lemma AddTagStep(seen: seq<string>, more: seq<string>, j: int)
    requires 0 <= j < |more|
    ensures var d := Dedup(seen + more[..j]);
      Dedup(seen + more[..j + 1]) == if more[j] in d then d else d + [more[j]]
  {
    DedupSnoc(seen + more[..j], more[j]);
    assert seen + more[..j + 1] == seen + more[..j] + [more[j]];
  }

  lemma AllTagsSnoc(talks: seq<Talk>, i: int)
    requires 0 <= i < |talks|
    ensures AllTags(talks[..i + 1]) == AllTags(talks[..i]) + talks[i].tags
  {
    assert talks[..i + 1][..i] == talks[..i];
  }

  /** The tag listing: sorted, without repetitions, holding exactly the tags of the talks. */
  lemma AllTagsListing(talks: seq<Talk>)
    ensures var r := Sort(Dedup(AllTags(talks)));
      Sorted(r) && NoDups(r) &&
      forall x :: x in r <==> exists i :: 0 <= i < |talks| && x in talks[i].tags
  {
    var tags := Dedup(AllTags(talks));
    SortNoDups(tags);
    SortElements(tags);
    forall x ensures x in Sort(tags) <==> exists i :: 0 <= i < |talks| && x in talks[i].tags {
      AllTagsElements(talks, x);
    }
  }

  // ---------------------------------------------------------------------------------------
  // Grouping

  /** The talks whose key is `k`, in their original order. */
  function Select(talks: seq<Talk>, key: GroupKey, k: string): seq<Talk>
  {
    if talks == [] then []
    else
      var init := talks[..|talks| - 1];
      var last := talks[|talks| - 1];
      Select(init, key, k) + (if KeyOf(last, key) == k then [last] else [])
  }

  /** A group holds talks of the list, all with the group's key. */
  lemma {:induction false} SelectKeys(talks: seq<Talk>, key: GroupKey, k: string)
    ensures forall t :: t in Select(talks, key, k) ==> t in talks && KeyOf(t, key) == k
  {
    if talks != [] {
      var init := talks[..|talks| - 1];
      SelectKeys(init, key, k);
      assert talks == init + [talks[|talks| - 1]];
    }
  }

  lemma SelectSnoc(talks: seq<Talk>, t: Talk, key: GroupKey, k: string)
    ensures Select(talks + [t], key, k) == Select(talks, key, k) + (if KeyOf(t, key) == k then [t] else [])
  {
    assert (talks + [t])[..|talks|] == talks;
  }

  lemma KeysSnoc(talks: seq<Talk>, t: Talk, key: GroupKey)
    ensures Keys(talks + [t], key) == Keys(talks, key) + [KeyOf(t, key)]
  {
    assert (talks + [t])[..|talks|] == talks;
  }

  /** Every talk with key `k` is in the group of `k`; no group is empty. */
  lemma {:induction false} SelectNonEmpty(talks: seq<Talk>, key: GroupKey, i: int)
    requires 0 <= i < |talks|
    ensures talks[i] in Select(talks, key, KeyOf(talks[i], key))
  {
    var init := talks[..|talks| - 1];
    if i < |talks| - 1 {
      SelectNonEmpty(init, key, i);
      assert init[i] == talks[i];
    }
  }

  /**
   * The grouping `groupTalksByCategory` and `groupTalksByTrack` build: the distinct keys in
   * order of first occurrence (the key order of the returned object) and, per key, its talks.
   */
  ghost predicate IsGrouping(talks: seq<Talk>, key: GroupKey, keys: seq<string>, groups: map<string, seq<Talk>>) {
    keys == Dedup(Keys(talks, key)) &&
    (forall k :: k in groups <==> k in keys) &&
    (forall k :: k in groups ==> groups[k] == Select(talks, key, k))
  }

  /**
   * The shared loop of `groupTalksByCategory` and `groupTalksByTrack`: the first talk with a
   * key creates that key's group and every later one is pushed onto it. The object's keys are
   * kept apart as `keys`, in insertion order.
   */
  method GroupTalks(talks: seq<Talk>, key: GroupKey) returns (keys: seq<string>, groups: map<string, seq<Talk>>)
    ensures IsGrouping(talks, key, keys, groups)
  {
    keys, groups := [], map[];
    var i := 0;
    while i < |talks|
      invariant 0 <= i <= |talks|
      invariant IsGrouping(talks[..i], key, keys, groups)
    {
      var talk := talks[i];
      var k := KeyOf(talk, key);
      if k !in groups {
        StepNew(talks, i, key, keys, groups);
        keys := keys + [k];
        groups := groups[k := [talk]];
      } else {
        StepKnown(talks, i, key, keys, groups);
        groups := groups[k := groups[k] + [talk]];
      }
      i := i + 1;
    }
    assert talks[..i] == talks;
  }

  lemma PrefixSnoc<T>(s: seq<T>, i: int)
    requires 0 <= i < |s|
    ensures s[..i + 1] == s[..i] + [s[i]]
  {
  }

  /** The loop's step at index `i`, for a talk whose key already has a group. */
  lemma StepKnown(talks: seq<Talk>, i: int, key: GroupKey, keys: seq<string>, groups: map<string, seq<Talk>>)
    requires 0 <= i < |talks| && IsGrouping(talks[..i], key, keys, groups) && KeyOf(talks[i], key) in groups
    ensures IsGrouping(talks[..i + 1], key, keys, groups[KeyOf(talks[i], key) := groups[KeyOf(talks[i], key)] + [talks[i]]])
  {
    PrefixSnoc(talks, i);
    GroupingStepKnown(talks[..i], talks[i], key, keys, groups);
  }

  /** The loop's step at index `i`, for a talk whose key is new. */
  lemma StepNew(talks: seq<Talk>, i: int, key: GroupKey, keys: seq<string>, groups: map<string, seq<Talk>>)
    requires 0 <= i < |talks| && IsGrouping(talks[..i], key, keys, groups) && KeyOf(talks[i], key) !in groups
    ensures IsGrouping(talks[..i + 1], key, keys + [KeyOf(talks[i], key)], groups[KeyOf(talks[i], key) := [talks[i]]])
  {
    PrefixSnoc(talks, i);
    GroupingStepNew(talks[..i], talks[i], key, keys, groups);
  }

  /** One pass of the loop on a talk whose group exists: the talk is appended to it. */
  lemma GroupingStepKnown(talks: seq<Talk>, t: Talk, key: GroupKey, keys: seq<string>, groups: map<string, seq<Talk>>)
    requires IsGrouping(talks, key, keys, groups) && KeyOf(t, key) in groups
    ensures IsGrouping(talks + [t], key, keys, groups[KeyOf(t, key) := groups[KeyOf(t, key)] + [t]])
  {
    var k := KeyOf(t, key);
    var groups' := groups[k := groups[k] + [t]];
    DedupKeysStep(talks, t, key, keys, true);
    forall k' | k' in groups' ensures groups'[k'] == Select(talks + [t], key, k') {
      SelectSnoc(talks, t, key, k');
    }
  }

  /** One pass of the loop on a talk with a new key: a group is created holding the talk. */
  lemma GroupingStepNew(talks: seq<Talk>, t: Talk, key: GroupKey, keys: seq<string>, groups: map<string, seq<Talk>>)
    requires IsGrouping(talks, key, keys, groups) && KeyOf(t, key) !in groups
    ensures IsGrouping(talks + [t], key, keys + [KeyOf(t, key)], groups[KeyOf(t, key) := [t]])
  {
    var k := KeyOf(t, key);
    var groups' := groups[k := [t]];
    DedupKeysStep(talks, t, key, keys, false);
    SelectAbsent(talks, key, k);
    forall k' | k' in groups' ensures groups'[k'] == Select(talks + [t], key, k') {
      SelectSnoc(talks, t, key, k');
    }
    forall k' ensures k' in groups' <==> k' in keys + [k] {
      assert k' in keys + [k] <==> k' in keys || k' == k;
    }
  }

  lemma DedupKeysStep(talks: seq<Talk>, t: Talk, key: GroupKey, keys: seq<string>, known: bool)
    requires keys == Dedup(Keys(talks, key)) && (known <==> KeyOf(t, key) in keys)
    ensures Dedup(Keys(talks + [t], key)) == if known then keys else keys + [KeyOf(t, key)]
  {
    KeysSnoc(talks, t, key);
    var ks := Keys(talks + [t], key);
    assert ks[..|ks| - 1] == Keys(talks, key);
  }

  method GroupTalksByCategory(talks: seq<Talk>) returns (keys: seq<string>, groups: map<string, seq<Talk>>)
    ensures IsGrouping(talks, ByCategory, keys, groups)
  {
    keys, groups := GroupTalks(talks, ByCategory);
  }

  method GroupTalksByTrack(talks: seq<Talk>) returns (keys: seq<string>, groups: map<string, seq<Talk>>)
    ensures IsGrouping(talks, ByTrack, keys, groups)
  {
    keys, groups := GroupTalks(talks, ByTrack);
  }

  /** The number of talks in the groups of `keys`. */
  function GroupedCount(talks: seq<Talk>, key: GroupKey, keys: seq<string>): nat {
    if keys == [] then 0
    else GroupedCount(talks, key, keys[..|keys| - 1]) + |Select(talks, key, keys[|keys| - 1])|
  }

  lemma {:induction false} GroupedCountSnoc(talks: seq<Talk>, t: Talk, key: GroupKey, keys: seq<string>)
    requires NoDups(keys)
    ensures GroupedCount(talks + [t], key, keys) == GroupedCount(talks, key, keys) + (if KeyOf(t, key) in keys then 1 else 0)
  {
    if keys != [] {
      var init := keys[..|keys| - 1];
      var last := keys[|keys| - 1];
      assert keys == init + [last];
      assert NoDups(init);
      GroupedCountSnoc(talks, t, key, init);
      SelectSnoc(talks, t, key, last);
      assert KeyOf(t, key) in keys <==> KeyOf(t, key) in init || KeyOf(t, key) == last;
      assert last !in init;
    }
  }

  lemma {:induction false} SelectAbsent(talks: seq<Talk>, key: GroupKey, k: string)
    requires k !in Keys(talks, key)
    ensures Select(talks, key, k) == []
  {
    if talks != [] {
      var init := talks[..|talks| - 1];
      KeysSnoc(init, talks[|talks| - 1], key);
      assert talks == init + [talks[|talks| - 1]];
      SelectAbsent(init, key, k);
    }
  }

  /** Every talk lands in exactly one group: the group sizes add up to the number of talks. */
  lemma {:induction false} GroupSizesSum(talks: seq<Talk>, key: GroupKey)
    ensures GroupedCount(talks, key, Dedup(Keys(talks, key))) == |talks|
  {
    if talks != [] {
      var init := talks[..|talks| - 1];
      var t := talks[|talks| - 1];
      var k := KeyOf(t, key);
      var d := Dedup(Keys(init, key));
      assert talks == init + [t];
      GroupSizesSum(init, key);
      KeysSnoc(init, t, key);
      assert Keys(talks, key)[..|Keys(talks, key)| - 1] == Keys(init, key);
      GroupedCountSnoc(init, t, key, d);
      if k !in d {
        SelectAbsent(init, key, k);
        SelectSnoc(init, t, key, k);
        assert (d + [k])[..|d|] == d;
      }
    }
  }

  /**
   * The members of `Object.prototype` that a property read on a plain `{}` finds when the
   * object has no own property of that name; each is a function, or an object for `__proto__`.
   */
  const INHERITED_MEMBERS: seq<string> := [
    "constructor", "hasOwnProperty", "isPrototypeOf", "propertyIsEnumerable", "toLocaleString",
    "toString", "valueOf", "__proto__", "__defineGetter__", "__defineSetter__",
    "__lookupGetter__", "__lookupSetter__"
  ]

  /** `k` names a member every plain object inherits. */
  predicate Inherited(k: string) {
    k in INHERITED_MEMBERS
  }

  /**
   * The grouping loop as written, on a plain object literal: `!groups[key]` is false for
   * an inherited member, so no group is created and `groups[key].push` throws a TypeError.
   */
  method GroupTalksAsWritten(talks: seq<Talk>, key: GroupKey) returns (r: Result<(seq<string>, map<string, seq<Talk>>)>)
    ensures r.Err? <==> SomeInherited(talks, key)
    ensures r.Ok? ==> IsGrouping(talks, key, r.value.0, r.value.1)
  {
    var keys: seq<string>, groups: map<string, seq<Talk>> := [], map[];
    var i := 0;
    while i < |talks|
      invariant 0 <= i <= |talks|
      invariant IsGrouping(talks[..i], key, keys, groups)
      invariant forall j :: 0 <= j < i ==> !Inherited(KeyOf(talks[j], key))
    {
      var ok;
      ok, keys, groups := PushAsWritten(talks, i, key, keys, groups);
      if !ok {
        return Err("groups[key].push is not a function");
      }
      i := i + 1;
    }
    assert talks[..i] == talks;
    r := Ok((keys, groups));
  }

  /**
   * One iteration of the loop as written: `groups[key].push(talk)` fails (`ok` false) when
   * the key has no group of its own but names an inherited member.
   */
  method PushAsWritten(talks: seq<Talk>, i: int, key: GroupKey, keys: seq<string>, groups: map<string, seq<Talk>>)
    returns (ok: bool, keys': seq<string>, groups': map<string, seq<Talk>>)
    requires 0 <= i < |talks| && IsGrouping(talks[..i], key, keys, groups)
    requires forall j :: 0 <= j < i ==> !Inherited(KeyOf(talks[j], key))
    ensures !ok ==> Inherited(KeyOf(talks[i], key))
    ensures ok ==> IsGrouping(talks[..i + 1], key, keys', groups')
    ensures ok ==> forall j :: 0 <= j <= i ==> !Inherited(KeyOf(talks[j], key))
  {
    var talk := talks[i];
    var k := KeyOf(talk, key);
    if k !in groups && Inherited(k) {
      return false, keys, groups;
    }
    ok := true;
    if k !in groups {
      StepNew(talks, i, key, keys, groups);
      keys', groups' := keys + [k], groups[k := [talk]];
    } else {
      KnownKeyNotInherited(talks, i, key, keys, groups);
      StepKnown(talks, i, key, keys, groups);
      keys', groups' := keys, groups[k := groups[k] + [talk]];
    }
  }

  /** Some talk of `talks` has an inherited member's name as its key. */
  predicate SomeInherited(talks: seq<Talk>, key: GroupKey) {
    exists j :: 0 <= j < |talks| && Inherited(KeyOf(talks[j], key))
  }

  /** A key that already has a group was the key of an earlier talk, so it is not inherited. */
  lemma KnownKeyNotInherited(talks: seq<Talk>, i: int, key: GroupKey, keys: seq<string>, groups: map<string, seq<Talk>>)
    requires 0 <= i < |talks| && IsGrouping(talks[..i], key, keys, groups) && KeyOf(talks[i], key) in groups
    requires forall j :: 0 <= j < i ==> !Inherited(KeyOf(talks[j], key))
    ensures !Inherited(KeyOf(talks[i], key))
  {
    var k := KeyOf(talks[i], key);
    var ks := Keys(talks[..i], key);
    assert k in ks;
    KeysAt(talks[..i], key);
    var j :| 0 <= j < |ks| && ks[j] == k;
    assert talks[..i][j] == talks[j];
  }

  /** No category name, nor the default, is the name of an inherited member. */
  lemma CategoryNamesNotInherited()
    ensures forall c :: c in CategoryNames() + [DEFAULT_CATEGORY] ==> !Inherited(c)
  {
    var names := CategoryNames() + [DEFAULT_CATEGORY];
    forall i, j | 0 <= i < |names| && 0 <= j < |INHERITED_MEMBERS| ensures names[i] != INHERITED_MEMBERS[j] {
      if i < |CategoryNames()| {
        assert names[i] == CATEGORY_KEYWORDS[i].0;
      }
    }
  }

  /**
   * The source's `!groups[key]` loop is safe for `groupTalksByCategory`: no transformed
   * talk has an inherited member's name as its category.
   */
  lemma CategoryGroupingSafe(raws: seq<RawTalk>, includeAbstract: bool, localTime: string -> LocalTime)
    ensures !SomeInherited(TransformTalks(raws, includeAbstract, localTime), ByCategory)
  {
    var talks := TransformTalks(raws, includeAbstract, localTime);
    CategoryNamesNotInherited();
    forall j | 0 <= j < |talks| ensures !Inherited(KeyOf(talks[j], ByCategory)) {
      TransformedCategoryKnown(raws, includeAbstract, localTime, j);
    }
  }

  /** A talk whose track is "toString". */
  const TO_STRING_TALK := Talk("1", "Talk", "Speaker", "09:00–09:30", "Oct 6", "Talk", "General", "toString", [], None)

  /**
   * The input that shows it: one talk on a track named "toString" makes the loop as written
   * throw, while the intended grouping has a single group holding that talk.
   */
  lemma ToStringTrackGroups()
    ensures SomeInherited([TO_STRING_TALK], ByTrack)
    ensures IsGrouping([TO_STRING_TALK], ByTrack, ["toString"], map["toString" := [TO_STRING_TALK]])
  {
    var talks := [TO_STRING_TALK];
    assert Inherited(KeyOf(talks[0], ByTrack));
    assert Keys(talks, ByTrack) == ["toString"];
    assert Dedup(["toString"]) == ["toString"] by {
      assert ["toString"][..0] == [];
    }
    assert Select(talks, ByTrack, "toString") == [TO_STRING_TALK];
  }
}
