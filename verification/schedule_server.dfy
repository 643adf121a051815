/**
 * The conference schedule server's tool replies: the human-readable filter summary, the
 * bounded preview of logged request bodies, and the shaping of the `search_talks` and
 * `get_talk_details` results.
 */
module ScheduleServer {
  import opened Wrappers
  import opened Strings
  import opened Schedule

  // ---------------------------------------------------------------------------------------
  // Filter summary

  /** "" after a count of exactly one, "s" after any other count. */
  function PluralSuffix(count: nat): (r: string)
    ensures r == "" <==> count == 1
    ensures r == "" || r == "s"
  {
    if count == 1 then "" else "s"
  }

  /** The filter parts `buildFilterSummary` pushes, in order: category, day, speaker, keywords. */
  function SummaryParts(f: TalkFilters): (parts: seq<string>)
  {
    (if Given(f.category) then ["category \"" + f.category.value + "\""] else []) +
    (if Given(f.day) then ["day \"" + f.day.value + "\""] else []) +
    (if Given(f.speaker) then ["speaker \"" + f.speaker.value + "\""] else []) +
    (if GivenList(f.keywords) then ["keywords \"" + Join(f.keywords.value, ", ") + "\""] else [])
  }

  /** The criteria the summary mentions; track and tags are not among them. */
  predicate SummarisedCriterion(f: TalkFilters) {
    Given(f.category) || Given(f.day) || Given(f.speaker) || GivenList(f.keywords)
  }

  /** One part per criterion that is given, and none when no criterion is. */
  lemma SummaryPartsCount(f: TalkFilters)
    ensures |SummaryParts(f)| ==
      (if Given(f.category) then 1 else 0) + (if Given(f.day) then 1 else 0) +
      (if Given(f.speaker) then 1 else 0) + (if GivenList(f.keywords) then 1 else 0)
    ensures SummaryParts(f) == [] <==> !SummarisedCriterion(f)
  {
  }

  /** A category, when given, is the first part; keywords, when given, are the last. */
  lemma SummaryPartsOrder(f: TalkFilters)
    ensures Given(f.category) ==> SummaryParts(f)[0] == "category \"" + f.category.value + "\""
    ensures GivenList(f.keywords) ==>
      SummaryParts(f)[|SummaryParts(f)| - 1] == "keywords \"" + Join(f.keywords.value, ", ") + "\""
  {
  }

  /** The summary text for a list of parts and a count. */
  function SummaryText(parts: seq<string>, count: nat): string {
    if parts == [] then "Showing all " + NatToString(count) + " talks"
    else "Found " + NatToString(count) + " talk" + PluralSuffix(count) + " matching " + Join(parts, " and ")
  }

  /**
   * `buildFilterSummary(filters, count)`: the parts are pushed one criterion at a time;
   * with none the summary shows all talks, otherwise it lists them joined by " and ".
   */
  method BuildFilterSummary(f: TalkFilters, count: nat) returns (summary: string)
    ensures summary == SummaryText(SummaryParts(f), count)
    ensures !SummarisedCriterion(f) ==> summary == "Showing all " + NatToString(count) + " talks"
    ensures SummarisedCriterion(f) ==>
      summary == "Found " + NatToString(count) + " talk" + PluralSuffix(count) + " matching " +
                 Join(SummaryParts(f), " and ")
  {
    var parts: seq<string> := [];
    if Given(f.category) {
      parts := parts + ["category \"" + f.category.value + "\""];
    }
    if Given(f.day) {
      parts := parts + ["day \"" + f.day.value + "\""];
    }
    if Given(f.speaker) {
      parts := parts + ["speaker \"" + f.speaker.value + "\""];
    }
    if GivenList(f.keywords) {
      parts := parts + ["keywords \"" + Join(f.keywords.value, ", ") + "\""];
    }
    assert parts == SummaryParts(f);
    SummaryPartsCount(f);
    if |parts| == 0 {
      return "Showing all " + NatToString(count) + " talks";
    }
    return "Found " + NatToString(count) + " talk" + PluralSuffix(count) + " matching " + Join(parts, " and ");
  }

  // ---------------------------------------------------------------------------------------
  // Body preview

  const MAX_LOG_BODY_CHARS := 4000
  const TRUNCATION_MARK := "...[truncated]"

  datatype BodyPreview = BodyPreview(preview: string, truncated: bool)

  /**
   * `formatBodyPreview(text)`: text of at most 4000 characters unchanged, longer text cut
   * to its first 4000 characters and marked.
   */
  function FormatBodyPreview(text: string): (r: BodyPreview)
    ensures r.truncated <==> |text| > MAX_LOG_BODY_CHARS
    ensures !r.truncated ==> r.preview == text
    ensures r.truncated ==> |r.preview| == MAX_LOG_BODY_CHARS + |TRUNCATION_MARK|
    ensures r.truncated ==> r.preview[..MAX_LOG_BODY_CHARS] == text[..MAX_LOG_BODY_CHARS]
    ensures r.truncated ==> r.preview[MAX_LOG_BODY_CHARS..] == TRUNCATION_MARK
  {
    if |text| <= MAX_LOG_BODY_CHARS then BodyPreview(text, false)
    else BodyPreview(text[..MAX_LOG_BODY_CHARS] + TRUNCATION_MARK, true)
  }

  /** Previews are bounded, and the text can be told from the preview when it was not cut. */
  lemma PreviewBounded(text: string)
    ensures |FormatBodyPreview(text).preview| <= MAX_LOG_BODY_CHARS + |TRUNCATION_MARK|
    ensures !FormatBodyPreview(text).truncated ==> |FormatBodyPreview(text).preview| <= MAX_LOG_BODY_CHARS
  {
  }

  // ---------------------------------------------------------------------------------------
  // Tool calls

  /** The tool arguments the handler reads; `None` is an absent argument. */
  datatype ToolArgs = ToolArgs(
    category: Option<string>,
    day: Option<string>,
    speaker: Option<string>,
    keywords: Option<seq<string>>,
    talkId: Option<string>)

  /** `SearchTalksOutput`: the talks found, grouped by category, with their count and summary. */
  datatype SearchOutput = SearchOutput(
    talks: seq<Talk>,
    groupKeys: seq<string>,
    groups: map<string, seq<Talk>>,
    totalCount: nat,
    filterSummary: string)

  /**
   * The text content of a reply. `JSON.stringify` of a talk or of an error object is kept
   * as the value it serialises; the error object's `talkId` is left out when it is absent.
   */
  datatype ReplyText =
    | Plain(text: string)
    | TalkJson(talk: Talk)
    | ErrorJson(error: string, talkId: Option<string>)

  datatype ToolReply = ToolReply(content: ReplyText, structured: Option<SearchOutput>, isError: bool)

  /** The criteria `search_talks` filters on: category, day, speaker and keywords. */
  function SearchFilters(args: ToolArgs): (f: TalkFilters)
    ensures f.track.None? && f.tags.None?
  {
    TalkFilters(args.category, args.day, args.speaker, args.keywords, None, None)
  }

  /** "Found N talk(s)", the text of a `search_talks` reply. */
  function FoundText(count: nat): string {
    "Found " + NatToString(count) + " talk" + PluralSuffix(count)
  }

  /**
   * The `CallToolRequest` handler. `schedule` is the outcome of loading the schedule file
   * (`Err` carries `String(error)` of what it threw); `localTime` reads a timestamp in the
   * server's time zone.
   */
  method HandleToolCall(name: string, args: ToolArgs, schedule: Result<seq<RawTalk>>, localTime: string -> LocalTime)
    returns (reply: ToolReply)
    ensures schedule.Err? ==> reply == ToolReply(ErrorJson(schedule.message, None), None, true)
    ensures schedule.Ok? && name == "search_talks" ==>
      var found := FilterTalks(TransformTalks(schedule.value, false, localTime), SearchFilters(args));
      !reply.isError && reply.content == Plain(FoundText(|found|)) && reply.structured.Some? &&
      reply.structured.value.talks == found &&
      reply.structured.value.totalCount == |found| &&
      IsGrouping(found, ByCategory, reply.structured.value.groupKeys, reply.structured.value.groups) &&
      reply.structured.value.filterSummary == SummaryText(SummaryParts(SearchFilters(args)), |found|)
    ensures schedule.Ok? && name == "get_talk_details" ==>
      var talk := if args.talkId.Some? then GetTalkById(TransformTalks(schedule.value, true, localTime), args.talkId.value) else None;
      reply.structured.None? &&
      (talk.None? ==> reply.isError && reply.content == ErrorJson("Talk not found", args.talkId)) &&
      (talk.Some? ==> !reply.isError && reply.content == TalkJson(talk.value))
    ensures schedule.Ok? && name != "search_talks" && name != "get_talk_details" ==>
      reply == ToolReply(ErrorJson("Unknown tool", None), None, true)
  {
    if schedule.Err? {
      return ToolReply(ErrorJson(schedule.message, None), None, true);
    }
    var allTalks := TransformTalks(schedule.value, false, localTime);
    var allTalksWithAbstracts := TransformTalks(schedule.value, true, localTime);

    if name == "search_talks" {
      var filters := SearchFilters(args);
      var filtered := FilterTalks(allTalks, filters);
      var keys, groups := GroupTalksByCategory(filtered);
      var summary := BuildFilterSummary(filters, |filtered|);
      var output := SearchOutput(filtered, keys, groups, |filtered|, summary);
      return ToolReply(Plain(FoundText(output.totalCount)), Some(output), false);
    }

    if name == "get_talk_details" {
      var talk := if args.talkId.Some? then GetTalkById(allTalksWithAbstracts, args.talkId.value) else None;
      if talk.None? {
        return ToolReply(ErrorJson("Talk not found", args.talkId), None, true);
      }
      return ToolReply(TalkJson(talk.value), None, false);
    }

    return ToolReply(ErrorJson("Unknown tool", None), None, true);
  }

  /** The details of a talk carry its abstract whenever the schedule has a non-empty one. */
  lemma DetailsIncludeAbstract(raws: seq<RawTalk>, localTime: string -> LocalTime, id: string)
    requires GetTalkById(TransformTalks(raws, true, localTime), id).Some?
    ensures var t := GetTalkById(TransformTalks(raws, true, localTime), id).value;
      exists i :: 0 <= i < |raws| && raws[i].id == id &&
        t == TransformTalk(raws[i], true, localTime) &&
        (Given(raws[i].abstr) ==> t.abstr == raws[i].abstr)
  {
    var talks := TransformTalks(raws, true, localTime);
    var t := GetTalkById(talks, id).value;
    var i :| 0 <= i < |talks| && talks[i] == t && t.id == id;
    var u := TransformTalk(raws[i], true, localTime);
    assert talks[i] == u;
    assert raws[i].id == id && (Given(raws[i].abstr) ==> u.abstr == raws[i].abstr);
  }

  /** A search reply's count is the number of talks listed, and the groups hold them all. */
  lemma SearchCountsAllGrouped(found: seq<Talk>, keys: seq<string>, groups: map<string, seq<Talk>>)
    requires IsGrouping(found, ByCategory, keys, groups)
    ensures GroupedCount(found, ByCategory, keys) == |found|
  {
    GroupSizesSum(found, ByCategory);
  }
}
