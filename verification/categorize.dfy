/**
 * Keyword categorisation of conference talks: the first category, in declaration order,
 * one of whose keywords occurs in the lower-cased title and abstract; "General" when none does.
 */
module Categorize {
  import opened Wrappers
  import opened Strings

  /** `CATEGORY_KEYWORDS`, in the order `Object.entries` yields its members. */
  const CATEGORY_KEYWORDS: seq<(string, seq<string>)> := [
    ("AI & Machine Learning", ["foundation models", "ai", "machine learning", "liquid glass", "llm"]),
    ("SwiftUI & Design", ["swiftui", "design", "ux", "ui", "interface"]),
    ("Concurrency & Performance", ["concurrency", "swift 6", "performance", "parallel", "async"]),
    ("Testing", ["testing", "test", "xctest", "swift testing", "tdd"]),
    ("Platform & Tools", ["xcode", "build", "compilation", "private apis", "linux", "cursor"]),
    ("Live Activities & Widgets", ["live activities", "widget", "dynamic island"]),
    ("Accessibility", ["accessibility", "a11y"]),
    ("Vision & Spatial", ["visionos", "spatial", "vision pro", "ar"]),
    ("Cross-Platform", ["scale", "platforms", "apple watch", "apple tv", "multiplatform"]),
    ("Voice & Speech", ["speech", "voice", "audio", "speaking"]),
    ("Error Handling", ["error", "exception", "throws"]),
    ("Analytics", ["analytics", "metrics", "tracking"])
  ]

  const DEFAULT_CATEGORY := "General"

  /** The category names, in declaration order. */
  function CategoryNames(): (r: seq<string>)
    ensures |r| == |CATEGORY_KEYWORDS| && forall i :: 0 <= i < |r| ==> r[i] == CATEGORY_KEYWORDS[i].0
  {
    seq(|CATEGORY_KEYWORDS|, i requires 0 <= i < |CATEGORY_KEYWORDS| => CATEGORY_KEYWORDS[i].0)
  }

  /** `` `${title} ${abstract || ""}`.toLowerCase() ``: a `null` abstract reads as empty. */
  function SearchText(title: string, abstr: Option<string>): string {
    Lower(title + " " + abstr.GetOr(""))
  }

  /** Some keyword of the list, lower-cased, occurs in `text`. */
  predicate Mentions(text: string, keywords: seq<string>) {
    exists i :: 0 <= i < |keywords| && Contains(text, Lower(keywords[i]))
  }

  /** The inner loop: scans the keywords in order and stops at the first one found. */
  function AnyKeyword(text: string, keywords: seq<string>): (found: bool)
    ensures found <==> Mentions(text, keywords)
  {
    if keywords == [] then false
    else if Contains(text, Lower(keywords[0])) then true
    else
      assert forall i :: 1 <= i < |keywords| ==> keywords[i] == keywords[1..][i - 1];
      var rest := AnyKeyword(text, keywords[1..]);
      assert Mentions(text, keywords[1..]) ==> Mentions(text, keywords) by {
        if Mentions(text, keywords[1..]) {
          var i :| 0 <= i < |keywords[1..]| && Contains(text, Lower(keywords[1..][i]));
          assert keywords[i + 1] == keywords[1..][i];
        }
      }
      rest
  }

  /**
   * The outer loop: the first category (name, keywords) of `cats` with a keyword in `text`,
   * `None` when there is none.
   */
  function FirstMatch(text: string, cats: seq<(string, seq<string>)>): (r: Option<string>)
    ensures r.None? <==> forall i :: 0 <= i < |cats| ==> !Mentions(text, cats[i].1)
    ensures r.Some? ==> exists i :: 0 <= i < |cats| && cats[i].0 == r.value && Mentions(text, cats[i].1) &&
                                    forall j :: 0 <= j < i ==> !Mentions(text, cats[j].1)
  {
    if cats == [] then None
    else if AnyKeyword(text, cats[0].1) then Some(cats[0].0)
    else
      assert forall i :: 1 <= i < |cats| ==> cats[i] == cats[1..][i - 1];
      var r := FirstMatch(text, cats[1..]);
      assert r.Some? ==> exists i :: 0 <= i < |cats| && cats[i].0 == r.value && Mentions(text, cats[i].1) &&
                                     forall j :: 0 <= j < i ==> !Mentions(text, cats[j].1) by {
        if r.Some? {
          var i :| 0 <= i < |cats[1..]| && cats[1..][i].0 == r.value && Mentions(text, cats[1..][i].1) &&
                   forall j :: 0 <= j < i ==> !Mentions(text, cats[1..][j].1);
          assert cats[i + 1] == cats[1..][i];
          forall j | 0 <= j < i + 1 ensures !Mentions(text, cats[j].1) {
            if j > 0 {
              assert cats[j] == cats[1..][j - 1];
            }
          }
        }
      }
      r
  }

  /**
   * `categorizeTalk(title, abstract)`: the first category, in declaration order, with a
   * keyword occurring in the lower-cased title and abstract, and "General" when no keyword
   * of any category occurs.
   */
  function CategorizeTalk(title: string, abstr: Option<string>): (r: string)
    ensures r == DEFAULT_CATEGORY <==>
      forall i :: 0 <= i < |CATEGORY_KEYWORDS| ==> !Mentions(SearchText(title, abstr), CATEGORY_KEYWORDS[i].1)
    ensures r != DEFAULT_CATEGORY ==>
      exists i :: 0 <= i < |CATEGORY_KEYWORDS| && CATEGORY_KEYWORDS[i].0 == r &&
        Mentions(SearchText(title, abstr), CATEGORY_KEYWORDS[i].1) &&
        forall j :: 0 <= j < i ==> !Mentions(SearchText(title, abstr), CATEGORY_KEYWORDS[j].1)
  {
    var m := FirstMatch(SearchText(title, abstr), CATEGORY_KEYWORDS);
    DefaultIsNoCategory();
    if m.Some? then m.value else DEFAULT_CATEGORY
  }

  /** "General" is not the name of any of the twelve categories. */
  lemma DefaultIsNoCategory()
    ensures forall i :: 0 <= i < |CATEGORY_KEYWORDS| ==> CATEGORY_KEYWORDS[i].0 != DEFAULT_CATEGORY
  {
    assert DEFAULT_CATEGORY !in CategoryNames();
  }

  /** The result is always a category name or "General". */
  lemma CategoryIsKnown(title: string, abstr: Option<string>)
    ensures CategorizeTalk(title, abstr) in CategoryNames() + [DEFAULT_CATEGORY]
  {
    var r := CategorizeTalk(title, abstr);
    if r != DEFAULT_CATEGORY {
      var i :| 0 <= i < |CATEGORY_KEYWORDS| && CATEGORY_KEYWORDS[i].0 == r;
      assert CategoryNames()[i] == r;
    }
  }

  /** A `null` abstract categorises exactly like an empty one. */
  lemma NullAbstractIsEmpty(title: string)
    ensures CategorizeTalk(title, None) == CategorizeTalk(title, Some(""))
  {
  }

  /**
   * Matching ignores letter case: a title and an abstract that agree with others up to
   * the case of their letters fall in the same category.
   */
  lemma CaseInsensitive(t1: string, a1: Option<string>, t2: string, a2: Option<string>)
    requires Lower(t1) == Lower(t2) && a1.None? == a2.None?
    requires a1.Some? ==> Lower(a1.value) == Lower(a2.value)
    ensures CategorizeTalk(t1, a1) == CategorizeTalk(t2, a2)
  {
    var b1, b2 := a1.GetOr(""), a2.GetOr("");
    LowerConcat(t1, " " + b1);
    LowerConcat(" ", b1);
    LowerConcat(t2, " " + b2);
    LowerConcat(" ", b2);
    assert t1 + " " + b1 == t1 + (" " + b1);
    assert t2 + " " + b2 == t2 + (" " + b2);
  }

  /** The talk fields `categorizeTalks` reads. */
  datatype TalkText = TalkText(title: string, abstr: Option<string>)

  /** `categorizeTalks(talks)`: one category per talk, in the same order. */
  function CategorizeTalks(talks: seq<TalkText>): (r: seq<string>)
    ensures |r| == |talks|
    ensures forall i :: 0 <= i < |talks| ==> r[i] == CategorizeTalk(talks[i].title, talks[i].abstr)
  {
    seq(|talks|, i requires 0 <= i < |talks| => CategorizeTalk(talks[i].title, talks[i].abstr))
  }
}
