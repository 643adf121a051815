/**
 * The widget HTML template and the helpers that locate a widget's assets: the template's
 * placeholders are filled with `String.prototype.replaceAll`, bundles are looked up in the
 * Vite manifest, the public server URL is read from the request headers, and the template
 * URI comes from the generated hash map.
 */
module WidgetTemplate {
  import opened Wrappers
  import opened Strings

  // ---------------------------------------------------------------------------------------
  // replaceAll

  /**
   * `s.replaceAll(pat, rep)` for a string pattern: a left-to-right scan replacing each
   * occurrence that does not overlap an earlier one; the replacement is not rescanned.
   * An empty pattern matches before every character and at the end.
   */
  function ReplaceAll(s: string, pat: string, rep: string): (r: string)
    ensures rep == pat ==> r == s
    ensures |pat| > 0 && |rep| == |pat| ==> |r| == |s|
    decreases |s|
  {
    if |pat| == 0 then
      (if s == [] then rep else rep + [s[0]] + ReplaceAll(s[1..], pat, rep))
    else if StartsWith(s, pat) then rep + ReplaceAll(s[|pat|..], pat, rep)
    else if s == [] then []
    else [s[0]] + ReplaceAll(s[1..], pat, rep)
  }

  /** A string without an occurrence of the pattern comes back unchanged. */
  lemma {:induction false} ReplaceAllAbsent(s: string, pat: string, rep: string)
    requires |pat| > 0 && !Contains(s, pat)
    ensures ReplaceAll(s, pat, rep) == s
    decreases |s|
  {
    if s != [] {
      assert !OccursAt(s, pat, 0);
      ReplaceAllAbsent(s[1..], pat, rep);
    }
  }

  /** The pattern itself is replaced as a whole. */
  lemma ReplaceAllWhole(pat: string, rep: string)
    requires |pat| > 0
    ensures ReplaceAll(pat, pat, rep) == rep
  {
    assert StartsWith(pat, pat);
    assert pat[|pat|..] == [];
  }

  /** No occurrence of the pattern straddles a boundary with a character outside it on one side. */
  lemma NoStraddle(a: string, b: string, pat: string)
    requires a != [] && |a| < |pat|
    requires b == [] || a[|a| - 1] !in pat || b[0] !in pat
    ensures !StartsWith(a + b, pat)
  {
    if |a + b| >= |pat| {
      assert (a + b)[..|pat|][|a| - 1] == a[|a| - 1];
      assert (a + b)[..|pat|][|a|] == b[0];
    }
  }

  /** A match at the front is replaced and the scan resumes after it. */
  lemma ReplaceAllMatch(s: string, pat: string, rep: string)
    requires |pat| > 0 && StartsWith(s, pat)
    ensures ReplaceAll(s, pat, rep) == rep + ReplaceAll(s[|pat|..], pat, rep)
  {
  }

  /** Without a match at the front, the first character is kept and the scan moves on by one. */
  lemma ReplaceAllNoMatch(s: string, pat: string, rep: string)
    requires |pat| > 0 && s != [] && !StartsWith(s, pat)
    ensures ReplaceAll(s, pat, rep) == [s[0]] + ReplaceAll(s[1..], pat, rep)
  {
  }

  /** A match at the front of `a + b` that cannot straddle the boundary lies in `a`. */
  lemma FrontMatchInLeft(a: string, b: string, pat: string)
    requires a != [] && |pat| > 0 && StartsWith(a + b, pat)
    requires b == [] || a[|a| - 1] !in pat || b[0] !in pat
    ensures StartsWith(a, pat) && (a + b)[|pat|..] == a[|pat|..] + b
  {
    if |a| < |pat| {
      NoStraddle(a, b, pat);
    }
    assert a[..|pat|] == (a + b)[..|pat|];
  }

  /** Without a match at the front of `a + b`, there is none at the front of `a`. */
  lemma NoFrontMatchInLeft(a: string, b: string, pat: string)
    requires a != [] && !StartsWith(a + b, pat)
    ensures !StartsWith(a, pat) && (a + b)[1..] == a[1..] + b
  {
    if |pat| <= |a| {
      assert (a + b)[..|pat|] == a[..|pat|];
    }
  }

  /**
   * Replacing in `a + b` replaces in `a` and in `b` separately when no occurrence can
   * straddle the boundary: the characters on one side of it are not in the pattern.
   */
  lemma {:induction false} ReplaceAllSplit(a: string, b: string, pat: string, rep: string)
    requires |pat| > 0
    requires a == [] || b == [] || a[|a| - 1] !in pat || b[0] !in pat
    ensures ReplaceAll(a + b, pat, rep) == ReplaceAll(a, pat, rep) + ReplaceAll(b, pat, rep)
    decreases |a|
  {
    if a == [] {
      assert a + b == b;
    } else if StartsWith(a + b, pat) {
      FrontMatchInLeft(a, b, pat);
      ReplaceAllSplit(a[|pat|..], b, pat, rep);
      ReplaceAllMatch(a + b, pat, rep);
      ReplaceAllMatch(a, pat, rep);
    } else {
      NoFrontMatchInLeft(a, b, pat);
      ReplaceAllSplit(a[1..], b, pat, rep);
      ReplaceAllNoMatch(a + b, pat, rep);
      ReplaceAllNoMatch(a, pat, rep);
    }
  }

  /** A window of `a + b` that lies inside `a` is a window of `a`. */
  lemma WindowInLeft(a: string, b: string, pat: string, i: int)
    requires 0 <= i && i + |pat| <= |a| && !OccursAt(a, pat, i)
    ensures !OccursAt(a + b, pat, i)
  {
    assert (a + b)[i..i + |pat|] == a[i..i + |pat|];
  }

  /** A window of `a + b` that lies inside `b` is a window of `b`. */
  lemma WindowInRight(a: string, b: string, pat: string, i: int)
    requires |a| <= i && i + |pat| <= |a| + |b| && !OccursAt(b, pat, i - |a|)
    ensures !OccursAt(a + b, pat, i)
  {
    assert (a + b)[i..i + |pat|] == b[i - |a|..i - |a| + |pat|];
  }

  /** A window across the boundary holds the last character of `a` and the first of `b`. */
  lemma WindowAcross(a: string, b: string, pat: string, i: int)
    requires 0 <= i < |a| < i + |pat| <= |a| + |b|
    requires a[|a| - 1] !in pat || b[0] !in pat
    ensures !OccursAt(a + b, pat, i)
  {
    var w := (a + b)[i..i + |pat|];
    assert w[|a| - 1 - i] == a[|a| - 1];
    assert w[|a| - i] == b[0];
  }

  /** An occurrence of the pattern in `a + b` lies in `a`, in `b`, or across the boundary. */
  lemma AbsentConcat(a: string, b: string, pat: string)
    requires !Contains(a, pat) && !Contains(b, pat)
    requires a == [] || b == [] || a[|a| - 1] !in pat || b[0] !in pat
    ensures !Contains(a + b, pat)
  {
    forall i ensures !OccursAt(a + b, pat, i) {
      if !(0 <= i && i + |pat| <= |a| + |b|) {
      } else if i + |pat| <= |a| {
        assert !OccursAt(a, pat, i);
        WindowInLeft(a, b, pat, i);
      } else if i >= |a| {
        assert !OccursAt(b, pat, i - |a|);
        WindowInRight(a, b, pat, i);
      } else {
        WindowAcross(a, b, pat, i);
      }
    }
  }

  // ---------------------------------------------------------------------------------------
  // The template

  const SERVER_URL_SLOT := "{{serverUrl}}"
  const WIDGET_FILE_SLOT := "{{widgetFile}}"
  const STYLE_FILE_SLOT := "{{styleFile}}"

  /** The literal text between the placeholders of the template, line by line. */
  const BASE_OPEN := "<base href=\""
  const SCRIPT_OPEN := "\" />\n" + "<div id=\"root\"></div>\n" + "<script type=\"module\">\n" + "  import('"
  const ASSETS := "/assets/"
  const LINK_OPEN := "');\n" + "</script>\n" + "<link rel=\"stylesheet\" " + "crossorigin href=\""
  const LINK_CLOSE := "\" />\n"

  /** `TEMPLATE_SOURCE`: a base element, a root element, the widget's module script and its stylesheet. */
  const TEMPLATE_SOURCE :=
    BASE_OPEN + SERVER_URL_SLOT + SCRIPT_OPEN + SERVER_URL_SLOT + ASSETS + WIDGET_FILE_SLOT +
    LINK_OPEN + SERVER_URL_SLOT + ASSETS + STYLE_FILE_SLOT + LINK_CLOSE

  /** The template with values in its five slots: three server URLs, the widget file and the style file. */
  function Filled(url: string, url2: string, widget: string, url3: string, style: string): string {
    BASE_OPEN + url + SCRIPT_OPEN + url2 + ASSETS + widget + LINK_OPEN + url3 + ASSETS + style + LINK_CLOSE
  }

  /** Characters a placeholder is made of. */
  predicate SlotChar(c: char) {
    c == '{' || c == '}' || 'a' <= c <= 'z' || 'A' <= c <= 'Z'
  }

  /** A pattern of placeholder characters opening with a brace. */
  predicate SlotLike(pat: string) {
    |pat| > 0 && pat[0] == '{' && forall i :: 0 <= i < |pat| ==> SlotChar(pat[i])
  }

  /** Each literal run of the template starts and ends outside the placeholder alphabet and holds no brace. */
  predicate Delimited(lit: string) {
    |lit| > 0 && !SlotChar(lit[0]) && !SlotChar(lit[|lit| - 1]) && '{' !in lit
  }

  lemma LiteralsDelimited()
    ensures Delimited(BASE_OPEN) && Delimited(SCRIPT_OPEN) && Delimited(ASSETS)
    ensures Delimited(LINK_OPEN) && Delimited(LINK_CLOSE)
  {
  }

  lemma SlotsAreSlotLike()
    ensures SlotLike(SERVER_URL_SLOT) && SlotLike(WIDGET_FILE_SLOT) && SlotLike(STYLE_FILE_SLOT)
  {
  }

  /** A literal run is left alone, and splits the text around it for a placeholder-shaped pattern. */
  lemma LiteralUnchanged(lit: string, pat: string, rep: string)
    requires Delimited(lit) && SlotLike(pat)
    ensures ReplaceAll(lit, pat, rep) == lit
    ensures lit[0] !in pat && lit[|lit| - 1] !in pat
  {
    NoFirstCharNoOccurrence(lit, pat);
    ReplaceAllAbsent(lit, pat, rep);
  }

  lemma LiteralThen(lit: string, x: string, pat: string, rep: string)
    requires Delimited(lit) && SlotLike(pat)
    ensures ReplaceAll(lit + x, pat, rep) == lit + ReplaceAll(x, pat, rep)
  {
    LiteralUnchanged(lit, pat, rep);
    ReplaceAllSplit(lit, x, pat, rep);
  }

  lemma ThenLiteral(p: string, lit: string, pat: string, rep: string)
    requires Delimited(lit) && SlotLike(pat)
    ensures ReplaceAll(p + lit, pat, rep) == ReplaceAll(p, pat, rep) + lit
  {
    LiteralUnchanged(lit, pat, rep);
    ReplaceAllSplit(p, lit, pat, rep);
  }

  lemma AroundLiteral(p: string, lit: string, x: string, pat: string, rep: string)
    requires Delimited(lit) && SlotLike(pat)
    ensures ReplaceAll(p + lit + x, pat, rep) == ReplaceAll(p, pat, rep) + lit + ReplaceAll(x, pat, rep)
  {
    ThenLiteral(p, lit, pat, rep);
    LiteralUnchanged(lit, pat, rep);
    assert (p + lit)[|p + lit| - 1] == lit[|lit| - 1];
    ReplaceAllSplit(p + lit, x, pat, rep);
  }

  /** Replacing a placeholder-shaped pattern touches only the five slots. */
  lemma ReplaceInFilled(a: string, b: string, c: string, d: string, e: string, pat: string, rep: string)
    requires SlotLike(pat)
    ensures ReplaceAll(Filled(a, b, c, d, e), pat, rep) ==
      Filled(ReplaceAll(a, pat, rep), ReplaceAll(b, pat, rep), ReplaceAll(c, pat, rep),
             ReplaceAll(d, pat, rep), ReplaceAll(e, pat, rep))
  {
    LiteralsDelimited();
    var p1 := BASE_OPEN + a;
    var p2 := p1 + SCRIPT_OPEN + b;
    var p3 := p2 + ASSETS + c;
    var p4 := p3 + LINK_OPEN + d;
    var p5 := p4 + ASSETS + e;
    LiteralThen(BASE_OPEN, a, pat, rep);
    AroundLiteral(p1, SCRIPT_OPEN, b, pat, rep);
    AroundLiteral(p2, ASSETS, c, pat, rep);
    AroundLiteral(p3, LINK_OPEN, d, pat, rep);
    AroundLiteral(p4, ASSETS, e, pat, rep);
    ThenLiteral(p5, LINK_CLOSE, pat, rep);
  }

  /** A literal run between two texts without the pattern adds no occurrence of it. */
  lemma AbsentAround(p: string, lit: string, x: string, pat: string)
    requires Delimited(lit) && SlotLike(pat)
    requires !Contains(p, pat) && !Contains(x, pat)
    ensures !Contains(p + lit + x, pat)
  {
    NoFirstCharNoOccurrence(lit, pat);
    AbsentConcat(p, lit, pat);
    assert (p + lit)[|p + lit| - 1] == lit[|lit| - 1];
    AbsentConcat(p + lit, x, pat);
  }

  /** A shape without the pattern in any slot has no occurrence of it at all. */
  lemma AbsentFromFilled(a: string, b: string, c: string, d: string, e: string, pat: string)
    requires SlotLike(pat)
    requires !Contains(a, pat) && !Contains(b, pat) && !Contains(c, pat) && !Contains(d, pat) && !Contains(e, pat)
    ensures !Contains(Filled(a, b, c, d, e), pat)
  {
    LiteralsDelimited();
    assert !Contains([], pat);
    var p1 := [] + BASE_OPEN + a;
    var p2 := p1 + SCRIPT_OPEN + b;
    var p3 := p2 + ASSETS + c;
    var p4 := p3 + LINK_OPEN + d;
    var p5 := p4 + ASSETS + e;
    AbsentAround([], BASE_OPEN, a, pat);
    AbsentAround(p1, SCRIPT_OPEN, b, pat);
    AbsentAround(p2, ASSETS, c, pat);
    AbsentAround(p3, LINK_OPEN, d, pat);
    AbsentAround(p4, ASSETS, e, pat);
    AbsentAround(p5, LINK_CLOSE, [], pat);
    assert [] + BASE_OPEN + a == BASE_OPEN + a;
    assert p5 + LINK_CLOSE + [] == Filled(a, b, c, d, e);
  }

  /** No placeholder contains another. */
  lemma SlotsDistinct(x: string)
    ensures ReplaceAll(WIDGET_FILE_SLOT, SERVER_URL_SLOT, x) == WIDGET_FILE_SLOT
    ensures ReplaceAll(STYLE_FILE_SLOT, SERVER_URL_SLOT, x) == STYLE_FILE_SLOT
    ensures ReplaceAll(STYLE_FILE_SLOT, WIDGET_FILE_SLOT, x) == STYLE_FILE_SLOT
  {
    forall i ensures !OccursAt(WIDGET_FILE_SLOT, SERVER_URL_SLOT, i) {
      if 0 <= i <= 1 {
        assert WIDGET_FILE_SLOT[i..i + 13][2] != SERVER_URL_SLOT[2];
      }
    }
    forall i ensures !OccursAt(STYLE_FILE_SLOT, SERVER_URL_SLOT, i) {
      if i == 0 {
        assert STYLE_FILE_SLOT[i..i + 13][3] != SERVER_URL_SLOT[3];
      }
    }
    assert !Contains(STYLE_FILE_SLOT, WIDGET_FILE_SLOT);
    ReplaceAllAbsent(WIDGET_FILE_SLOT, SERVER_URL_SLOT, x);
    ReplaceAllAbsent(STYLE_FILE_SLOT, SERVER_URL_SLOT, x);
    ReplaceAllAbsent(STYLE_FILE_SLOT, WIDGET_FILE_SLOT, x);
  }

  /** `styleFile ?? "undefined"`: a missing style file is written as the text "undefined". */
  function StyleText(styleFile: Option<string>): string {
    if styleFile.Some? then styleFile.value else "undefined"
  }

  /**
   * `renderWidgetTemplate({serverUrl, widgetFile, styleFile})`: every `{{serverUrl}}` of the
   * template, then every `{{widgetFile}}`, then every `{{styleFile}}` is replaced.
   */
  function RenderWidgetTemplate(serverUrl: string, widgetFile: string, styleFile: Option<string>): (html: string)
    ensures serverUrl == SERVER_URL_SLOT && widgetFile == WIDGET_FILE_SLOT && styleFile == Some(STYLE_FILE_SLOT) ==>
      html == TEMPLATE_SOURCE
  {
    ReplaceAll(ReplaceAll(ReplaceAll(TEMPLATE_SOURCE, SERVER_URL_SLOT, serverUrl),
                          WIDGET_FILE_SLOT, widgetFile),
               STYLE_FILE_SLOT, StyleText(styleFile))
  }

  /**
   * The rendered page is the template with the server URL in its three URL slots, the
   * widget file and the style file (or "undefined") in theirs, as long as no value put in
   * an earlier pass holds a placeholder that a later pass would replace.
   */
  lemma RenderFillsSlots(serverUrl: string, widgetFile: string, styleFile: Option<string>)
    requires !Contains(serverUrl, WIDGET_FILE_SLOT) && !Contains(serverUrl, STYLE_FILE_SLOT)
    requires !Contains(widgetFile, STYLE_FILE_SLOT)
    ensures RenderWidgetTemplate(serverUrl, widgetFile, styleFile) ==
      Filled(serverUrl, serverUrl, widgetFile, serverUrl, StyleText(styleFile))
  {
    SlotsAreSlotLike();
    SlotsDistinct(serverUrl);
    SlotsDistinct(widgetFile);
    ReplaceAllWhole(SERVER_URL_SLOT, serverUrl);
    ReplaceAllWhole(WIDGET_FILE_SLOT, widgetFile);
    ReplaceAllWhole(STYLE_FILE_SLOT, StyleText(styleFile));
    ReplaceInFilled(SERVER_URL_SLOT, SERVER_URL_SLOT, WIDGET_FILE_SLOT, SERVER_URL_SLOT, STYLE_FILE_SLOT,
                    SERVER_URL_SLOT, serverUrl);
    ReplaceAllAbsent(serverUrl, WIDGET_FILE_SLOT, widgetFile);
    ReplaceAllAbsent(STYLE_FILE_SLOT, WIDGET_FILE_SLOT, widgetFile);
    ReplaceInFilled(serverUrl, serverUrl, WIDGET_FILE_SLOT, serverUrl, STYLE_FILE_SLOT,
                    WIDGET_FILE_SLOT, widgetFile);
    ReplaceAllAbsent(serverUrl, STYLE_FILE_SLOT, StyleText(styleFile));
    ReplaceAllAbsent(widgetFile, STYLE_FILE_SLOT, StyleText(styleFile));
    ReplaceInFilled(serverUrl, serverUrl, widgetFile, serverUrl, STYLE_FILE_SLOT,
                    STYLE_FILE_SLOT, StyleText(styleFile));
  }

  /** A pattern opening with `{{` occurs only in text that contains `{{`. */
  lemma OpeningBraces(s: string, pat: string)
    requires |pat| >= 2 && pat[..2] == "{{" && !Contains(s, "{{")
    ensures !Contains(s, pat)
  {
    if i :| OccursAt(s, pat, i) {
      assert s[i..i + 2] == s[i..i + |pat|][..2];
      assert OccursAt(s, "{{", i);
    }
  }

  /** When no value contains `{{`, the rendered page holds none of the three placeholders. */
  lemma RenderLeavesNoPlaceholder(serverUrl: string, widgetFile: string, styleFile: Option<string>)
    requires !Contains(serverUrl, "{{") && !Contains(widgetFile, "{{") && !Contains(StyleText(styleFile), "{{")
    ensures var page := RenderWidgetTemplate(serverUrl, widgetFile, styleFile);
      !Contains(page, SERVER_URL_SLOT) && !Contains(page, WIDGET_FILE_SLOT) && !Contains(page, STYLE_FILE_SLOT)
  {
    SlotsAreSlotLike();
    var style := StyleText(styleFile);
    forall pat | pat in [SERVER_URL_SLOT, WIDGET_FILE_SLOT, STYLE_FILE_SLOT]
      ensures !Contains(serverUrl, pat) && !Contains(widgetFile, pat) && !Contains(style, pat)
      ensures !Contains(Filled(serverUrl, serverUrl, widgetFile, serverUrl, style), pat)
    {
      OpeningBraces(serverUrl, pat);
      OpeningBraces(widgetFile, pat);
      OpeningBraces(style, pat);
      AbsentFromFilled(serverUrl, serverUrl, widgetFile, serverUrl, style, pat);
    }
    RenderFillsSlots(serverUrl, widgetFile, styleFile);
  }

  // ---------------------------------------------------------------------------------------
  // The Vite manifest

  /** A manifest record; only its `file` member is read. */
  datatype ManifestEntry = ManifestEntry(file: Option<string>)

  type Manifest = map<string, ManifestEntry>

  /** `lookupDistFile(manifest, key)`: `manifest[key]?.file`. */
  function LookupDistFile(manifest: Manifest, key: string): (r: Option<string>)
    ensures r.Some? <==> key in manifest && manifest[key].file.Some?
    ensures r.Some? ==> r == manifest[key].file
  {
    if key in manifest then manifest[key].file else None
  }

  /**
   * `lookupDistFileWithIndexFallback(manifest, basePath)`: the file of `<base>.tsx`, or,
   * when that entry is missing or has no file, the file of `<base>/index.tsx`.
   */
  function LookupDistFileWithIndexFallback(manifest: Manifest, basePath: string): (r: Option<string>)
    ensures r.None? <==> LookupDistFile(manifest, basePath + ".tsx").None? && LookupDistFile(manifest, basePath + "/index.tsx").None?
  {
    var flat := LookupDistFile(manifest, basePath + ".tsx");
    if flat.Some? then flat else LookupDistFile(manifest, basePath + "/index.tsx")
  }

  /** The flat entry wins whenever it has a file, even when an index entry exists too. */
  lemma FlatEntryPreferred(manifest: Manifest, basePath: string)
    ensures LookupDistFile(manifest, basePath + ".tsx").Some? ==>
      LookupDistFileWithIndexFallback(manifest, basePath) == LookupDistFile(manifest, basePath + ".tsx")
    ensures LookupDistFile(manifest, basePath + ".tsx").None? ==>
      LookupDistFileWithIndexFallback(manifest, basePath) == LookupDistFile(manifest, basePath + "/index.tsx")
  {
  }

  const WIDGETS_DIR := "src/widgets/"

  datatype WidgetAssets = WidgetAssets(widgetFile: string, styleFile: Option<string>)

  /**
   * `resolveWidgetAssets(widgetName)` for a parsed manifest: the widget's bundle, which must
   * be a non-empty file name, and the shared `style.css` file, which may be missing.
   */
  function ResolveWidgetAssets(manifest: Manifest, widgetName: string): (r: Result<WidgetAssets>)
    ensures r.Err? <==> (var f := LookupDistFileWithIndexFallback(manifest, WIDGETS_DIR + widgetName); f.None? || f.value == "")
    ensures r.Err? ==> r.message == "Missing widget bundle for " + widgetName
    ensures r.Ok? ==> r.value.widgetFile != ""
    ensures r.Ok? ==> Some(r.value.widgetFile) == LookupDistFileWithIndexFallback(manifest, WIDGETS_DIR + widgetName)
    ensures r.Ok? ==> r.value.styleFile == LookupDistFile(manifest, "style.css")
  {
    var widgetFile := LookupDistFileWithIndexFallback(manifest, WIDGETS_DIR + widgetName);
    if widgetFile.None? || widgetFile.value == "" then Err("Missing widget bundle for " + widgetName)
    else Ok(WidgetAssets(widgetFile.value, LookupDistFile(manifest, "style.css")))
  }

  /** A widget bundled as `src/widgets/<name>.tsx` or `src/widgets/<name>/index.tsx` resolves. */
  lemma BundledWidgetResolves(manifest: Manifest, widgetName: string, key: string, file: string)
    requires key == WIDGETS_DIR + widgetName + ".tsx" || key == WIDGETS_DIR + widgetName + "/index.tsx"
    requires key in manifest && manifest[key].file == Some(file) && file != ""
    requires key == WIDGETS_DIR + widgetName + "/index.tsx" ==> LookupDistFile(manifest, WIDGETS_DIR + widgetName + ".tsx").None?
    ensures ResolveWidgetAssets(manifest, widgetName) == Ok(WidgetAssets(file, LookupDistFile(manifest, "style.css")))
  {
  }

  // ---------------------------------------------------------------------------------------
  // Request headers and the server URL

  /** A header value: one string or several. */
  datatype HeaderValue = One(value: string) | Many(values: seq<string>)

  type Headers = map<string, HeaderValue>

  /**
   * `getHeader(headers, name)`: the first of several values, the value itself, and nothing
   * when the headers or the header are missing or the list of values is empty.
   */
  function GetHeader(headers: Option<Headers>, name: string): (r: Option<string>)
    ensures r.Some? ==> headers.Some? && name in headers.value
    ensures r.Some? ==> (headers.value[name] == One(r.value) ||
      (headers.value[name].Many? && headers.value[name].values != [] && headers.value[name].values[0] == r.value))
    ensures headers.Some? && name in headers.value && headers.value[name].One? ==> r.Some?
    ensures headers.Some? && name in headers.value && headers.value[name].Many? && headers.value[name].values != [] ==>
      r == Some(headers.value[name].values[0])
  {
    if headers.None? || name !in headers.value then None
    else match headers.value[name]
      case One(v) => Some(v)
      case Many(vs) => if vs == [] then None else Some(vs[0])
  }

  const DEV_SERVER_URL := "http://localhost:3000"

  /**
   * `resolveServerUrl(extra)`, with `NODE_ENV` passed in: outside production the local dev
   * server; in production `https://` and the forwarded host, else the host, else localhost.
   */
  function ResolveServerUrl(nodeEnv: Option<string>, headers: Option<Headers>): (url: string)
    ensures nodeEnv != Some("production") ==> url == DEV_SERVER_URL
    ensures nodeEnv == Some("production") ==>
      url == "https://" + (if GetHeader(headers, "x-forwarded-host").Some? then GetHeader(headers, "x-forwarded-host").value
                           else if GetHeader(headers, "host").Some? then GetHeader(headers, "host").value
                           else "localhost")
  {
    if nodeEnv == Some("production") then
      var host := if GetHeader(headers, "x-forwarded-host").Some? then GetHeader(headers, "x-forwarded-host")
                  else GetHeader(headers, "host");
      "https://" + (if host.Some? then host.value else "localhost")
    else DEV_SERVER_URL
  }

  /** In production the URL is always an https URL; the forwarded host wins over the host. */
  lemma ProductionUsesForwardedHost(headers: Headers, forwarded: string, host: string)
    requires "x-forwarded-host" in headers && headers["x-forwarded-host"] == One(forwarded)
    ensures ResolveServerUrl(Some("production"), Some(headers)) == "https://" + forwarded
    ensures ResolveServerUrl(Some("production"), Some(headers[ "host" := One(host)])) == "https://" + forwarded
  {
  }

  // ---------------------------------------------------------------------------------------
  // Template URIs

  /** An entry of the generated hash map. */
  datatype HashEntry = HashEntry(hash: string, file: string)

  /** `widget-template-hashes.json` as parsed. */
  datatype TemplateHashMap = TemplateHashMap(version: int, generatedAt: Option<string>, templates: Option<map<string, HashEntry>>)

  const TEMPLATE_URI_PREFIX := "ui://widgets/apps-sdk/"

  /** `getWidgetTemplateHashEntry(widgetName)`; `mapping` is `None` when the hash map file is missing. */
  function GetWidgetTemplateHashEntry(mapping: Option<TemplateHashMap>, widgetName: string): (r: Option<HashEntry>)
    ensures r.Some? <==> mapping.Some? && mapping.value.templates.Some? && widgetName in mapping.value.templates.value
    ensures r.Some? ==> r.value == mapping.value.templates.value[widgetName]
  {
    if mapping.Some? && mapping.value.templates.Some? && widgetName in mapping.value.templates.value
    then Some(mapping.value.templates.value[widgetName])
    else None
  }

  /**
   * `resolveWidgetTemplateUri(widgetName)`: the hashed file name when the map has an entry
   * with a non-empty file, `<widgetName>.html` otherwise.
   */
  function ResolveWidgetTemplateUri(mapping: Option<TemplateHashMap>, widgetName: string): (uri: string)
    ensures StartsWith(uri, TEMPLATE_URI_PREFIX)
    ensures var e := GetWidgetTemplateHashEntry(mapping, widgetName);
      if e.Some? && e.value.file != "" then uri == TEMPLATE_URI_PREFIX + e.value.file
      else uri == TEMPLATE_URI_PREFIX + widgetName + ".html"
  {
    var entry := GetWidgetTemplateHashEntry(mapping, widgetName);
    if entry.Some? && entry.value.file != "" then TEMPLATE_URI_PREFIX + entry.value.file
    else TEMPLATE_URI_PREFIX + widgetName + ".html"
  }

  /** The hash map of the unit test: a listed widget gets its hashed file, another its plain name. */
  lemma HashedUriOrFallback()
    ensures var mapping := Some(TemplateHashMap(1, None, Some(map["test_widget" := HashEntry("deadbeef", "test_widget-deadbeef.html")])));
      ResolveWidgetTemplateUri(mapping, "test_widget") == "ui://widgets/apps-sdk/" + "test_widget-deadbeef.html" &&
      ResolveWidgetTemplateUri(mapping, "missing_widget") == "ui://widgets/apps-sdk/" + "missing_widget" + ".html"
  {
  }

  /** Without a hash map every widget gets its plain template URI. */
  lemma NoHashMapFallsBack(widgetName: string)
    ensures ResolveWidgetTemplateUri(None, widgetName) == TEMPLATE_URI_PREFIX + widgetName + ".html"
  {
  }
}
