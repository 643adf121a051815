/**
 * The build script that names each widget's HTML template after a hash of its content:
 * for every widget entry of the Vite manifest it renders the template with the server URL
 * left as a placeholder, hashes it with SHA-256, and records `<name>-<hash8>.html`.
 */
module WidgetHashes {
  import opened Wrappers
  import opened Strings
  import WidgetTemplate

  // ---------------------------------------------------------------------------------------
  // The script's own copy of the template

  const BASE_OPEN := "<base href=\""
  const SCRIPT_OPEN := "\" />\n" + "<div id=\"root\"></div>\n" + "<script type=\"module\">\n" + "  import('"
  const LINK_OPEN := "');\n" + "</script>\n" + "<link rel=\"stylesheet\" " + "crossorigin href=\""

  /** `TEMPLATE_SOURCE` as the script spells it. */
  const TEMPLATE_SOURCE :=
    BASE_OPEN + "{{serverUrl}}" + SCRIPT_OPEN + "{{serverUrl}}" + "/assets/" + "{{widgetFile}}" +
    LINK_OPEN + "{{serverUrl}}" + "/assets/" + "{{styleFile}}" + "\" />\n"

  const SERVER_URL_PLACEHOLDER := "{{serverUrl}}"

  /** `renderTemplate({serverUrl, widgetFile, styleFile})` */
  function RenderTemplate(serverUrl: string, widgetFile: string, styleFile: Option<string>): (html: string)
    ensures serverUrl == "{{serverUrl}}" && widgetFile == "{{widgetFile}}" && styleFile == Some("{{styleFile}}") ==>
      html == TEMPLATE_SOURCE
  {
    var style := if styleFile.Some? then styleFile.value else "undefined";
    WidgetTemplate.ReplaceAll(
      WidgetTemplate.ReplaceAll(
        WidgetTemplate.ReplaceAll(TEMPLATE_SOURCE, "{{serverUrl}}", serverUrl),
        "{{widgetFile}}", widgetFile),
      "{{styleFile}}", style)
  }

  /**
   * The script renders exactly the page the server renders: same template, same
   * placeholders replaced in the same order. So the hash it records is the hash of the page
   * the server serves before the server URL is put in.
   */
  lemma RenderTemplateMatchesServer(serverUrl: string, widgetFile: string, styleFile: Option<string>)
    ensures TEMPLATE_SOURCE == WidgetTemplate.TEMPLATE_SOURCE
    ensures RenderTemplate(serverUrl, widgetFile, styleFile) ==
            WidgetTemplate.RenderWidgetTemplate(serverUrl, widgetFile, styleFile)
  {
  }

  // ---------------------------------------------------------------------------------------
  // Widget names

  /** `entryKey.replace(/\\/g, "/")`: every backslash becomes a slash. */
  function NormalizeSeparators(key: string): (r: string)
    ensures |r| == |key| && '\\' !in r
    ensures forall i :: 0 <= i < |key| ==> r[i] == if key[i] == '\\' then '/' else key[i]
  {
    seq(|key|, i requires 0 <= i < |key| => if key[i] == '\\' then '/' else key[i])
  }

  /** The last path segment: the longest suffix without a slash. */
  function BaseName(p: string): (r: string)
    ensures EndsWith(p, r) && '/' !in r
    ensures |r| < |p| ==> p[|p| - |r| - 1] == '/'
  {
    if p == [] || p[|p| - 1] == '/' then []
    else
      var b := BaseName(p[..|p| - 1]);
      BaseNameStep(p, b);
      b + [p[|p| - 1]]
  }

  /** The last segment of `p` without its last character grows by that character. */
  lemma BaseNameStep(p: string, b: string)
    requires p != [] && p[|p| - 1] != '/'
    requires EndsWith(p[..|p| - 1], b) && '/' !in b
    requires |b| < |p| - 1 ==> p[..|p| - 1][|p| - 1 - |b| - 1] == '/'
    ensures EndsWith(p, b + [p[|p| - 1]]) && '/' !in b + [p[|p| - 1]]
    ensures |b| + 1 < |p| ==> p[|p| - |b| - 2] == '/'
  {
    var q := p[..|p| - 1];
    assert p == q + [p[|p| - 1]];
    assert p[|p| - |b| - 1..] == q[|q| - |b|..] + [p[|p| - 1]];
  }

  /** The position of the last `c` in `s`. */
  function LastIndexOf(s: string, c: char): (r: Option<nat>)
    ensures r.None? <==> c !in s
    ensures r.Some? ==> r.value < |s| && s[r.value] == c && forall k :: r.value < k < |s| ==> s[k] != c
  {
    if s == [] then None
    else if s[|s| - 1] == c then Some(|s| - 1)
    else
      var r := LastIndexOf(s[..|s| - 1], c);
      assert c in s ==> c in s[..|s| - 1] by {
        if c in s {
          var k :| 0 <= k < |s| && s[k] == c;
          assert s[..|s| - 1][k] == c;
        }
      }
      r
  }

  /** The last `c` is at `i` when `s[i]` is `c` and no later character is. */
  lemma LastIndexOfAt(s: string, c: char, i: nat)
    requires i < |s| && s[i] == c && forall k :: i < k < |s| ==> s[k] != c
    ensures LastIndexOf(s, c) == Some(i)
  {
    var r := LastIndexOf(s, c);
    assert c in s;
    assert !(r.value < i) && !(i < r.value);
  }

  /** A dot after the first character, which opens an extension. */
  predicate HasExtension(segment: string) {
    exists k :: 1 <= k < |segment| && segment[k] == '.'
  }

  /**
   * `path.basename(segment, path.extname(segment))` for one segment: the segment without
   * its extension, the part from its last dot on; a dot that opens the segment starts no
   * extension.
   */
  function Stem(segment: string): (r: string)
    ensures |r| <= |segment| && r == segment[..|r|]
    ensures HasExtension(segment) ==> 0 < |r| < |segment| && segment[|r|] == '.' && forall k :: |r| < k < |segment| ==> segment[k] != '.'
    ensures !HasExtension(segment) ==> r == segment
  {
    var dot := LastIndexOf(segment, '.');
    if dot.Some? && dot.value > 0 then
      segment[..dot.value]
    else
      segment
  }

  const INDEX_SUFFIX := "/index.tsx"

  /**
   * `resolveWidgetName(entryKey)`: after turning backslashes into slashes, the directory
   * name for a `<dir>/index.tsx` entry and the file name without its extension otherwise.
   */
  function ResolveWidgetName(entryKey: string): (name: string)
    ensures '/' !in name && '\\' !in name
  {
    var n := NormalizeSeparators(entryKey);
    if EndsWith(n, INDEX_SUFFIX) then
      var d := n[..|n| - |INDEX_SUFFIX|];
      var r := BaseName(d);
      NotInSlice(n, 0, |n| - |INDEX_SUFFIX|, '\\');
      NotInSlice(d, |d| - |r|, |d|, '\\');
      r
    else
      var b := BaseName(n);
      var r := Stem(b);
      NotInSlice(n, |n| - |b|, |n|, '\\');
      NotInSlice(b, 0, |r|, '\\');
      NotInSlice(b, 0, |r|, '/');
      r
  }

  /** A character absent from a string is absent from every slice of it. */
  lemma NotInSlice(s: string, i: nat, j: nat, c: char)
    requires i <= j <= |s| && c !in s
    ensures c !in s[i..j]
  {
    forall k | 0 <= k < j - i ensures s[i..j][k] != c {
      assert s[i..j][k] == s[i + k];
    }
  }

  /** Separators are normalised before anything else: a key and its slash form name the same widget. */
  lemma NameIgnoresSeparatorStyle(entryKey: string)
    ensures ResolveWidgetName(entryKey) == ResolveWidgetName(NormalizeSeparators(entryKey))
  {
    assert NormalizeSeparators(NormalizeSeparators(entryKey)) == NormalizeSeparators(entryKey);
  }

  /** A plain name: non-empty, without separators. */
  predicate PlainName(name: string) {
    name != [] && '/' !in name && '\\' !in name
  }

  /** The text after a final `/` is read back as the last segment. */
  lemma {:induction false} BaseNameAfterSlash(dir: string, name: string)
    requires '/' !in name
    ensures BaseName(dir + "/" + name) == name
    decreases |name|
  {
    var p := dir + "/" + name;
    if name == [] {
      assert p == dir + "/";
    } else {
      var init := name[..|name| - 1];
      assert p[|p| - 1] == name[|name| - 1];
      assert p[..|p| - 1] == dir + "/" + init;
      assert '/' !in init by {
        forall k | 0 <= k < |init| ensures init[k] != '/' {
          assert init[k] == name[k];
        }
      }
      BaseNameAfterSlash(dir, init);
      assert name == init + [name[|name| - 1]];
    }
  }

  /** A widget key built from a name without backslashes has none either. */
  lemma WidgetKeyNormalized(name: string, suffix: string)
    requires '\\' !in name && (suffix == INDEX_SUFFIX || suffix == ".tsx")
    ensures NormalizeSeparators(WidgetTemplate.WIDGETS_DIR + name + suffix) == WidgetTemplate.WIDGETS_DIR + name + suffix
  {
    var key := WidgetTemplate.WIDGETS_DIR + name + suffix;
    forall i | 0 <= i < |key| ensures key[i] != '\\' {
      if i < 12 {
        assert key[i] == "src/widgets/"[i];
      } else if i < 12 + |name| {
        assert key[i] == name[i - 12];
      } else {
        assert key[i] == suffix[i - 12 - |name|];
      }
    }
  }

  /** The widget `src/widgets/<name>/index.tsx` is named `<name>`. */
  lemma IndexEntryName(name: string)
    requires PlainName(name)
    ensures ResolveWidgetName(WidgetTemplate.WIDGETS_DIR + name + INDEX_SUFFIX) == name
  {
    var key := WidgetTemplate.WIDGETS_DIR + name + INDEX_SUFFIX;
    WidgetKeyNormalized(name, INDEX_SUFFIX);
    assert EndsWith(key, INDEX_SUFFIX);
    assert key[..|key| - |INDEX_SUFFIX|] == "src/widgets" + "/" + name;
    BaseNameAfterSlash("src/widgets", name);
  }

  /** `src/widgets/<name>.tsx` does not end in `/index.tsx` unless the name is `index` or has a slash. */
  lemma FlatKeyIsNotIndex(name: string)
    requires PlainName(name) && name != "index"
    ensures !EndsWith(WidgetTemplate.WIDGETS_DIR + name + ".tsx", INDEX_SUFFIX)
  {
    var key := WidgetTemplate.WIDGETS_DIR + name + ".tsx";
    var j := 6 + |name|;
    if |name| >= 6 {
      assert key[j] == name[|name| - 6];
    } else if |name| == 5 {
      assert key[|key| - 10..][1..6] == name;
    } else {
      assert key[j] == "src/widgets/"[j];
    }
  }

  /** The stem of `<name>.tsx` is `<name>`. */
  lemma TsxStem(name: string)
    requires name != []
    ensures Stem(name + ".tsx") == name
  {
    var seg := name + ".tsx";
    LastIndexOfAt(seg, '.', |name|);
  }

  /** The widget `src/widgets/<name>.tsx` is named `<name>`, unless it is `index`. */
  lemma FlatEntryName(name: string)
    requires PlainName(name) && name != "index"
    ensures ResolveWidgetName(WidgetTemplate.WIDGETS_DIR + name + ".tsx") == name
  {
    var key := WidgetTemplate.WIDGETS_DIR + name + ".tsx";
    WidgetKeyNormalized(name, ".tsx");
    FlatKeyIsNotIndex(name);
    assert key == "src/widgets" + "/" + (name + ".tsx");
    BaseNameAfterSlash("src/widgets", name + ".tsx");
    TsxStem(name);
  }

  // ---------------------------------------------------------------------------------------
  // The hash map

  /** A lower-case hexadecimal SHA-256 digest: 64 characters. */
  predicate IsSha256Hex(s: string) {
    |s| == 64 && forall i :: 0 <= i < |s| ==> s[i] in "0123456789abcdef"
  }

  type Sha256Hex = s: string | IsSha256Hex(s) witness seq(64, _ => '0')

  /**
   * The parsed manifest: its members in the order `Object.entries` lists them. A parsed
   * JSON object has each key once.
   */
  predicate DistinctKeys(m: seq<(string, WidgetTemplate.ManifestEntry)>) {
    forall i, j :: 0 <= i < j < |m| ==> m[i].0 != m[j].0
  }

  type ManifestEntries = m: seq<(string, WidgetTemplate.ManifestEntry)> | DistinctKeys(m) witness []

  /** `manifest[key]?.file` */
  function FileOf(manifest: seq<(string, WidgetTemplate.ManifestEntry)>, key: string): (r: Option<string>)
    ensures r.Some? ==> exists i :: 0 <= i < |manifest| && manifest[i].0 == key && manifest[i].1.file == r
  {
    if manifest == [] then None
    else if manifest[0].0 == key then manifest[0].1.file
    else
      var r := FileOf(manifest[1..], key);
      assert r.Some? ==> exists i :: 0 <= i < |manifest| && manifest[i].0 == key && manifest[i].1.file == r by {
        if r.Some? {
          var i :| 0 <= i < |manifest[1..]| && manifest[1..][i].0 == key && manifest[1..][i].1.file == r;
          assert manifest[i + 1] == manifest[1..][i];
        }
      }
      r
  }

  /** Only manifest keys under `src/widgets/` are widgets. */
  predicate IsWidgetKey(key: string) {
    StartsWith(key, WidgetTemplate.WIDGETS_DIR)
  }

  /** `createHash("sha256").update(html).digest("hex").slice(0, 8)` */
  function Hash8(sha256: string -> Sha256Hex, html: string): (h: string)
    ensures |h| == 8
  {
    sha256(html)[..8]
  }

  /** The record for a widget bundled as `widgetFile`: its hash and `<name>-<hash>.html`. */
  function EntryFor(name: string, widgetFile: string, styleFile: Option<string>, sha256: string -> Sha256Hex): (e: WidgetTemplate.HashEntry)
    ensures |e.hash| == 8 && e.file == name + "-" + e.hash + ".html"
  {
    var hash := Hash8(sha256, RenderTemplate(SERVER_URL_PLACEHOLDER, widgetFile, styleFile));
    WidgetTemplate.HashEntry(hash, name + "-" + hash + ".html")
  }

  /** A manifest member without a non-empty `file`. */
  predicate MissingFile(entry: WidgetTemplate.ManifestEntry) {
    entry.file.None? || entry.file.value == ""
  }

  /**
   * One iteration of the loop over the manifest; `nameOf` is the naming rule, which the
   * script fixes to `ResolveWidgetName`.
   */
  function Step(templates: map<string, WidgetTemplate.HashEntry>, member: (string, WidgetTemplate.ManifestEntry),
                styleFile: Option<string>, sha256: string -> Sha256Hex, nameOf: string -> string)
    : Result<map<string, WidgetTemplate.HashEntry>>
  {
    if !IsWidgetKey(member.0) then Ok(templates)
    else if MissingFile(member.1) then Err("Missing widget file in manifest for " + member.0)
    else
      var name := nameOf(member.0);
      Ok(templates[name := EntryFor(name, member.1.file.value, styleFile, sha256)])
  }

  /** The `templates` object after the loop has visited `members`, or the error it threw. */
  function Templates(members: seq<(string, WidgetTemplate.ManifestEntry)>, styleFile: Option<string>,
                     sha256: string -> Sha256Hex, nameOf: string -> string): (r: Result<map<string, WidgetTemplate.HashEntry>>)
    ensures r.Ok? ==> forall name :: name in r.value ==>
      |r.value[name].hash| == 8 && r.value[name].file == name + "-" + r.value[name].hash + ".html"
    decreases |members|
  {
    if members == [] then Ok(map[])
    else
      var before := Templates(members[..|members| - 1], styleFile, sha256, nameOf);
      if before.Err? then before else Step(before.value, members[|members| - 1], styleFile, sha256, nameOf)
  }

  /** Once the loop has thrown, the later members change nothing. */
  lemma {:induction false} ErrorIsFinal(members: seq<(string, WidgetTemplate.ManifestEntry)>, k: nat, styleFile: Option<string>,
                                        sha256: string -> Sha256Hex, nameOf: string -> string)
    requires k <= |members| && Templates(members[..k], styleFile, sha256, nameOf).Err?
    ensures Templates(members, styleFile, sha256, nameOf) == Templates(members[..k], styleFile, sha256, nameOf)
    decreases |members| - k
  {
    if k < |members| {
      assert members[..k + 1][..k] == members[..k];
      ErrorIsFinal(members, k + 1, styleFile, sha256, nameOf);
    } else {
      assert members[..k] == members;
    }
  }

  /**
   * The script's loop: reads the shared style file, then visits the manifest in order,
   * skipping keys outside `src/widgets/`, throwing on a widget without a file and
   * recording every other widget under its name.
   */
  method GenerateTemplates(manifest: ManifestEntries, sha256: string -> Sha256Hex)
    returns (r: Result<map<string, WidgetTemplate.HashEntry>>)
    ensures r == Templates(manifest, FileOf(manifest, "style.css"), sha256, ResolveWidgetName)
  {
    var styleFile := FileOf(manifest, "style.css");
    var templates: map<string, WidgetTemplate.HashEntry> := map[];
    for i := 0 to |manifest|
      invariant Templates(manifest[..i], styleFile, sha256, ResolveWidgetName) == Ok(templates)
    {
      assert manifest[..i + 1][..i] == manifest[..i];
      var (key, entry) := manifest[i];
      if !IsWidgetKey(key) {
        continue;
      }
      var widgetName := ResolveWidgetName(key);
      if MissingFile(entry) {
        ErrorIsFinal(manifest, i + 1, styleFile, sha256, ResolveWidgetName);
        return Err("Missing widget file in manifest for " + key);
      }
      var html := RenderTemplate(SERVER_URL_PLACEHOLDER, entry.file.value, styleFile);
      var hash := sha256(html)[..8];
      var file := widgetName + "-" + hash + ".html";
      templates := templates[widgetName := WidgetTemplate.HashEntry(hash, file)];
    }
    assert manifest[..|manifest|] == manifest;
    return Ok(templates);
  }

  /** The error, when there is one, names the first widget key without a file. */
  lemma {:induction false} TemplatesError(members: seq<(string, WidgetTemplate.ManifestEntry)>, styleFile: Option<string>,
                                          sha256: string -> Sha256Hex, nameOf: string -> string)
    ensures Templates(members, styleFile, sha256, nameOf).Err? <==>
      exists i :: 0 <= i < |members| && IsWidgetKey(members[i].0) && MissingFile(members[i].1)
    ensures Templates(members, styleFile, sha256, nameOf).Err? ==>
      exists i :: 0 <= i < |members| && IsWidgetKey(members[i].0) && MissingFile(members[i].1) &&
        Templates(members, styleFile, sha256, nameOf).message == "Missing widget file in manifest for " + members[i].0 &&
        forall j :: 0 <= j < i ==> !(IsWidgetKey(members[j].0) && MissingFile(members[j].1))
    decreases |members|
  {
    if members != [] {
      var init := members[..|members| - 1];
      TemplatesError(init, styleFile, sha256, nameOf);
      forall i | 0 <= i < |init| ensures init[i] == members[i] { }
    }
  }

  /** Member `i` is the last widget key of `members` named `name`. */
  predicate LastNamed(members: seq<(string, WidgetTemplate.ManifestEntry)>, i: int, name: string, nameOf: string -> string) {
    0 <= i < |members| && IsWidgetKey(members[i].0) && nameOf(members[i].0) == name &&
    forall j :: i < j < |members| && IsWidgetKey(members[j].0) ==> nameOf(members[j].0) != name
  }

  /** `t[name]` is the record of the last widget key named `name`. */
  ghost predicate RecordsLast(members: seq<(string, WidgetTemplate.ManifestEntry)>, t: map<string, WidgetTemplate.HashEntry>,
                              name: string, styleFile: Option<string>, sha256: string -> Sha256Hex, nameOf: string -> string)
    requires name in t
  {
    exists i :: LastNamed(members, i, name, nameOf) && !MissingFile(members[i].1) &&
      t[name] == EntryFor(name, members[i].1.file.value, styleFile, sha256)
  }

  /** A member that is not a widget key of that name keeps an earlier one the last. */
  lemma LastNamedExtend(members: seq<(string, WidgetTemplate.ManifestEntry)>, i: int, name: string, nameOf: string -> string)
    requires |members| > 0
    requires LastNamed(members[..|members| - 1], i, name, nameOf)
    requires !IsWidgetKey(members[|members| - 1].0) || nameOf(members[|members| - 1].0) != name
    ensures LastNamed(members, i, name, nameOf)
  {
    var init := members[..|members| - 1];
    assert members[i] == init[i];
    forall j | i < j < |members| && IsWidgetKey(members[j].0) ensures nameOf(members[j].0) != name {
      if j < |init| {
        assert members[j] == init[j];
        assert IsWidgetKey(init[j].0);
      } else {
        assert members[j] == members[|members| - 1];
      }
    }
  }

  /**
   * On success the names recorded are exactly the names of the widget keys, and each
   * holds the record of the LAST widget key with that name.
   */
  lemma {:induction false} TemplatesContents(members: seq<(string, WidgetTemplate.ManifestEntry)>, styleFile: Option<string>,
                                             sha256: string -> Sha256Hex, nameOf: string -> string)
    requires Templates(members, styleFile, sha256, nameOf).Ok?
    ensures var t := Templates(members, styleFile, sha256, nameOf).value;
      forall i :: 0 <= i < |members| && IsWidgetKey(members[i].0) ==> nameOf(members[i].0) in t
    ensures var t := Templates(members, styleFile, sha256, nameOf).value;
      forall name :: name in t ==> RecordsLast(members, t, name, styleFile, sha256, nameOf)
    decreases |members|
  {
    if members != [] {
      var n := |members| - 1;
      var init := members[..n];
      TemplatesContents(init, styleFile, sha256, nameOf);
      var before := Templates(init, styleFile, sha256, nameOf).value;
      var t := Templates(members, styleFile, sha256, nameOf).value;
      var last := members[n];
      forall i | 0 <= i < |members| && IsWidgetKey(members[i].0) ensures nameOf(members[i].0) in t {
        if i < n {
          assert members[i] == init[i];
        }
      }
      forall name | name in t ensures RecordsLast(members, t, name, styleFile, sha256, nameOf) {
        if IsWidgetKey(last.0) && nameOf(last.0) == name {
          assert LastNamed(members, n, name, nameOf);
        } else {
          assert name in before && t[name] == before[name];
          var i :| LastNamed(init, i, name, nameOf) && !MissingFile(init[i].1) &&
            before[name] == EntryFor(name, init[i].1.file.value, styleFile, sha256);
          LastNamedExtend(members, i, name, nameOf);
          assert members[i] == init[i];
        }
      }
    }
  }

  /** `{ version: 1, generatedAt, templates }`, the file the script writes; `generatedAt` is the clock's reading. */
  function HashMapFile(templates: map<string, WidgetTemplate.HashEntry>, generatedAt: string): WidgetTemplate.TemplateHashMap {
    WidgetTemplate.TemplateHashMap(1, Some(generatedAt), Some(templates))
  }

  /** A recorded name holds the hash of the page of a widget key with that name and a bundled file. */
  lemma RecordedHash(members: seq<(string, WidgetTemplate.ManifestEntry)>, style: Option<string>, sha256: string -> Sha256Hex,
                     name: string, nameOf: string -> string)
    requires Templates(members, style, sha256, nameOf).Ok?
    requires name in Templates(members, style, sha256, nameOf).value
    ensures var t := Templates(members, style, sha256, nameOf).value;
      t[name].file == name + "-" + t[name].hash + ".html" &&
      exists i :: 0 <= i < |members| && IsWidgetKey(members[i].0) && nameOf(members[i].0) == name &&
        !MissingFile(members[i].1) &&
        t[name].hash == Hash8(sha256, WidgetTemplate.RenderWidgetTemplate(SERVER_URL_PLACEHOLDER, members[i].1.file.value, style))
  {
    TemplatesContents(members, style, sha256, nameOf);
    var t := Templates(members, style, sha256, nameOf).value;
    assert RecordsLast(members, t, name, style, sha256, nameOf);
    var i :| LastNamed(members, i, name, nameOf) && !MissingFile(members[i].1) &&
      t[name] == EntryFor(name, members[i].1.file.value, style, sha256);
    RenderTemplateMatchesServer(SERVER_URL_PLACEHOLDER, members[i].1.file.value, style);
  }

  /**
   * The server finds what the script wrote: a widget of the manifest is served under
   * `<name>-<hash8>.html`, the hash being that of its page rendered with the server URL left
   * as a placeholder.
   */
  lemma ServerUsesGeneratedName(manifest: ManifestEntries, sha256: string -> Sha256Hex, generatedAt: string, name: string, nameOf: string -> string)
    requires Templates(manifest, FileOf(manifest, "style.css"), sha256, nameOf).Ok?
    requires name in Templates(manifest, FileOf(manifest, "style.css"), sha256, nameOf).value
    ensures var t := Templates(manifest, FileOf(manifest, "style.css"), sha256, nameOf).value;
      WidgetTemplate.ResolveWidgetTemplateUri(Some(HashMapFile(t, generatedAt)), name) ==
        WidgetTemplate.TEMPLATE_URI_PREFIX + name + "-" + t[name].hash + ".html"
    ensures var t := Templates(manifest, FileOf(manifest, "style.css"), sha256, nameOf).value;
      exists i :: 0 <= i < |manifest| && IsWidgetKey(manifest[i].0) && nameOf(manifest[i].0) == name &&
        !MissingFile(manifest[i].1) &&
        t[name].hash == Hash8(sha256, WidgetTemplate.RenderWidgetTemplate(SERVER_URL_PLACEHOLDER, manifest[i].1.file.value, FileOf(manifest, "style.css")))
  {
    var style := FileOf(manifest, "style.css");
    RecordedHash(manifest, style, sha256, name, nameOf);
    HashedUri(Templates(manifest, style, sha256, nameOf).value, generatedAt, name);
  }

  /** A recorded widget is served under its recorded `<name>-<hash8>.html`. */
  lemma HashedUri(t: map<string, WidgetTemplate.HashEntry>, generatedAt: string, name: string)
    requires name in t && t[name].file == name + "-" + t[name].hash + ".html"
    ensures WidgetTemplate.ResolveWidgetTemplateUri(Some(HashMapFile(t, generatedAt)), name) ==
      WidgetTemplate.TEMPLATE_URI_PREFIX + name + "-" + t[name].hash + ".html"
  {
    var p := WidgetTemplate.TEMPLATE_URI_PREFIX;
    var h := t[name].hash;
    assert p + (name + "-" + h + ".html") == p + name + "-" + h + ".html";
  }
}
