/** simple-blog-generator.py: one post per repository document that names a release (README.md
    and the markdown files under docs/), filed under its release number; no index update. */
module SimpleGenerator {
  import opened Text
  import opened Patterns
  import opened Naming
  import opened Markdown
  import opened Render

  // ---------------------------------------------------------------- the record

  const ReleaseLead: String := "EYN-OS Release "

  /** `extract_update_info`: nothing unless the document names a release; the title is the first
      heading, or "EYN-OS Release <number>" without one. The record has no date and no changes. */
  function UpdateInfo(content: String, filename: String): (r: Option<ReleaseInfo>)
    ensures r.None? <==> Version(content) == []
    ensures r.Some? ==> var info := r.value;
      && info.version == Version(content) && |info.version| > 0 && AllDigits(info.version)
      && info.title != []
      && (Title(content) != [] ==> info.title == Title(content))
      && (Title(content) == [] ==> info.title == ReleaseLead + info.version)
      && info.features == Features(content) && info.changes == [] && info.date == []
      && info.content == content && info.sourceFile == filename
  {
    var v := Version(content);
    if v == [] then None
    else
      var t := Title(content);
      Some(ReleaseInfo(if t == [] then ReleaseLead + v else t, [], v, Features(content), [], content, filename))
  }

  /** The same steps with an early return: the release number first, then the heading, then the
      feature loop. */
  method ExtractUpdateInfo(content: String, filename: String) returns (r: Option<ReleaseInfo>)
    ensures r == UpdateInfo(content, filename)
  {
    var v := NumberAfter(Lower(content), "release", Spaces);
    if v.None? {
      return None;
    }
    var version := v.value;
    var t := Search(Heading, content, 0);
    var title := if t.Some? then Group(content, t.value.first) else ReleaseLead + version;
    var features := CollectFeatures(content);
    r := Some(ReleaseInfo(title, [], version, features, [], content, filename));
  }

  // ---------------------------------------------------------------- the file name

  /** The digits a text starts with. */
  function LeadingDigits(s: String): (d: String)
    ensures AllDigits(d) && |d| <= |s| && d == s[..|d|]
    ensures |d| < |s| ==> !IsDigit(s[|d|])
  {
    if s == [] || !IsDigit(s[0]) then [] else [s[0]] + LeadingDigits(s[1..])
  }

  /** `release-<number>-<slug>.html`. */
  function ReleaseFileName(version: String, title: String): (r: String)
    ensures |r| == 8 + |version| + 1 + |Slug(title)| + 5
    ensures r[..8] == "release-" && r[8..8 + |version|] == version && r[8 + |version|] == '-'
    ensures EndsWith(r, ".html")
  {
    var r := "release-" + version + "-" + HtmlName(Slug(title));
    assert r[..8] == "release-" && r[8..8 + |version|] == version;
    assert r[|r| - 5..] == HtmlName(Slug(title))[|Slug(title)|..];
    r
  }

  /** The release number can be read back from the file name: the digits right after `release-`. */
  lemma {:induction false} VersionFromFileName(version: String, title: String)
    requires AllDigits(version)
    ensures LeadingDigits(ReleaseFileName(version, title)[8..]) == version
  {
    var rest := ReleaseFileName(version, title)[8..];
    assert rest == version + rest[|version|..];
    assert rest[|version|] == '-';
    LeadingDigitsOf(version, rest[|version|..]);
  }

  lemma {:induction false} LeadingDigitsOf(d: String, rest: String)
    requires AllDigits(d) && (rest == [] || !IsDigit(rest[0]))
    ensures LeadingDigits(d + rest) == d
    decreases |d|
  {
    if d != [] {
      LeadingDigitsOf(d[1..], rest);
      assert (d + rest)[1..] == d[1..] + rest;
    }
  }

  // ---------------------------------------------------------------- the post

  /** The tags the post page shows. */
  function PostTags(version: String): String
  {
    "Release, EYN-OS, Version " + version
  }

  /** The introduction: the release number leads the shared release introduction. */
  function Intro(info: ReleaseInfo): String
  {
    ReleaseIntro(ReleaseLead + info.version, info.features)
  }

  const OverviewRest: String :=
    " represents a significant step " +
    "forward in the project's " +
    "development, introducing new " +
    "capabilities and improvements that " +
    "enhance the overall user experience " +
    "and system functionality."
  const DetailsText: String :=
    "This release maintains EYN-OS's core " +
    "philosophy of building everything " +
    "from scratch for educational " +
    "purposes. Each new feature is " +
    "implemented with clear, " +
    "understandable code that serves as " +
    "both a functional tool and a " +
    "learning resource."
  const SourceLead: String :=
    "This release information was " +
    "extracted from <code>"
  const SourceClose: String :=
    "</code> in the EYN-OS repository. " +
    "For complete technical details, see " +
    "the full documentation and source " +
    "code."

  /** The "Release Overview" section, naming the release. */
  function Head(version: String): seq<String>
  {
    [H2("Release Overview"), Para(ReleaseLead + version + OverviewRest)]
  }

  /** The "Technical Details" and "Source Information" sections, naming the source document. */
  function Tail(src: String): seq<String>
  {
    [H2("Technical Details"), Para(DetailsText), H2("Source Information"), Para(SourceLead + src + SourceClose)]
  }

  /** The lines of `generate_main_content`: this generator has no changes section. */
  function PostLines(info: ReleaseInfo): seq<String>
  {
    MainLines(Head(info.version), info.features, [], Tail(info.sourceFile))
  }

  /** A post has a "New Features" section exactly when its record has features, and never a
      "Key Changes" section. */
  lemma PostSectionsIff(info: ReleaseInfo)
    ensures FeaturesHeading() in PostLines(info) <==> info.features != []
    ensures ChangesHeading() !in PostLines(info)
  {
    LinesDiffer(Feature([], []), []);
    assert FeaturesHeading()[4] == 'N' && ChangesHeading()[4] == 'K';
    var lines := Head(info.version) + Tail(info.sourceFile);
    assert lines[0][4] == 'R' && lines[2][4] == 'T' && lines[4][4] == 'S';
    assert lines[1][1] == 'p' && lines[3][1] == 'p' && lines[5][1] == 'p';
    SectionsPresentIff(Head(info.version), info.features, [], Tail(info.sourceFile));
  }

  /** The page written for a record. */
  function PostHtml(info: ReleaseInfo, template: String, monthYear: String): String
  {
    Page(template, info.title, monthYear, PostTags(info.version), Intro(info),
         Head(info.version), info.features, [], Tail(info.sourceFile))
  }

  /** `generate_blog_post`: the file name and the page written under it; `monthYear` is the current
      month as `%B %Y`. */
  method GenerateBlogPost(info: ReleaseInfo, template: String, monthYear: String) returns (filename: String, html: String)
    ensures Written(filename, html) == PageOf(info, template, monthYear)
  {
    filename := "release-" + info.version + "-" + HtmlName(Slug(info.title));
    html := BuildPage(template, info.title, monthYear, PostTags(info.version), Intro(info),
                      Head(info.version), info.features, [], Tail(info.sourceFile));
  }

  // ---------------------------------------------------------------- the scan and the run

  /** A document is kept exactly when it names a release. */
  function Pick(d: Doc): (r: Option<ReleaseInfo>)
    ensures r.Some? <==> Version(d.content) != []
  {
    UpdateInfo(d.content, d.path)
  }

  /** README.md at the top of the repository, when it exists, then the docs/ walk; no file name is
      skipped. */
  function ScanDocs(readme: Option<String>, docs: seq<Doc>): seq<Doc>
  {
    (if readme.Some? then [Doc("README.md", readme.value)] else []) + docs
  }

  /** `scan_for_updates`. */
  method ScanForUpdates(readme: Option<String>, docs: seq<Doc>) returns (updates: seq<ReleaseInfo>)
    ensures updates == FilterMap(ScanDocs(readme, docs), Pick)
  {
    updates := ScanDocuments(ScanDocs(readme, docs), Pick);
  }

  /** Every update found names a release and has a title. */
  lemma UpdatesNamed(readme: Option<String>, docs: seq<Doc>, u: ReleaseInfo)
    requires u in FilterMap(ScanDocs(readme, docs), Pick)
    ensures u.version != [] && AllDigits(u.version) && u.title != []
  {
    var i := FilterMapSource(ScanDocs(readme, docs), Pick, u);
  }

  /** Every docs/ file that names a release is found, whatever its name. */
  lemma DocFound(readme: Option<String>, docs: seq<Doc>, i: nat)
    requires i < |docs| && Pick(docs[i]).Some?
    ensures Pick(docs[i]).value in FilterMap(ScanDocs(readme, docs), Pick)
  {
    FilterMapHasAfter(if readme.Some? then [Doc("README.md", readme.value)] else [], docs, i, Pick);
  }

  /** A written file: its name under blog/ and its text. */
  datatype Written = Written(filename: String, html: String)

  /** The file written for one update. */
  function PageOf(u: ReleaseInfo, template: String, monthYear: String): Written
  {
    Written(ReleaseFileName(u.version, u.title), PostHtml(u, template, monthYear))
  }

  /** The loop of `run` that writes one post per update. */
  method GeneratePosts(updates: seq<ReleaseInfo>, template: String, monthYear: String) returns (pages: seq<Written>)
    ensures |pages| == |updates|
    ensures forall i :: 0 <= i < |updates| ==> pages[i] == PageOf(updates[i], template, monthYear)
  {
    pages := [];
    for i := 0 to |updates|
      invariant |pages| == i
      invariant forall k :: 0 <= k < i ==> pages[k] == PageOf(updates[k], template, monthYear)
    {
      var filename, html := GenerateBlogPost(updates[i], template, monthYear);
      pages := pages + [Written(filename, html)];
    }
  }

  /** `run`, after its existence checks: the pages written, one per update in scan order (a later
      page overwrites an earlier one of the same name). */
  method Run(readme: Option<String>, docs: seq<Doc>, template: String, monthYear: String) returns (pages: seq<Written>)
    ensures var updates := FilterMap(ScanDocs(readme, docs), Pick);
      |pages| == |updates| && forall i :: 0 <= i < |updates| ==> pages[i] == PageOf(updates[i], template, monthYear)
  {
    var updates := ScanForUpdates(readme, docs);
    pages := GeneratePosts(updates, template, monthYear);
  }
}
