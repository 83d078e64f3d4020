/** The markdown field extractor the advanced, blog and simple generators share: the release
    number, the first level-1 heading, the `- **Name**: Description` feature bullets and, for the
    blog generator, the bullets of a changes section. */
module Markdown {
  import opened Text
  import opened Patterns
  import opened PatternFacts

  datatype Feature = Feature(name: String, description: String)

  /** The record the extractors fill in (`title`, `date`, `version`, `features`, `changes`,
      `content`, `source_file`). */
  datatype ReleaseInfo = ReleaseInfo(
    title: String, date: String, version: String, features: seq<Feature>,
    changes: seq<String>, content: String, sourceFile: String)

  // ---------------------------------------------------------------- the three fields

  /** The digits after the first `release\s+` in the lower-cased content, `''` when there is none. */
  function Version(content: String): (v: String)
    ensures AllDigits(v)
    ensures v == [] <==> forall j :: !NumberAt(Lower(content), "release", Spaces, j)
  {
    match NumberAfter(Lower(content), "release", Spaces)
    case Some(d) => d
    case None => []
  }

  /** Group 1 of the first `^#\s+(.+)$` line, unstripped; `''` when no line matches. */
  function Title(content: String): (t: String)
    ensures NoChar(t, '\n')
    ensures t == [] <==> forall p: nat :: !MatchesAt(Heading, content, p)
    ensures t != [] ==> exists p: nat :: MatchesAt(Heading, content, p) && (forall q: nat :: q < p ==> !MatchesAt(Heading, content, q))
                                && t == Group(content, MatchAt(Heading, content, p).value.first)
  {
    match Search(Heading, content, 0)
    case None => []
    case Some(h) =>
      GroupToLineEnd(Heading, content, h.start);
      Group(content, h.first)
  }

  /** The feature-bullet matches of `re.findall`, in document order. */
  function FeatureHits(content: String): seq<Hit>
  {
    FindAll(FeatureItem, content)
  }

  /** The feature of one match: its two groups, stripped. */
  function FeatureOf(content: String, h: Hit): Feature
    requires HitIn(content, h)
  {
    Feature(Strip(Group(content, h.first)), Strip(Group(content, h.second)))
  }

  /** One feature per feature-bullet match, in document order. */
  function Features(content: String): (fs: seq<Feature>)
    ensures |fs| == |FeatureHits(content)|
  {
    var hits := FeatureHits(content);
    seq(|hits|, k requires 0 <= k < |hits| => FeatureOf(content, hits[k]))
  }

  /** The loop that appends one `{name, description}` per match. */
  method CollectFeatures(content: String) returns (features: seq<Feature>)
    ensures features == Features(content)
  {
    var matches := FindAll(FeatureItem, content);
    features := [];
    for k := 0 to |matches|
      invariant |features| == k
      invariant forall j :: 0 <= j < k ==> features[j] == FeatureOf(content, matches[j])
    {
      var h := matches[k];
      features := features + [Feature(Strip(Group(content, h.first)), Strip(Group(content, h.second)))];
    }
  }

  /** The record before any defaults: title, version and features from the content, no changes. */
  function MarkdownInfo(content: String, filename: String): (info: ReleaseInfo)
    ensures info.title == Title(content) && info.version == Version(content)
    ensures info.features == Features(content) && info.changes == [] && info.date == []
    ensures info.content == content && info.sourceFile == filename
  {
    ReleaseInfo(Title(content), [], Version(content), Features(content), [], content, filename)
  }

  /** `extract_release_info_from_markdown` (and the same steps of `extract_release_info`). */
  method ExtractReleaseInfo(content: String, filename: String) returns (info: ReleaseInfo)
    ensures info == MarkdownInfo(content, filename)
  {
    info := ReleaseInfo([], [], [], [], [], content, filename);
    var v := NumberAfter(Lower(content), "release", Spaces);
    if v.Some? {
      info := info.(version := v.value);
    }
    var t := Search(Heading, content, 0);
    if t.Some? {
      info := info.(title := Group(content, t.value.first));
    }
    var fs := CollectFeatures(content);
    info := info.(features := fs);
  }

  // ---------------------------------------------------------------- the changes section

  /** Group 1 of each `^\s*[-*]\s*(.+)$` match in `t`, in order. */
  function ChangeItems(t: String): (items: seq<String>)
    ensures |items| == |FindAll(ListItem, t)|
  {
    var hits := FindAll(ListItem, t);
    seq(|hits|, k requires 0 <= k < |hits| => Group(t, hits[k].first))
  }

  /** The bullets of the first "Changes", "What's New" or "Updates" section, stripped, empty ones
      dropped (`[item.strip() for item in items if item.strip()]`); none when there is no such
      section. */
  function Changes(content: String): seq<String>
  {
    match ChangesText(content)
    case None => []
    case Some(t) => FilterMap(ChangeItems(t), StripPick)
  }

  /** An item of a section without `##` has no `##` once stripped. */
  lemma ItemFree(t: String, j: nat)
    requires !Contains(t, "##") && j < |ChangeItems(t)|
    ensures !Contains(Strip(ChangeItems(t)[j]), "##")
  {
    var hits := FindAll(ListItem, t);
    var item := ChangeItems(t)[j];
    assert item == t[hits[j].first.lo..hits[j].first.hi];
    NotContainsSub(t, "##", hits[j].first.lo, hits[j].first.hi);
    var i := StripMiddle(item);
    NotContainsSub(item, "##", i, i + |Strip(item)|);
  }

  lemma ItemsShape(t: String)
    requires !Contains(t, "##")
    ensures forall c :: c in FilterMap(ChangeItems(t), StripPick) ==> c != [] && Strip(c) == c && !Contains(c, "##")
  {
    var items := ChangeItems(t);
    forall c | c in FilterMap(items, StripPick) ensures c != [] && Strip(c) == c && !Contains(c, "##") {
      var j := FilterMapSource(items, StripPick, c);
      StripIdempotent(items[j]);
      ItemFree(t, j);
    }
  }

  /** A change is a non-empty stripped line of the section: it never holds the `##` that ends the
      section, and there are no changes without a changes heading. With a heading, the changes
      are the section's items picked in order (`ChangesFromSection`). */
  lemma ChangesShape(content: String)
    ensures forall c :: c in Changes(content) ==> c != [] && Strip(c) == c && !Contains(c, "##")
    ensures (forall j :: ChangesHeadAt(content, j).None?) ==> Changes(content) == []
    ensures forall i: nat, g: nat :: FirstChangesHeadAt(content, i, g) ==>
      exists e: nat, ix: seq<nat> :: SectionEnd(content, g, e) && Picks(ChangeItems(content[g..e]), StripPick, Changes(content), ix)
  {
    match ChangesText(content)
    case None =>
    case Some(t) => ItemsShape(t);
    forall i: nat, g: nat | FirstChangesHeadAt(content, i, g)
      ensures exists e: nat, ix: seq<nat> :: SectionEnd(content, g, e) && Picks(ChangeItems(content[g..e]), StripPick, Changes(content), ix)
    {
      var e, ix := ChangesFromSection(content, i, g);
    }
  }

  /** The changes are the list items of the section that runs from the first changes heading to
      the next `##` (or the end), each stripped, in order, those that strip to nothing dropped. */
  lemma ChangesFromSection(content: String, i: nat, g: nat) returns (e: nat, ix: seq<nat>)
    requires FirstChangesHeadAt(content, i, g)
    ensures SectionEnd(content, g, e)
    ensures Picks(ChangeItems(content[g..e]), StripPick, Changes(content), ix)
  {
    e := ChangesSection(content, i, g);
    ChangesOf(content, content[g..e]);
    ix := FilterMapPicks(ChangeItems(content[g..e]), StripPick);
  }

  lemma ChangesOf(content: String, t: String)
    requires ChangesText(content) == Some(t)
    ensures Changes(content) == FilterMap(ChangeItems(t), StripPick)
  {
  }

  /** The record of the blog generator: the shared fields and the changes. */
  function BlogInfo(content: String, filename: String): (info: ReleaseInfo)
    ensures info == MarkdownInfo(content, filename).(changes := Changes(content))
  {
    MarkdownInfo(content, filename).(changes := Changes(content))
  }

  /** `extract_release_info` of the blog generator. */
  method ExtractBlogReleaseInfo(content: String, filename: String) returns (info: ReleaseInfo)
    ensures info == BlogInfo(content, filename)
    ensures (forall j :: ChangesHeadAt(content, j).None?) ==> info.changes == []
    ensures forall i: nat, g: nat :: FirstChangesHeadAt(content, i, g) ==>
      exists e: nat, ix: seq<nat> :: SectionEnd(content, g, e) && Picks(ChangeItems(content[g..e]), StripPick, info.changes, ix)
  {
    info := ExtractReleaseInfo(content, filename);
    var section := ChangesText(content);
    if section.Some? {
      info := info.(changes := FilterMap(ChangeItems(section.value), StripPick));
    }
    forall i: nat, g: nat | FirstChangesHeadAt(content, i, g)
      ensures exists e: nat, ix: seq<nat> :: SectionEnd(content, g, e) && Picks(ChangeItems(content[g..e]), StripPick, info.changes, ix)
    {
      var e, ix := ChangesFromSection(content, i, g);
    }
  }

  /** A document is worth a post when it names a release or lists a feature. */
  predicate Keep(info: ReleaseInfo)
  {
    info.version != [] || info.features != []
  }

  // ---------------------------------------------------------------- scanning documents

  /** A markdown file found by the directory walk: its path relative to the repository, and its text. */
  datatype Doc = Doc(path: String, content: String)

  /** The walk: each document in turn, its record appended when `pick` makes one. */
  method ScanDocuments(docs: seq<Doc>, pick: Doc -> Option<ReleaseInfo>) returns (found: seq<ReleaseInfo>)
    ensures found == FilterMap(docs, pick)
  {
    found := [];
    for i := 0 to |docs|
      invariant found == FilterMap(docs[..i], pick)
    {
      var r := pick(docs[i]);
      if r.Some? {
        found := found + [r.value];
      }
      assert docs[..i + 1][..i] == docs[..i];
    }
    assert docs[..|docs|] == docs;
  }

  // ---------------------------------------------------------------- what the features are

  /** Every feature bullet that no earlier feature bullet runs into yields a feature, in document
      order; an earlier bullet whose description runs on (`\s*` crossing the line break) swallows it. */
  lemma FeatureReported(content: String, p: nat)
    requires MatchesAt(FeatureItem, content, p) && Unswallowed(FeatureItem, content, p)
    ensures exists k :: 0 <= k < |Features(content)| && FeatureHits(content)[k].start == p
              && MatchAt(FeatureItem, content, p) == Some(FeatureHits(content)[k])
              && Features(content)[k] == FeatureOf(content, FeatureHits(content)[k])
  {
    var k := FindAllReports(FeatureItem, content, p);
    assert Features(content)[k] == FeatureOf(content, FeatureHits(content)[k]);
  }

  /** Features come in document order, each from its own line start, with no sharing of text: two
      equal bullets give two equal features, none is dropped as a duplicate. */
  lemma FeaturesInOrder(content: String, j: nat, k: nat)
    requires j < k < |Features(content)|
    ensures FeatureHits(content)[j].end <= FeatureHits(content)[k].start
    ensures LineStart(content, FeatureHits(content)[k].start)
  {
    FindAllOrdered(FeatureItem, content, j, k);
  }
}
