/** blog-generator.py: one post per repository document that names a release or lists features
    (README.md, CONTRIBUTING.md and the markdown files under docs/), then the index entries for
    all of them inserted at the top of the posts section of the index page. */
module BlogGenerator {
  import opened Text
  import opened Naming
  import opened Markdown
  import opened Render
  import opened Splice
  import opened IndexEntry

  // ---------------------------------------------------------------- the record's defaults

  const TitleLead: String := "EYN-OS Update - "
  const DefaultVersion: String := "Update"

  /** The two defaults `generate_blog_post` writes into the record before it uses it: a title made
      from the source file when the document had no heading, and the version "Update". */
  function WithDefaults(info: ReleaseInfo): (r: ReleaseInfo)
    ensures r.title != [] && r.version != []
    ensures info.title != [] ==> r.title == info.title
    ensures info.title == [] ==> r.title == TitleLead + info.sourceFile
    ensures info.version != [] ==> r.version == info.version
    ensures info.version == [] ==> r.version == DefaultVersion
    ensures r.(title := info.title, version := info.version) == info
  {
    info.(title := if info.title == [] then TitleLead + info.sourceFile else info.title,
          version := if info.version == [] then DefaultVersion else info.version)
  }

  /** Filling in the defaults twice is filling them in once: a record the generator has already
      posted keeps its title and version. */
  lemma DefaultsIdempotent(info: ReleaseInfo)
    ensures WithDefaults(WithDefaults(info)) == WithDefaults(info)
  {
  }

  // ---------------------------------------------------------------- the post

  /** The post's file name: the slug of its title and `.html`; only lower-case letters, digits and
      `-` come before the extension. */
  function PostFileName(title: String): (r: String)
    ensures EndsWith(r, ".html") && |r| >= 5
    ensures forall i :: 0 <= i < |r| - 5 ==> SlugChar(r[i])
  {
    SlugChars(title);
    HtmlName(Slug(title))
  }

  /** The tags the post page shows: always these three, whatever the version. */
  const PostTags: String := "Release, EYN-OS, Update"

  /** `generate_intro`: the version leads the shared release introduction. */
  function Intro(info: ReleaseInfo): String
  {
    ReleaseIntro("EYN-OS " + info.version, info.features)
  }

  const OverviewText: String :=
    "This update represents a " +
    "significant step forward in EYN-OS " +
    "development, introducing new " +
    "capabilities and improvements that " +
    "enhance the overall user experience " +
    "and system functionality."
  const DetailsText: String :=
    "This update maintains EYN-OS's core " +
    "philosophy of building everything " +
    "from scratch for educational " +
    "purposes. Each new feature is " +
    "implemented with clear, " +
    "understandable code that serves as " +
    "both a functional tool and a " +
    "learning resource."

  /** The "Overview" section that opens every post. */
  function Head(): seq<String>
  {
    [H2("Overview"), Para(OverviewText)]
  }

  const SourceLead: String :=
    "This update information was " +
    "extracted from <code>"
  const SourceClose: String :=
    "</code> in the EYN-OS repository. " +
    "For complete technical details, see " +
    "the full documentation and source " +
    "code."

  /** The "Technical Details" and "Source Information" sections that close every post; the second
      names the document the post came from. */
  function Tail(src: String): seq<String>
  {
    [H2("Technical Details"), Para(DetailsText), H2("Source Information"), Para(SourceLead + src + SourceClose)]
  }

  /** The fixed sections never carry the features or the changes heading. */
  lemma FixedLinesNotHeadings(src: String)
    ensures FeaturesHeading() !in Head() + Tail(src) && ChangesHeading() !in Head() + Tail(src)
  {
    LinesDiffer(Feature([], []), []);
    assert FeaturesHeading()[4] == 'N' && ChangesHeading()[4] == 'K';
    var lines := Head() + Tail(src);
    assert lines[0][4] == 'O' && lines[2][4] == 'T' && lines[4][4] == 'S';
    assert lines[1][1] == 'p' && lines[3][1] == 'p' && lines[5][1] == 'p';
  }

  /** The lines of `generate_main_content` for a record. */
  function PostLines(info: ReleaseInfo): seq<String>
  {
    MainLines(Head(), info.features, info.changes, Tail(info.sourceFile))
  }

  /** A post has a "New Features" section exactly when its record has features, and a
      "Key Changes" section exactly when it has changes. */
  lemma PostSectionsIff(info: ReleaseInfo)
    ensures FeaturesHeading() in PostLines(info) <==> info.features != []
    ensures ChangesHeading() in PostLines(info) <==> info.changes != []
  {
    FixedLinesNotHeadings(info.sourceFile);
    SectionsPresentIff(Head(), info.features, info.changes, Tail(info.sourceFile));
  }

  /** The page written for a record that already has its defaults. */
  function PostHtml(info: ReleaseInfo, template: String, monthYear: String): String
  {
    Page(template, info.title, monthYear, PostTags, Intro(info), Head(), info.features, info.changes, Tail(info.sourceFile))
  }

  /** `generate_blog_post`: the record with its defaults (the dictionary is updated in place), the
      file name and the page written under it. `monthYear` is the current month as `%B %Y`. */
  method GenerateBlogPost(info: ReleaseInfo, template: String, monthYear: String)
    returns (posted: ReleaseInfo, filename: String, html: String)
    ensures posted == WithDefaults(info)
    ensures filename == PostFileName(posted.title)
    ensures html == PostHtml(posted, template, monthYear)
  {
    posted := info;
    if posted.title == [] {
      posted := posted.(title := TitleLead + posted.sourceFile);
    }
    if posted.version == [] {
      posted := posted.(version := DefaultVersion);
    }
    filename := HtmlName(Slug(posted.title));
    html := BuildPage(template, posted.title, monthYear, PostTags, Intro(posted),
                      Head(), posted.features, posted.changes, Tail(posted.sourceFile));
  }

  // ---------------------------------------------------------------- the index entries

  /** What `generate_blog_from_updates` remembers of each post for the index. */
  datatype NewPost = NewPost(filename: String, title: String, version: String)

  const ExcerptRest: String :=
    " brings significant updates and " +
    "improvements to the operating " +
    "system. This release introduces new " +
    "features and enhancements that " +
    "demonstrate the project's continued " +
    "development and commitment to " +
    "educational value."

  /** `generate_blog_index_entry`: dated with the current month, tagged and summarised by the
      version. */
  function BlogEntry(post: NewPost, monthYear: String): (e: Entry)
    ensures e.filename == post.filename && e.title == post.title && e.date == monthYear
    ensures e.tags == "Release, EYN-OS, " + post.version
    ensures e.excerpt == "EYN-OS " + post.version + ExcerptRest
  {
    Entry(post.filename, post.title, monthYear, "Release, EYN-OS, " + post.version, "EYN-OS " + post.version + ExcerptRest)
  }

  /** The rendered entries, one per post, in the order of the posts. */
  function Entries(posts: seq<NewPost>, monthYear: String): (r: seq<String>)
    ensures |r| == |posts|
  {
    if posts == [] then []
    else Entries(posts[..|posts| - 1], monthYear) + [EntryHtml(BlogEntry(posts[|posts| - 1], monthYear))]
  }

  /** The loop of `update_blog_index` that renders one entry per new post. */
  method RenderEntries(posts: seq<NewPost>, monthYear: String) returns (html: seq<String>)
    ensures html == Entries(posts, monthYear)
  {
    html := [];
    for i := 0 to |posts|
      invariant html == Entries(posts[..i], monthYear)
    {
      html := html + [EntryHtml(BlogEntry(posts[i], monthYear))];
      assert posts[..i + 1][..i] == posts[..i] && posts[..i + 1][i] == posts[i];
    }
    assert posts[..|posts|] == posts;
  }

  /** `update_blog_index`: the new page, or nothing (the page is left alone) when the posts
      section or its closing tag is missing. */
  method UpdateBlogIndex(index: String, posts: seq<NewPost>, monthYear: String) returns (r: Option<String>)
    ensures r == Prepend(Open, Close, Sep, index, Entries(posts, monthYear))
  {
    var html := RenderEntries(posts, monthYear);
    r := InsertAtTop(Open, Close, Sep, index, html);
  }

  // ---------------------------------------------------------------- the scan

  /** A document's record, when it is worth a post. */
  function Candidate(content: String, path: String): (r: Option<ReleaseInfo>)
    ensures r.Some? <==> Keep(BlogInfo(content, path))
    ensures r.Some? ==> r.value == BlogInfo(content, path)
  {
    var info := BlogInfo(content, path);
    if Keep(info) then Some(info) else None
  }

  /** README.md and CONTRIBUTING.md at the top of the repository, each when it exists. */
  function TopDocs(readme: Option<String>, contributing: Option<String>): (r: seq<Doc>)
    ensures |r| <= 2
  {
    (if readme.Some? then [Doc("README.md", readme.value)] else [])
    + (if contributing.Some? then [Doc("CONTRIBUTING.md", contributing.value)] else [])
  }

  /** A top-level file is kept when it names a release or lists a feature. */
  function TopPick(d: Doc): Option<ReleaseInfo>
  {
    Candidate(d.content, d.path)
  }

  /** A file found under docs/: skipped when it is called README.md or CONTRIBUTING.md (those are
      read from the top of the repository), otherwise kept like a top-level file. */
  function DocsPick(d: Doc): Option<ReleaseInfo>
  {
    if BaseName(d.path) == "README.md" || BaseName(d.path) == "CONTRIBUTING.md" then None
    else Candidate(d.content, d.path)
  }

  /** What the scan finds: README.md, then CONTRIBUTING.md, then the docs/ files in walk order. */
  function Updates(readme: Option<String>, contributing: Option<String>, docs: seq<Doc>): seq<ReleaseInfo>
  {
    FilterMap(TopDocs(readme, contributing), TopPick) + FilterMap(docs, DocsPick)
  }

  /** `scan_eynos_updates`; a missing top-level file is `None`, and `docs` lists the recursive
      walk of docs/ with paths relative to the repository. */
  method ScanEynosUpdates(readme: Option<String>, contributing: Option<String>, docs: seq<Doc>)
    returns (updates: seq<ReleaseInfo>)
    ensures updates == Updates(readme, contributing, docs)
  {
    updates := ScanDocuments(TopDocs(readme, contributing), TopPick);
    var fromDocs := ScanDocuments(docs, DocsPick);
    updates := updates + fromDocs;
  }

  /** Every update found names a release or lists a feature, and every docs/ file that does and
      is not called README.md or CONTRIBUTING.md is found. */
  lemma UpdatesKept(readme: Option<String>, contributing: Option<String>, docs: seq<Doc>)
    ensures forall u :: u in Updates(readme, contributing, docs) ==> Keep(u)
    ensures forall i :: 0 <= i < |docs| && DocsPick(docs[i]).Some? ==>
              DocsPick(docs[i]).value in Updates(readme, contributing, docs)
  {
    var top := TopDocs(readme, contributing);
    forall u | u in Updates(readme, contributing, docs) ensures Keep(u) {
      if u in FilterMap(top, TopPick) {
        var i := FilterMapSource(top, TopPick, u);
        PickedKept(top[i], u);
      } else {
        var i := FilterMapSource(docs, DocsPick, u);
        PickedKept(docs[i], u);
      }
    }
    forall i | 0 <= i < |docs| && DocsPick(docs[i]).Some?
      ensures DocsPick(docs[i]).value in Updates(readme, contributing, docs)
    {
      FilterMapHas(docs, i, DocsPick);
    }
  }

  /** A record either pick makes names a release or lists a feature. */
  lemma PickedKept(d: Doc, u: ReleaseInfo)
    requires TopPick(d) == Some(u) || DocsPick(d) == Some(u)
    ensures Keep(u)
  {
    assert Candidate(d.content, d.path) == Some(u);
  }

  /** A docs/ file called README.md or CONTRIBUTING.md is skipped, and any other is kept exactly when
      its record names a release or lists a feature. */
  lemma DocsPickIff(d: Doc)
    ensures DocsPick(d).Some? <==>
      BaseName(d.path) != "README.md" && BaseName(d.path) != "CONTRIBUTING.md" && Keep(BlogInfo(d.content, d.path))
  {
  }

  /** The files of a longer walk add their records after those already found. */
  lemma UpdatesExtend(readme: Option<String>, contributing: Option<String>, docs: seq<Doc>, more: seq<Doc>)
    ensures Updates(readme, contributing, docs + more) == Updates(readme, contributing, docs) + FilterMap(more, DocsPick)
  {
    FilterMapAfter(FilterMap(TopDocs(readme, contributing), TopPick), docs, more, DocsPick);
  }

  // ---------------------------------------------------------------- the whole run

  /** A written file: its name under blog/ and its text. */
  datatype Written = Written(filename: String, html: String)

  /** The page of each update, after its defaults, in order. */
  function Pages(updates: seq<ReleaseInfo>, template: String, monthYear: String): (r: seq<Written>)
    ensures |r| == |updates|
  {
    if updates == [] then []
    else
      var u := WithDefaults(updates[|updates| - 1]);
      Pages(updates[..|updates| - 1], template, monthYear) + [Written(PostFileName(u.title), PostHtml(u, template, monthYear))]
  }

  /** The index record of each update, after its defaults, in order. */
  function NewPosts(updates: seq<ReleaseInfo>): (r: seq<NewPost>)
    ensures |r| == |updates|
  {
    if updates == [] then []
    else
      var u := WithDefaults(updates[|updates| - 1]);
      NewPosts(updates[..|updates| - 1]) + [NewPost(PostFileName(u.title), u.title, u.version)]
  }

  /** The loop of `generate_blog_from_updates` that writes one post per update. */
  method GeneratePosts(updates: seq<ReleaseInfo>, template: String, monthYear: String)
    returns (pages: seq<Written>, newPosts: seq<NewPost>)
    ensures pages == Pages(updates, template, monthYear) && newPosts == NewPosts(updates)
  {
    pages, newPosts := [], [];
    for i := 0 to |updates|
      invariant pages == Pages(updates[..i], template, monthYear) && newPosts == NewPosts(updates[..i])
    {
      var posted, filename, html := GenerateBlogPost(updates[i], template, monthYear);
      PagesSnoc(updates, i, template, monthYear);
      NewPostsSnoc(updates, i);
      pages := pages + [Written(filename, html)];
      newPosts := newPosts + [NewPost(filename, posted.title, posted.version)];
    }
    assert updates[..|updates|] == updates;
  }

  /** One more update of a prefix adds its page. */
  lemma PagesSnoc(updates: seq<ReleaseInfo>, i: nat, template: String, monthYear: String)
    requires i < |updates|
    ensures var u := WithDefaults(updates[i]);
      Pages(updates[..i + 1], template, monthYear)
        == Pages(updates[..i], template, monthYear) + [Written(PostFileName(u.title), PostHtml(u, template, monthYear))]
  {
    assert updates[..i + 1][..i] == updates[..i];
  }

  /** One more update of a prefix adds its index record. */
  lemma NewPostsSnoc(updates: seq<ReleaseInfo>, i: nat)
    requires i < |updates|
    ensures var u := WithDefaults(updates[i]);
      NewPosts(updates[..i + 1]) == NewPosts(updates[..i]) + [NewPost(PostFileName(u.title), u.title, u.version)]
  {
    assert updates[..i + 1][..i] == updates[..i];
  }

  /** `generate_blog_from_updates`: the pages written, one per update in scan order (a later page
      overwrites an earlier one of the same name), and the new index page; nothing is written when
      the scan finds no update, and the index is left alone when its posts section is missing. */
  method GenerateBlogFromUpdates(readme: Option<String>, contributing: Option<String>, docs: seq<Doc>,
                                 template: String, index: String, monthYear: String)
    returns (pages: seq<Written>, newIndex: Option<String>)
    ensures var updates := Updates(readme, contributing, docs);
      && pages == Pages(updates, template, monthYear)
      && (updates == [] ==> newIndex.None?)
      && (updates != [] ==> newIndex == Prepend(Open, Close, Sep, index, Entries(NewPosts(updates), monthYear)))
  {
    var updates := ScanEynosUpdates(readme, contributing, docs);
    if updates == [] {
      return [], None;
    }
    var newPosts;
    pages, newPosts := GeneratePosts(updates, template, monthYear);
    newIndex := UpdateBlogIndex(index, newPosts, monthYear);
  }
}
