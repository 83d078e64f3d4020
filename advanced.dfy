/** advanced-blog-generator.py: posts from the significant commits of the git history and from the
    markdown files of the repository, then one index entry per post inserted at the top of the
    posts section of the index page. */
module AdvancedGenerator {
  import opened Text
  import opened Naming
  import opened Markdown
  import opened Render
  import opened Splice
  import opened IndexEntry
  import opened GitLog
  import BlogGenerator

  // ---------------------------------------------------------------- the commit post

  /** The file name of a commit post. */
  function CommitFileName(hash: String, title: String): String
  {
    "commit-" + Take(hash, 8) + "-" + HtmlName(Slug(title))
  }

  /** A commit post's file name is `commit-`, the first eight characters of the hash, `-`, the slug
      of the title and `.html`. */
  lemma CommitFileNameShape(hash: String, title: String)
    ensures var r := CommitFileName(hash, title); var h := Take(hash, 8);
      && |r| == 8 + |h| + |Slug(title)| + 5
      && r[..7] == "commit-" && r[7..7 + |h|] == h && r[7 + |h|] == '-'
      && r[8 + |h|..|r| - 5] == Slug(title) && EndsWith(r, ".html")
  {
    var h := Take(hash, 8);
    var r := CommitFileName(hash, title);
    assert r[..7] == "commit-" && r[7..7 + |h|] == h;
    assert r[8 + |h|..] == HtmlName(Slug(title));
  }

  /** The hash can be read back from a commit post's file name. */
  lemma HashFromFileName(hash: String, title: String)
    requires |hash| >= 8
    ensures CommitFileName(hash, title)[7..15] == hash[..8]
  {
    CommitFileNameShape(hash, title);
  }

  /** Between the prefix and `.html` only lower-case letters, digits and `-` occur, for a hash
      that is lower-case hexadecimal. */
  lemma CommitFileNameChars(hash: String, title: String)
    requires AllSlugChars(hash)
    ensures var r := CommitFileName(hash, title); |r| >= 13 && forall i :: 7 <= i < |r| - 5 ==> SlugChar(r[i])
  {
    var r := CommitFileName(hash, title);
    var h := Take(hash, 8);
    CommitFileNameShape(hash, title);
    SlugChars(title);
    forall i | 7 <= i < |r| - 5 ensures SlugChar(r[i]) {
      if i < 7 + |h| {
        assert r[i] == h[i - 7] == hash[i - 7];
      } else if i > 7 + |h| {
        assert r[i] == r[8 + |h|..|r| - 5][i - 8 - |h|];
      }
    }
  }

  /** Every character of a text may occur in a slug (a git hash is lower-case hexadecimal). */
  predicate AllSlugChars(s: String) { forall i :: 0 <= i < |s| ==> SlugChar(s[i]) }

  /** The tags of every commit post. */
  const CommitTags: String := "Update, EYN-OS, Development"

  const CommitLead: String :=
    "EYN-OS development continues with a " +
    "new update that brings improvements " +
    "and new features to the operating " +
    "system. "
  const ProgressLead: String :=
    "This update represents progress " +
    "toward Release "
  const CommitClosing: String :=
    "The changes demonstrate the ongoing " +
    "commitment to building a complete " +
    "operating system from scratch while " +
    "maintaining educational value and " +
    "system performance."

  /** The sentence about the coming release, when the commit names one. */
  function ProgressSentence(version: Option<String>): String
  {
    if version.Some? && |version.value| > 0 then ProgressLead + version.value + ". " else []
  }

  /** The sentence is present exactly when the commit names a release, and then names it. */
  lemma ProgressSentenceNames(version: Option<String>)
    ensures ProgressSentence(version) == [] <==> version.None? || version.value == []
    ensures var r := ProgressSentence(version);
      r != [] ==> |r| == |ProgressLead| + |version.value| + 2
                  && r[|ProgressLead|..|ProgressLead| + |version.value|] == version.value
  {
    var r := ProgressSentence(version);
    if r != [] {
      assert r[|ProgressLead|..|ProgressLead| + |version.value|] == version.value;
    }
  }

  /** `generate_commit_intro`. */
  function CommitIntro(version: Option<String>): String
  {
    CommitLead + ProgressSentence(version) + CommitClosing
  }

  const CommitOverview: String :=
    "This development update introduces " +
    "changes and improvements to EYN-OS, " +
    "continuing the project's evolution " +
    "toward a comprehensive operating " +
    "system platform."
  const CommitDetails: String :=
    "This update maintains EYN-OS's core " +
    "philosophy of building everything " +
    "from scratch for educational " +
    "purposes. Each change is " +
    "implemented with clear, " +
    "understandable code that serves as " +
    "both a functional improvement and a " +
    "learning resource."
  const CommitSourceLead: String :=
    "This update information was " +
    "extracted from git commit <code>"
  const CommitSourceClose: String :=
    "</code> in the EYN-OS repository. " +
    "For complete technical details, see " +
    "the full source code and " +
    "documentation."

  /** The "Update Overview" and "Commit Information" sections. */
  function CommitHead(hash: String, date: String, subject: String): seq<String>
  {
    [H2("Update Overview"), Para(CommitOverview), H2("Commit Information"),
     Para("<strong>Commit:</strong> <code>" + hash + "</code>"),
     Para("<strong>Date:</strong> " + date),
     Para("<strong>Subject:</strong> " + subject)]
  }

  const DescriptionHeading: String := "<h3>Commit Description</h3>"

  /** The "Commit Description" part, shown only for a commit with a body. */
  function Description(body: String): seq<String>
  {
    if |body| > 0 then [DescriptionHeading, Para(body)] else []
  }

  /** The opening of the "Files Modified" section. */
  function FilesLead(): seq<String>
  {
    [H2("Files Modified"), Para("The following files were modified in this update:"), "<ul>"]
  }

  function FileItem(path: String): String
  {
    "<li><code>" + path + "</code></li>"
  }

  /** One list item per file, in the order of the files. */
  function FileItems(files: seq<String>): (r: seq<String>)
    ensures |r| == |files|
  {
    if files == [] then [] else FileItems(files[..|files| - 1]) + [FileItem(files[|files| - 1])]
  }

  /** The i-th item names the i-th file. */
  lemma {:induction false} FileItemsAt(files: seq<String>, i: nat)
    requires i < |files|
    ensures FileItems(files)[i] == FileItem(files[i])
    decreases |files|
  {
    if i < |files| - 1 {
      FileItemsAt(files[..|files| - 1], i);
    }
  }

  /** The end of the list and the "Technical Details" and "Source Information" sections. */
  function CommitTail(hash: String): seq<String>
  {
    ["</ul>", H2("Technical Details"), Para(CommitDetails), H2("Source Information"),
     Para(CommitSourceLead + hash + CommitSourceClose)]
  }

  /** The lines of `generate_commit_main_content`. */
  function CommitLines(u: CommitUpdate): seq<String>
  {
    CommitHead(u.hash, u.date, u.subject) + Description(u.body) + FilesLead() + FileItems(u.changedFiles) + CommitTail(u.hash)
  }

  /** `generate_commit_main_content`, line by line. */
  method BuildCommitContent(u: CommitUpdate) returns (main: String)
    ensures main == JoinWith("\n", CommitLines(u))
  {
    var lines := CommitHead(u.hash, u.date, u.subject);
    if u.body != [] {
      lines := lines + [DescriptionHeading, Para(u.body)];
    }
    lines := lines + FilesLead();
    var items: seq<String> := [];
    for i := 0 to |u.changedFiles|
      invariant items == FileItems(u.changedFiles[..i])
    {
      items := items + [FileItem(u.changedFiles[i])];
      assert u.changedFiles[..i + 1][..i] == u.changedFiles[..i];
    }
    assert u.changedFiles[..|u.changedFiles|] == u.changedFiles;
    lines := lines + items + CommitTail(u.hash);
    assert lines == CommitLines(u);
    main := JoinWith("\n", lines);
  }

  /** The description heading appears exactly when the commit has a body: no other line of the
      post can be mistaken for it. */
  lemma DescriptionIff(u: CommitUpdate)
    ensures DescriptionHeading in CommitLines(u) <==> u.body != []
  {
    var others := CommitHead(u.hash, u.date, u.subject) + FilesLead() + FileItems(u.changedFiles) + CommitTail(u.hash);
    assert DescriptionHeading[1] == 'h' && DescriptionHeading[2] == '3';
    forall k | 0 <= k < |others| ensures others[k] != DescriptionHeading {
      OtherLineDiffers(u, others, k);
      assert NotH3(others[k]);
    }
    if u.body == [] {
      assert CommitLines(u) == others;
    }
  }

  /** A line that cannot be the description heading: its second and third characters are not
      `h3`. */
  predicate NotH3(line: String) { |line| > 2 && (line[1] != 'h' || line[2] != '3') }

  lemma OtherLineDiffers(u: CommitUpdate, others: seq<String>, k: nat)
    requires others == CommitHead(u.hash, u.date, u.subject) + FilesLead() + FileItems(u.changedFiles) + CommitTail(u.hash)
    requires k < |others|
    ensures NotH3(others[k])
  {
    var head := CommitHead(u.hash, u.date, u.subject) + FilesLead();
    var items := FileItems(u.changedFiles);
    var tail := CommitTail(u.hash);
    assert others == head + items + tail;
    if k < |head| {
      HeadNotH3(u.hash, u.date, u.subject, k);
    } else if k < |head| + |items| {
      FileItemsAt(u.changedFiles, k - |head|);
      assert others[k] == items[k - |head|];
    } else {
      TailNotH3(u.hash, k - |head| - |items|);
      assert others[k] == tail[k - |head| - |items|];
    }
  }

  lemma HeadNotH3(hash: String, date: String, subject: String, j: nat)
    requires j < |CommitHead(hash, date, subject) + FilesLead()|
    ensures NotH3((CommitHead(hash, date, subject) + FilesLead())[j])
  {
  }

  lemma TailNotH3(hash: String, j: nat)
    requires j < |CommitTail(hash)|
    ensures NotH3(CommitTail(hash)[j])
  {
  }

  /** The page of a commit post; the date placeholder gets the commit's date. */
  function CommitPostHtml(u: CommitUpdate, template: String): String
  {
    FillTemplate(template, Truncate(u.subject), u.date, CommitTags, CommitIntro(u.version), JoinWith("\n", CommitLines(u)))
  }

  /** The file a commit post is written to. */
  function CommitPage(u: CommitUpdate, template: String): BlogGenerator.Written
  {
    BlogGenerator.Written(CommitFileName(u.hash, Truncate(u.subject)), CommitPostHtml(u, template))
  }

  /** `generate_commit_blog_post`: the title is the subject cut to 60 characters. */
  method GenerateCommitBlogPost(u: CommitUpdate, template: String) returns (filename: String, html: String)
    ensures BlogGenerator.Written(filename, html) == CommitPage(u, template)
  {
    var title := u.subject;
    if |title| > 60 {
      title := title[..57] + "...";
    }
    filename := "commit-" + Take(u.hash, 8) + "-" + HtmlName(Slug(title));
    var main := BuildCommitContent(u);
    html := Fill(template, title, u.date, CommitTags, CommitIntro(u.version), main);
  }

  // ---------------------------------------------------------------- the markdown post

  /** The page of a markdown post: the blog generator's post without a changes section, which this
      generator never writes. */
  function MarkdownPostHtml(info: ReleaseInfo, template: String, monthYear: String): String
  {
    Page(template, info.title, monthYear, BlogGenerator.PostTags, BlogGenerator.Intro(info),
         BlogGenerator.Head(), info.features, [], BlogGenerator.Tail(info.sourceFile))
  }

  /** For the records this generator reads, which never have changes, its post is the blog
      generator's post. */
  lemma MarkdownPostIsBlogPost(info: ReleaseInfo, template: String, monthYear: String)
    requires info.changes == []
    ensures MarkdownPostHtml(info, template, monthYear) == BlogGenerator.PostHtml(info, template, monthYear)
  {
  }

  /** A markdown post has a "New Features" section exactly when its record has features, and never
      a "Key Changes" section. */
  lemma MarkdownSectionsIff(info: ReleaseInfo)
    ensures FeaturesHeading() in MainLines(BlogGenerator.Head(), info.features, [], BlogGenerator.Tail(info.sourceFile))
            <==> info.features != []
    ensures ChangesHeading() !in MainLines(BlogGenerator.Head(), info.features, [], BlogGenerator.Tail(info.sourceFile))
  {
    BlogGenerator.PostSectionsIff(info.(changes := []));
  }

  /** `generate_markdown_blog_post`: the record with its defaults written back, the file name and
      the page. */
  method GenerateMarkdownBlogPost(info: ReleaseInfo, template: String, monthYear: String)
    returns (posted: ReleaseInfo, filename: String, html: String)
    ensures posted == BlogGenerator.WithDefaults(info)
    ensures filename == BlogGenerator.PostFileName(posted.title)
    ensures html == MarkdownPostHtml(posted, template, monthYear)
  {
    posted := info;
    if posted.title == [] {
      posted := posted.(title := BlogGenerator.TitleLead + posted.sourceFile);
    }
    if posted.version == [] {
      posted := posted.(version := BlogGenerator.DefaultVersion);
    }
    filename := HtmlName(Slug(posted.title));
    html := BuildPage(template, posted.title, monthYear, BlogGenerator.PostTags, BlogGenerator.Intro(posted),
                      BlogGenerator.Head(), posted.features, [], BlogGenerator.Tail(posted.sourceFile));
  }

  // ---------------------------------------------------------------- the markdown scan

  /** A document's record, when it names a release or lists a feature. */
  function Candidate(content: String, path: String): (r: Option<ReleaseInfo>)
    ensures r.Some? <==> Keep(MarkdownInfo(content, path))
    ensures r.Some? ==> r.value == MarkdownInfo(content, path)
  {
    var info := MarkdownInfo(content, path);
    if Keep(info) then Some(info) else None
  }

  function TopPick(d: Doc): Option<ReleaseInfo>
  {
    Candidate(d.content, d.path)
  }

  /** A markdown file anywhere in the repository: skipped when it is called README.md or
      CONTRIBUTING.md, otherwise kept like README.md. */
  function WalkPick(d: Doc): Option<ReleaseInfo>
  {
    if BaseName(d.path) == "README.md" || BaseName(d.path) == "CONTRIBUTING.md" then None
    else Candidate(d.content, d.path)
  }

  /** README.md at the top of the repository, when it exists. */
  function TopDocs(readme: Option<String>): seq<Doc>
  {
    if readme.Some? then [Doc("README.md", readme.value)] else []
  }

  /** What the scan finds: README.md, then the `*.md` files of the recursive walk in walk order. */
  function MarkdownUpdates(readme: Option<String>, walk: seq<Doc>): seq<ReleaseInfo>
  {
    FilterMap(TopDocs(readme), TopPick) + FilterMap(walk, WalkPick)
  }

  /** The two scans of `generate_blog_from_markdown_files`. */
  method ScanMarkdownFiles(readme: Option<String>, walk: seq<Doc>) returns (updates: seq<ReleaseInfo>)
    ensures updates == MarkdownUpdates(readme, walk)
  {
    updates := ScanDocuments(TopDocs(readme), TopPick);
    var found := ScanDocuments(walk, WalkPick);
    updates := updates + found;
  }

  /** Every update found names a release or lists a feature, and has no changes; every file of the
      walk that does and is not called README.md or CONTRIBUTING.md is found. */
  lemma MarkdownUpdatesKept(readme: Option<String>, walk: seq<Doc>)
    ensures forall u :: u in MarkdownUpdates(readme, walk) ==> Keep(u) && u.changes == []
    ensures forall i :: 0 <= i < |walk| && WalkPick(walk[i]).Some? ==>
              WalkPick(walk[i]).value in MarkdownUpdates(readme, walk)
  {
    var top, found := FilterMap(TopDocs(readme), TopPick), FilterMap(walk, WalkPick);
    forall u | u in MarkdownUpdates(readme, walk) ensures Keep(u) && u.changes == [] {
      if u in top {
        var i := FilterMapSource(TopDocs(readme), TopPick, u);
        PickedKept(TopDocs(readme)[i], u);
      } else {
        var i := FilterMapSource(walk, WalkPick, u);
        PickedKept(walk[i], u);
      }
    }
    forall i | 0 <= i < |walk| && WalkPick(walk[i]).Some?
      ensures WalkPick(walk[i]).value in MarkdownUpdates(readme, walk)
    {
      FilterMapHas(walk, i, WalkPick);
    }
  }

  /** A record either pick makes names a release or lists a feature, and has no changes. */
  lemma PickedKept(d: Doc, u: ReleaseInfo)
    requires TopPick(d) == Some(u) || WalkPick(d) == Some(u)
    ensures Keep(u) && u.changes == []
  {
    assert Candidate(d.content, d.path) == Some(u);
  }

  // ---------------------------------------------------------------- the index entries

  datatype PostKind = CommitPost | MarkdownPost

  /** What the run remembers of each post for the index: commit posts carry their date and no
      version, markdown posts a version and no date. */
  datatype NewPost = NewPost(filename: String, title: String, version: Option<String>, kind: PostKind, date: Option<String>)

  const DevTags: String := "Development, EYN-OS, Update"
  const DevDescription: String :=
    "Development update that brings " +
    "improvements and new features to " +
    "EYN-OS. This update demonstrates " +
    "ongoing development progress and " +
    "commitment to building a complete " +
    "operating system from scratch."

  /** `generate_blog_index_entry`: a commit post is tagged and summarised as development and dated
      with its commit date; any other post as a release of its version (default "Update"), dated
      with the current month when it has no date. */
  function AdvancedEntry(p: NewPost, monthYear: String): (e: Entry)
    ensures e.filename == p.filename && e.title == p.title
    ensures e.date == if p.date.Some? then p.date.value else monthYear
    ensures p.kind == CommitPost ==> e.tags == DevTags && e.excerpt == DevDescription
  {
    var date := if p.date.Some? then p.date.value else monthYear;
    var version := if p.version.Some? then p.version.value else BlogGenerator.DefaultVersion;
    if p.kind == CommitPost then Entry(p.filename, p.title, date, DevTags, DevDescription)
    else Entry(p.filename, p.title, date, "Release, EYN-OS, " + version, "EYN-OS " + version + BlogGenerator.ExcerptRest)
  }

  /** A markdown post's entry is the one the blog generator writes for it. */
  lemma MarkdownEntryIsBlogEntry(filename: String, title: String, version: String, monthYear: String)
    ensures AdvancedEntry(NewPost(filename, title, Some(version), MarkdownPost, None), monthYear)
            == BlogGenerator.BlogEntry(BlogGenerator.NewPost(filename, title, version), monthYear)
  {
  }

  function EntryOf(p: NewPost, monthYear: String): String
  {
    EntryHtml(AdvancedEntry(p, monthYear))
  }

  /** The rendered entries, one per post, in the order of the posts. */
  function Entries(posts: seq<NewPost>, monthYear: String): (r: seq<String>)
    ensures |r| == |posts|
  {
    if posts == [] then [] else Entries(posts[..|posts| - 1], monthYear) + [EntryOf(posts[|posts| - 1], monthYear)]
  }

  /** The loop of `update_blog_index` that renders one entry per new post. */
  method RenderEntries(posts: seq<NewPost>, monthYear: String) returns (html: seq<String>)
    ensures html == Entries(posts, monthYear)
  {
    html := [];
    for i := 0 to |posts|
      invariant html == Entries(posts[..i], monthYear)
    {
      html := html + [EntryOf(posts[i], monthYear)];
      assert posts[..i + 1][..i] == posts[..i] && posts[..i + 1][i] == posts[i];
    }
    assert posts[..|posts|] == posts;
  }

  /** `update_blog_index`: the new page, or nothing when the posts section or its closing tag is
      missing. */
  method UpdateBlogIndex(index: String, posts: seq<NewPost>, monthYear: String) returns (r: Option<String>)
    ensures r == Prepend(Open, Close, Sep, index, Entries(posts, monthYear))
  {
    var html := RenderEntries(posts, monthYear);
    r := InsertAtTop(Open, Close, Sep, index, html);
  }

  // ---------------------------------------------------------------- the git history

  /** A commit's record, from the files `git show` lists for it. */
  function CommitPick(show: String -> Option<String>): Commit -> Option<CommitUpdate>
  {
    (c: Commit) => AnalyzeCommit(c, FileChanges(show(c.hash)))
  }

  /** The analysis loop of `generate_blog_from_git_history`. */
  method AnalyzeCommits(commits: seq<Commit>, show: String -> Option<String>) returns (updates: seq<CommitUpdate>)
    ensures updates == FilterMap(commits, CommitPick(show))
  {
    updates := [];
    for i := 0 to |commits|
      invariant updates == FilterMap(commits[..i], CommitPick(show))
    {
      var u := AnalyzeCommitForUpdates(commits[i], FileChanges(show(commits[i].hash)));
      if u.Some? {
        updates := updates + [u.value];
      }
      assert commits[..i + 1][..i] == commits[..i];
    }
    assert commits[..|commits|] == commits;
  }

  /** The page function handed to the post loop. */
  function CommitPageOf(template: String): CommitUpdate -> BlogGenerator.Written
  {
    (u: CommitUpdate) => CommitPage(u, template)
  }

  /** What the run remembers of a commit post: its file name, the full subject as its title and the
      commit's date. */
  function CommitNewPost(u: CommitUpdate): NewPost
  {
    NewPost(CommitFileName(u.hash, Truncate(u.subject)), u.subject, None, CommitPost, Some(u.date))
  }

  /** The post loop of `generate_blog_from_git_history`: one page and one remembered post per
      record, in order. */
  method CommitPosts(updates: seq<CommitUpdate>, template: String)
    returns (pages: seq<BlogGenerator.Written>, posts: seq<NewPost>)
    ensures pages == MapSeq(updates, CommitPageOf(template))
    ensures posts == MapSeq(updates, CommitNewPost)
  {
    pages, posts := [], [];
    for i := 0 to |updates|
      invariant pages == MapSeq(updates[..i], CommitPageOf(template))
      invariant posts == MapSeq(updates[..i], CommitNewPost)
    {
      var filename, html := GenerateCommitBlogPost(updates[i], template);
      MapSeqSnoc(updates, i, CommitPageOf(template));
      MapSeqSnoc(updates, i, CommitNewPost);
      pages := pages + [BlogGenerator.Written(filename, html)];
      posts := posts + [NewPost(filename, updates[i].subject, None, CommitPost, Some(updates[i].date))];
    }
    assert updates[..|updates|] == updates;
  }

  /** The significant commits of the history, in log order. */
  function GitUpdates(gitLog: Option<String>, show: String -> Option<String>): seq<CommitUpdate>
  {
    if gitLog.None? then [] else FilterMap(LogCommits(gitLog.value), CommitPick(show))
  }

  /** `generate_blog_from_git_history`: `gitLog` is what `git log` printed (`None` when there is no
      repository or the command fails), `show` what `git show --name-only` prints for a hash. */
  method GenerateFromGitHistory(gitLog: Option<String>, show: String -> Option<String>, template: String)
    returns (pages: seq<BlogGenerator.Written>, posts: seq<NewPost>)
    ensures pages == MapSeq(GitUpdates(gitLog, show), CommitPageOf(template))
    ensures posts == MapSeq(GitUpdates(gitLog, show), CommitNewPost)
  {
    var commits := GetGitCommits(gitLog);
    if commits == [] {
      return [], [];
    }
    var updates := AnalyzeCommits(commits, show);
    if updates == [] {
      return [], [];
    }
    pages, posts := CommitPosts(updates, template);
  }

  /** Every commit post comes from a significant commit that changed an important file. */
  lemma GitUpdatesSignificant(gitLog: Option<String>, show: String -> Option<String>, u: CommitUpdate)
    requires u in GitUpdates(gitLog, show)
    ensures gitLog.Some?
    ensures exists c :: c in LogCommits(gitLog.value) && Significant(c) && c.hash == u.hash && c.subject == u.subject
    ensures u.changedFiles != []
  {
    var commits := LogCommits(gitLog.value);
    var pick := CommitPick(show);
    FilterMapIff(commits, pick, u);
    var i :| 0 <= i < |commits| && pick(commits[i]) == Some(u);
    PickedSignificant(show, commits[i], u);
  }

  /** A commit that yields a record is significant, and the record carries its hash and subject. */
  lemma PickedSignificant(show: String -> Option<String>, c: Commit, u: CommitUpdate)
    requires CommitPick(show)(c) == Some(u)
    ensures Significant(c) && c.hash == u.hash && c.subject == u.subject && u.changedFiles != []
  {
    assert AnalyzeCommit(c, FileChanges(show(c.hash))) == Some(u);
  }

  // ---------------------------------------------------------------- the markdown posts

  /** The file a markdown post is written to, once its record has its defaults. */
  function MarkdownPage(info: ReleaseInfo, template: String, monthYear: String): BlogGenerator.Written
  {
    var p := BlogGenerator.WithDefaults(info);
    BlogGenerator.Written(BlogGenerator.PostFileName(p.title), MarkdownPostHtml(p, template, monthYear))
  }

  /** The page function handed to the post loop. */
  function MarkdownPageOf(template: String, monthYear: String): ReleaseInfo -> BlogGenerator.Written
  {
    (info: ReleaseInfo) => MarkdownPage(info, template, monthYear)
  }

  /** What the run remembers of a markdown post: its file name, title and version. */
  function MarkdownNewPost(info: ReleaseInfo): NewPost
  {
    var p := BlogGenerator.WithDefaults(info);
    NewPost(BlogGenerator.PostFileName(p.title), p.title, Some(p.version), MarkdownPost, None)
  }

  /** The post loop of `generate_blog_from_markdown_files`. */
  method MarkdownPosts(updates: seq<ReleaseInfo>, template: String, monthYear: String)
    returns (pages: seq<BlogGenerator.Written>, posts: seq<NewPost>)
    ensures pages == MapSeq(updates, MarkdownPageOf(template, monthYear))
    ensures posts == MapSeq(updates, MarkdownNewPost)
  {
    pages, posts := [], [];
    for i := 0 to |updates|
      invariant pages == MapSeq(updates[..i], MarkdownPageOf(template, monthYear))
      invariant posts == MapSeq(updates[..i], MarkdownNewPost)
    {
      var posted, filename, html := GenerateMarkdownBlogPost(updates[i], template, monthYear);
      MarkdownStep(updates[i], template, monthYear, posted, filename, html);
      MapSeqSnoc(updates, i, MarkdownPageOf(template, monthYear));
      MapSeqSnoc(updates, i, MarkdownNewPost);
      pages := pages + [BlogGenerator.Written(filename, html)];
      posts := posts + [NewPost(filename, posted.title, Some(posted.version), MarkdownPost, None)];
    }
    assert updates[..|updates|] == updates;
  }

  /** What one markdown post writes is the page and the remembered post of its record. */
  lemma MarkdownStep(info: ReleaseInfo, template: String, monthYear: String,
                     posted: ReleaseInfo, filename: String, html: String)
    requires posted == BlogGenerator.WithDefaults(info) && filename == BlogGenerator.PostFileName(posted.title)
    requires html == MarkdownPostHtml(posted, template, monthYear)
    ensures MarkdownPageOf(template, monthYear)(info) == BlogGenerator.Written(filename, html)
    ensures MarkdownNewPost(info) == NewPost(filename, posted.title, Some(posted.version), MarkdownPost, None)
  {
  }

  /** `generate_blog_from_markdown_files`; `walk` lists the `*.md` files of the repository with
      paths relative to it. */
  method GenerateFromMarkdownFiles(readme: Option<String>, walk: seq<Doc>, template: String, monthYear: String)
    returns (pages: seq<BlogGenerator.Written>, posts: seq<NewPost>)
    ensures pages == MapSeq(MarkdownUpdates(readme, walk), MarkdownPageOf(template, monthYear))
    ensures posts == MapSeq(MarkdownUpdates(readme, walk), MarkdownNewPost)
  {
    var updates := ScanMarkdownFiles(readme, walk);
    if updates == [] {
      return [], [];
    }
    pages, posts := MarkdownPosts(updates, template, monthYear);
  }

  // ---------------------------------------------------------------- the whole run

  /** The pages the run writes from the commit records and the markdown records it found: the
      commit posts, then the markdown posts. */
  function RunPages(commits: seq<CommitUpdate>, docs: seq<ReleaseInfo>, template: String, monthYear: String)
    : seq<BlogGenerator.Written>
  {
    MapSeq(commits, CommitPageOf(template)) + MapSeq(docs, MarkdownPageOf(template, monthYear))
  }

  /** The posts the run remembers for the index, in the same order. */
  function RunPosts(commits: seq<CommitUpdate>, docs: seq<ReleaseInfo>): seq<NewPost>
  {
    MapSeq(commits, CommitNewPost) + MapSeq(docs, MarkdownNewPost)
  }

  /** `run_full_generation`, after its existence checks: the commit posts, then the markdown posts;
      the index is rewritten only when there is at least one post, and left alone when its posts
      section is missing. */
  method RunFullGeneration(gitLog: Option<String>, show: String -> Option<String>, readme: Option<String>,
                           walk: seq<Doc>, template: String, index: String, monthYear: String)
    returns (pages: seq<BlogGenerator.Written>, posts: seq<NewPost>, newIndex: Option<String>)
    ensures pages == RunPages(GitUpdates(gitLog, show), MarkdownUpdates(readme, walk), template, monthYear)
    ensures posts == RunPosts(GitUpdates(gitLog, show), MarkdownUpdates(readme, walk))
    ensures posts == [] ==> newIndex.None?
    ensures posts != [] ==> newIndex == Prepend(Open, Close, Sep, index, Entries(posts, monthYear))
  {
    var gitPages, gitPosts := GenerateFromGitHistory(gitLog, show, template);
    var mdPages, mdPosts := GenerateFromMarkdownFiles(readme, walk, template, monthYear);
    pages := gitPages + mdPages;
    posts := gitPosts + mdPosts;
    if posts == [] {
      return pages, posts, None;
    }
    newIndex := UpdateBlogIndex(index, posts, monthYear);
  }

  /** Every index entry links to a page the run writes: the i-th remembered post carries the file
      name of the i-th page, whatever records the two passes found. */
  lemma RunLinksPages(commits: seq<CommitUpdate>, docs: seq<ReleaseInfo>, template: String, monthYear: String, i: nat)
    requires i < |RunPosts(commits, docs)|
    ensures |RunPages(commits, docs, template, monthYear)| == |RunPosts(commits, docs)|
    ensures RunPosts(commits, docs)[i].filename == RunPages(commits, docs, template, monthYear)[i].filename
  {
    if i < |commits| {
      CommitLink(commits, template, i);
    } else {
      MarkdownLink(docs, template, monthYear, i - |commits|);
    }
    LinkAt(MapSeq(commits, CommitNewPost), MapSeq(docs, MarkdownNewPost),
           MapSeq(commits, CommitPageOf(template)), MapSeq(docs, MarkdownPageOf(template, monthYear)), i);
  }

  /** Two lists of posts and two of pages that link up position by position still do once each
      pair is concatenated. */
  lemma LinkAt(posts1: seq<NewPost>, posts2: seq<NewPost>, pages1: seq<BlogGenerator.Written>, pages2: seq<BlogGenerator.Written>, i: nat)
    requires |pages1| == |posts1| && |pages2| == |posts2| && i < |posts1| + |posts2|
    requires i < |posts1| ==> posts1[i].filename == pages1[i].filename
    requires i >= |posts1| ==> posts2[i - |posts1|].filename == pages2[i - |posts1|].filename
    ensures |pages1 + pages2| == |posts1 + posts2| && (posts1 + posts2)[i].filename == (pages1 + pages2)[i].filename
  {
  }

  lemma CommitLink(updates: seq<CommitUpdate>, template: String, i: nat)
    requires i < |updates|
    ensures MapSeq(updates, CommitNewPost)[i].filename == MapSeq(updates, CommitPageOf(template))[i].filename
  {
    MapSeqAt(updates, CommitPageOf(template), i);
    MapSeqAt(updates, CommitNewPost, i);
  }

  lemma MarkdownLink(updates: seq<ReleaseInfo>, template: String, monthYear: String, i: nat)
    requires i < |updates|
    ensures MapSeq(updates, MarkdownNewPost)[i].filename == MapSeq(updates, MarkdownPageOf(template, monthYear))[i].filename
  {
    MapSeqAt(updates, MarkdownPageOf(template, monthYear), i);
    MapSeqAt(updates, MarkdownNewPost, i);
  }
}
