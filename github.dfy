/** The commit-driven generator (github-blog-generator.py): which commits deserve a post, what
    kind of post each is, and the title, file name and tags the post gets. */
module GithubGenerator {
  import opened Text
  import opened Patterns
  import opened Naming

  /** The fields of one commit the generator keeps from the GitHub API. */
  datatype Commit = Commit(sha: String, message: String, author: String, date: String, url: String)

  /** The per-item field mapping: only the first ten characters (YYYY-MM-DD) of the timestamp. */
  function CommitFromApi(sha: String, message: String, author: String, timestamp: String, url: String): (c: Commit)
    ensures c.sha == sha && c.message == message && c.author == author && c.url == url
    ensures |c.date| == if |timestamp| < 10 then |timestamp| else 10
    ensures c.date == timestamp[..|c.date|]
  {
    Commit(sha, message, author, Take(timestamp, 10), url)
  }

  // ---------------------------------------------------------------- the significance filter

  /** The message as the significance filter sees it: newlines and carriage returns made spaces,
      lower-cased, then the words rejoined by single spaces. */
  function Normalize(message: String): (r: String)
    ensures NoUpper(r)
    ensures forall i :: 0 <= i < |r| ==> r[i] != '\n' && r[i] != '\r'
    ensures r == [] || (!IsSpace(r[0]) && !IsSpace(r[|r| - 1]))
    ensures forall i :: 0 <= i < |r| - 1 ==> !(IsSpace(r[i]) && IsSpace(r[i + 1]))
    ensures forall i :: 0 <= i < |r| && IsSpace(r[i]) ==> r[i] == ' '
  {
    var ws := Words(Lower(ReplaceChar(ReplaceChar(message, '\n', ' '), '\r', ' ')));
    JoinWordsShape(ws);
    JoinWith(" ", ws)
  }

  /** Normalizing twice is normalizing once. */
  lemma NormalizeIdempotent(message: String)
    ensures Normalize(Normalize(message)) == Normalize(message)
  {
    var r := Normalize(message);
    var ws := Words(Lower(ReplaceChar(ReplaceChar(message, '\n', ' '), '\r', ' ')));
    assert ReplaceChar(ReplaceChar(r, '\n', ' '), '\r', ' ') == r;
    LowerNoUpper(r);
    WordsOfJoin(ws);
  }

  const DocKeywords: seq<String> :=
    ["docs", "documentation", "readme", "contributing", "changelog",
     "update readme", "fix readme", "update docs", "fix docs"]

  const SignificantKeywords: seq<String> :=
    ["release", "version", "major", "feature", "new", "add", "implement",
     "complete", "rewrite", "overhaul", "fix", "bug", "improve", "enhance",
     "kernel", "driver", "filesystem", "game", "engine", "assembler",
     "memory", "system", "optimize", "performance", "security"]

  /** Some keyword of `ks` occurs in `s`. */
  predicate Mentions(s: String, ks: seq<String>)
  {
    exists k :: 0 <= k < |ks| && Contains(s, ks[k])
  }

  /** A commit that only touches documentation; one that mentions "release" (in any case) is
      never documentation-only. */
  function IsDocumentationOnly(message: String): (r: bool)
    ensures Contains(Lower(message), "release") ==> !r
    ensures !Contains(Lower(message), "release") ==> (r <==> Mentions(message, DocKeywords))
  {
    if Contains(Lower(message), "release") then false else ContainsAny(message, DocKeywords)
  }

  /** A commit worth a post: its normalized message is not documentation-only and mentions a
      significance keyword. */
  function IsSignificant(message: String): (r: bool)
    ensures r <==> !IsDocumentationOnly(Normalize(message)) && Mentions(Normalize(message), SignificantKeywords)
  {
    var m := Normalize(message);
    if IsDocumentationOnly(m) then false else ContainsAny(m, SignificantKeywords)
  }

  /** A message whose normalized form names a documentation keyword but not "release" is filtered
      out, whatever significance keywords it has ("Update README with new install steps"). */
  lemma DocumentationBlocksSignificance(message: String, k: nat)
    requires k < |DocKeywords| && Contains(Normalize(message), DocKeywords[k])
    requires !Contains(Normalize(message), "release")
    ensures !IsSignificant(message)
  {
    LowerNoUpper(Normalize(message));
  }

  // ---------------------------------------------------------------- categories

  datatype Category = Release | Feature | Fix | Improvement | Update

  const FeatureWords: seq<String> := ["feature", "new", "add", "implement"]
  const FixWords: seq<String> := ["fix", "bug", "patch"]
  const ImprovementWords: seq<String> := ["improve", "enhance", "optimize"]

  /** The first category, in the fixed order release, feature, fix, improvement, whose words the
      lower-cased (not normalized) message mentions; update when none. */
  function Categorize(message: String): (r: Category)
    ensures var m := Lower(message);
      && (r == Release <==> Contains(m, "release"))
      && (r == Feature <==> !Contains(m, "release") && Mentions(m, FeatureWords))
      && (r == Fix <==> !Contains(m, "release") && !Mentions(m, FeatureWords) && Mentions(m, FixWords))
      && (r == Improvement <==>
            !Contains(m, "release") && !Mentions(m, FeatureWords) && !Mentions(m, FixWords) && Mentions(m, ImprovementWords))
  {
    var m := Lower(message);
    if Contains(m, "release") then Release
    else if ContainsAny(m, FeatureWords) then Feature
    else if ContainsAny(m, FixWords) then Fix
    else if ContainsAny(m, ImprovementWords) then Improvement
    else Update
  }

  /** The category in lower case, as the source spells it. */
  function CategoryName(c: Category): String
  {
    match c
    case Release => "release"
    case Feature => "feature"
    case Fix => "fix"
    case Improvement => "improvement"
    case Update => "update"
  }

  /** `str.title()` of the category name. */
  function CategoryTitle(c: Category): (r: String)
    ensures |r| == |CategoryName(c)| && r[1..] == CategoryName(c)[1..]
    ensures IsAsciiUpper(r[0]) && LowerChar(r[0]) == CategoryName(c)[0]
  {
    match c
    case Release => "Release"
    case Feature => "Feature"
    case Fix => "Fix"
    case Improvement => "Improvement"
    case Update => "Update"
  }

  lemma ReplacementsKeep(message: String, w: String, i: nat)
    requires OccursAt(Lower(message), w, i)
    requires forall t :: 0 <= t < |w| ==> w[t] != '\n' && w[t] != '\r'
    ensures OccursAt(Lower(ReplaceChar(ReplaceChar(message, '\n', ' '), '\r', ' ')), w, i)
  {
    var x := Lower(ReplaceChar(ReplaceChar(message, '\n', ' '), '\r', ' '));
    forall t | 0 <= t < |w| ensures x[i + t] == w[t] {
      assert Lower(message)[i..i + |w|][t] == w[t];
    }
    assert x[i..i + |w|] == w;
  }

  /** Every commit categorized as a release passes the significance filter: "release" survives
      normalization, overrides the documentation exclusion, and is itself a significance keyword. */
  lemma ReleaseIsSignificant(message: String)
    requires Categorize(message) == Release
    ensures IsSignificant(message)
  {
    ReleaseSurvives(message);
    ReleaseMentionSignificant(Normalize(message));
  }

  lemma ReleaseWord()
    ensures IsWord("release")
    ensures forall t :: 0 <= t < 7 ==> "release"[t] != '\n' && "release"[t] != '\r'
  {
  }

  lemma ReleaseSurvives(message: String)
    requires Contains(Lower(message), "release")
    ensures Contains(Normalize(message), "release")
  {
    var m := Lower(message);
    ContainsIff(m, "release");
    var i :| OccursAt(m, "release", i);
    ReleaseWord();
    ReplacementsKeep(message, "release", i);
    WordSurvivesJoin(Lower(ReplaceChar(ReplaceChar(message, '\n', ' '), '\r', ' ')), "release", i);
  }

  lemma ReleaseMentionSignificant(n: String)
    requires NoUpper(n) && Contains(n, "release")
    ensures !IsDocumentationOnly(n) && Mentions(n, SignificantKeywords)
  {
    LowerNoUpper(n);
    assert SignificantKeywords[0] == "release";
  }

  // ---------------------------------------------------------------- version, file name, tags

  /** The digits after the first `release\s+`, else after the first `version\s+`, in the lower-cased
      message. A release number wins even when a version number comes earlier. */
  function ExtractVersion(message: String): (r: Option<String>)
    ensures r.Some? ==> |r.value| > 0 && AllDigits(r.value)
    ensures r.None? <==> (forall j :: !NumberAt(Lower(message), "release", Spaces, j))
                         && (forall j :: !NumberAt(Lower(message), "version", Spaces, j))
    ensures (exists j :: NumberAt(Lower(message), "release", Spaces, j)) ==>
              r == NumberAfter(Lower(message), "release", Spaces)
  {
    var m := Lower(message);
    match NumberAfter(m, "release", Spaces)
    case Some(v) => Some(v)
    case None => NumberAfter(m, "version", Spaces)
  }

  /** The post title: the whole commit message, cut to 60 characters. */
  function CommitTitle(c: Commit): (t: String)
    ensures |t| <= 60 && (|c.message| <= 60 <==> t == c.message)
  {
    Truncate(c.message)
  }

  /** `release-V-slug.html` for a release with a version, `release-slug.html` for one without,
      `commit-<first 8 of sha>-slug.html` for any other commit. */
  function CommitFilename(c: Commit): (f: String)
    ensures Categorize(c.message) == Release && ExtractVersion(c.message).Some? ==>
              f == "release-" + ExtractVersion(c.message).value + "-" + Slug(CommitTitle(c)) + ".html"
    ensures Categorize(c.message) == Release && ExtractVersion(c.message).None? ==>
              f == "release-" + Slug(CommitTitle(c)) + ".html"
    ensures Categorize(c.message) != Release ==>
              f == "commit-" + Take(c.sha, 8) + "-" + Slug(CommitTitle(c)) + ".html"
  {
    var slug := Slug(CommitTitle(c));
    if Categorize(c.message) == Release then
      match ExtractVersion(c.message)
      case Some(v) => "release-" + v + "-" + slug + ".html"
      case None => "release-" + slug + ".html"
    else "commit-" + Take(c.sha, 8) + "-" + slug + ".html"
  }

  /** The tags line of a commit post. */
  function CommitTags(c: Category, version: Option<String>): (t: String)
    ensures c == Release && version.Some? ==> t == "Release, EYN-OS, Version " + version.value
    ensures c == Release && version.None? ==> t == "Release, EYN-OS"
    ensures c != Release ==> t == CategoryTitle(c) + ", EYN-OS, Development"
  {
    if c == Release then
      match version
      case Some(v) => "Release, EYN-OS, Version " + v
      case None => "Release, EYN-OS"
    else CategoryTitle(c) + ", EYN-OS, Development"
  }
}
