# EYN-OS blog generators, modelled in Dafny

The EYN-OS website builds its blog with five Python scripts. Four of them write posts:

- github-blog-generator.py classifies commits fetched from GitHub;
- advanced-blog-generator.py reads the local git history and the repository's markdown files;
- blog-generator.py reads README.md, CONTRIBUTING.md and docs/;
- simple-blog-generator.py writes one post per document that names a release.

The fifth, dynamic-blog-index.py, rebuilds the blog index page by reading back the posts already rendered under blog/.

The scripts share one string pipeline:

- classify a commit message or scan a markdown document for a release number, a title and `- **Name**: Description` features;
- derive a truncated title, a slug and a file name;
- fill the post template with `str.replace`;
- splice `<article>` entries into the index page between its section markers;
- for the dynamic index, scrape title, date, tags and excerpt back out of each page, sort the posts newest first, and replace the index section.

The model writes that pipeline once, in shared modules, and each generator calls it:

| module | file | what it holds |
|---|---|---|
| `Text` | text.dfy | the `str` operations used: `lower`, `strip`, `split` with a limit, `join`, `replace`, `in`, `isspace`, digits of an `int` |
| `Patterns`, `PatternFacts` | patterns.dfy | one hand-written scanner per fixed regular expression (`release\s+(\d+)`, `^#\s+(.+)$`, the feature bullet, the list item, the changes heading, the HTML element patterns), and what `re.search`/`re.findall` report |
| `Naming` | naming.dfy | title truncation, the slug, `.html` names, `Path.name` |
| `Markdown` | markdown.dfy | the release-record extractor shared by three generators, with blog-generator.py's changes section |
| `Render` | render.dfy | the intro sentence, the main-content sections and the placeholder replacement |
| `Splice` | splice.dfy | the two index splices: prepend after the opening marker, and replace the whole section |
| `IndexEntry` | entry.dfy | the `<article class="blog-post">` index entry all three index writers use |
| `GithubGenerator` | github.dfy | commit normalisation, documentation-only and significance tests, category, version, title, file name, tags |
| `GitLog` | gitlog.dfy | the `git log --pretty=format:%H\|%an\|%ad\|%s\|%b` line parser and `analyze_commit_for_updates` |
| `AdvancedGenerator` | advanced.dfy | commit posts, markdown posts, the index update and `run_full_generation` |
| `BlogGenerator` | blog.dfy | `generate_blog_post`, the index update and `generate_blog_from_updates` |
| `SimpleGenerator` | simple.dfy | `extract_update_info`, `generate_blog_post` and `run` |
| `DynamicIndex` | dynamic.dfy | date parsing and formatting, `extract_post_info`, the sorted directory scan, `generate_blog_index` and `run` |

The outside world is passed in as parameters:

- files are their contents, with `None` for a file that does not exist or cannot be read;
- a directory walk is the list of (path, text) pairs it yields, in the order it yields them;
- git's stdout is a string, and a commit's changed files are a list;
- the current date is a value: `monthYear` for `%B %Y`, or a `clock` giving the `datetime.now()` of each file read.

A method returns the files it would write, and the index text it would write, rather than writing them. Where a script updates a dict in place (`release_info['title'] = ...`), the model returns the updated record.

Loops in the scripts are `method`s with loop invariants, each proved equal to a specification function. The properties are proved about those functions. Examples:

- a document or commit is kept exactly when the script's condition holds;
- the scanned posts are a permutation of what was found, newest first, and stable for equal dates;
- the tags an index entry shows read back as the post's kind and version;
- rebuilding the index twice gives the same text;
- a git log line formatted from a commit parses back to that commit.

## Model

| member | source | states |
|---|---|---|
| `Text.JoinSplit` | advanced-blog-generator.py:54 | joining the pieces of `split(sep, n)` with `sep` gives back the original text, for every limit |
| `Text.SplitJoin` | advanced-blog-generator.py:54 | splitting a join of fields that hold no separator gives back the fields, when the limit allows every split |
| `Text.ReplaceAllMeaning` | simple-blog-generator.py:86-105 | `replace(pat, rep)` is the text cut at every occurrence of `pat`, pieces free of `pat`, joined with `rep` |
| `Text.ReplaceAbsent` | simple-blog-generator.py:86-105 | replacing a placeholder the template does not contain leaves the text unchanged |
| `Text.StripIdempotent` | dynamic-blog-index.py:50 | `strip()` applied twice is `strip()` once |
| `Text.NatToStringValue` | blog-generator.py:103 | the decimal text of a count has that value |
| `Text.WordsOfJoin` | github-blog-generator.py:86-87 | splitting words joined by single spaces gives back the words |
| `Patterns.NumberAfter` | blog-generator.py:37-40 | `release\s+(\d+)`: None exactly when no position matches; otherwise a non-empty digit string |
| `Patterns.NumberAfterAt` | blog-generator.py:37-40 | the number found is the digit group of the leftmost position where the pattern matches |
| `Patterns.Search` | blog-generator.py:42-45 | `re.search` with a line pattern: the match found is at the first matching position from the start, and no earlier position matches |
| `Patterns.FindAll` | blog-generator.py:47-53 | `re.findall` reports matches within the text, each ending before the next begins |
| `Patterns.ScanComplete` | blog-generator.py:47-53 | no match is skipped: no position before the first match, between two matches, or after the last one matches |
| `Patterns.HeadingLine` | blog-generator.py:42-45 | a line `# T` is a level-1 heading whose group runs to the end of the line |
| `Patterns.SubheadingIsNotHeading` | advanced-blog-generator.py:371-372 | a `## x` line is never taken as the title |
| `Patterns.FeatureAtPositions` | advanced-blog-generator.py:376-381 | a line `- **Name**: Description` is a feature whose groups are exactly the name and the description |
| `Patterns.ChangesText` | blog-generator.py:55-57 | the changes span holds no `##`, and it is None exactly when no heading of the three kinds occurs |
| `Patterns.ChangesSection` | blog-generator.py:55-57 | the span runs from the end of the leftmost changes heading up to the first `##` after it, or to the end of the text |
| `Patterns.LazyClose` | dynamic-blog-index.py:46 | the lazy group stops at the first closing tag, and fails when none comes first (or a newline comes first, without DOTALL) |
| `Patterns.ContentStart` | dynamic-blog-index.py:46 | with `[^>]*>` the group starts just after the first `>` that follows the opening, and fails without one |
| `Patterns.FirstElement` | dynamic-blog-index.py:46 | the leftmost match at or after a position, and None exactly when no match starts there or later |
| `Patterns.Element` | dynamic-blog-index.py:46-50 | `re.search(...).group(1)`: None exactly when no position matches; otherwise the group of the leftmost match, which holds no closing tag (and no newline, without DOTALL) |
| `Patterns.ElementFound` | dynamic-blog-index.py:46-50 | a found element is the group `s[c..k]` of the leftmost match |
| `PatternFacts.FindAllSound` | blog-generator.py:47-53 | each reported match is the match of the pattern at its start |
| `PatternFacts.FindAllReports` | blog-generator.py:47-53 | a match that no earlier match overlaps is reported |
| `PatternFacts.FindAllOrdered` | blog-generator.py:47-53 | reported matches are in document order, disjoint, and each begins a line |
| `Naming.Truncate` | github-blog-generator.py:158-160 | a title of up to 60 characters is kept unchanged; a longer one becomes its first 57 characters and "...", exactly 60 in all |
| `Naming.SlugChars` | github-blog-generator.py:163-164 | a slug holds only lower-case ASCII letters, digits and `-` |
| `Naming.SlugIdempotent` | github-blog-generator.py:163-164 | slugging a slug changes nothing |
| `Naming.SlugKeepsWords` | github-blog-generator.py:163-164 | a slug keeps every letter and digit of the title, lower-cased and in order |
| `Naming.HtmlName` | blog-generator.py:73-75 | the file name is the slug followed by `.html` |
| `Naming.BaseName` | blog-generator.py:225-226 | `Path.name` is the part after the last `/` |
| `Markdown.Version` | blog-generator.py:37-40 | the version is the digits of the first `release\s+digits` in the lower-cased content, and empty exactly when there is none |
| `Markdown.Title` | blog-generator.py:42-45 | the title is the first level-1 heading; it is empty exactly when no line is a heading, and it never spans lines |
| `Markdown.CollectFeatures` | advanced-blog-generator.py:375-381 | the feature loop appends one stripped feature per bullet match, in order, without removing duplicates |
| `Markdown.ExtractReleaseInfo` | advanced-blog-generator.py:353-383 | the record is the title, the version and the features, with no changes and no date, and the content and file name |
| `Markdown.ExtractBlogReleaseInfo` | blog-generator.py:25-62 | the same record, with the changes: none without a changes heading, else the stripped non-empty list items of the section after the first heading, in order |
| `Markdown.ChangesFromSection` | blog-generator.py:55-60 | the changes are the list items of the section from the first changes heading to the next `##`, stripped, empty ones dropped, order kept |
| `Text.FilterMapPicks` | blog-generator.py:60 | a filtering comprehension keeps, in order, exactly the items its test accepts, each mapped |
| `Markdown.ChangesShape` | blog-generator.py:55-60 | every change is non-empty, stripped and free of `##`; no changes heading means no changes; with one, the changes are the first section's items, picked in order |
| `Markdown.ScanDocuments` | blog-generator.py:200-233 | the documents scanned are filtered in order by the generator's inclusion test |
| `Markdown.FeatureReported` | blog-generator.py:47-53 | every feature bullet that no earlier match swallows yields a feature |
| `Markdown.FeaturesInOrder` | blog-generator.py:47-53 | features appear in document order, each from its own line |
| `Render.ShownNames` | blog-generator.py:104-105 | the intro names the first three features, or all of them when there are fewer |
| `Render.MoreClause` | blog-generator.py:106-107 | " and k more" appears exactly when there are more than three features, with k = n - 3 |
| `Render.FeatureSentence` | blog-generator.py:102-108 | the feature sentence is empty exactly when there are no features |
| `Render.FeatureCountStated` | blog-generator.py:103 | the sentence states the number of features |
| `Render.FeatureBlock` | blog-generator.py:122-129 | "New Features" appears only with features: heading, lead, `<ul>`, one `<li>` per feature in order, `</ul>` |
| `Render.ChangeBlock` | blog-generator.py:131-137 | "Key Changes" appears only with changes: heading, `<ul>`, one `<li>` per change in order, `</ul>` |
| `Render.BuildMainContent` | blog-generator.py:114-147 | the main content is the section lines joined by newlines |
| `Render.SectionsPresentIff` | blog-generator.py:122-137 | each section heading occurs in the content exactly when its list is non-empty |
| `Render.FillWithoutPlaceholders` | simple-blog-generator.py:86-105 | a template without placeholders comes back unchanged |
| `Render.Fill` | simple-blog-generator.py:86-105 | the five `replace` calls run in sequence, and each one replaces every occurrence |
| `Render.BuildPage` | blog-generator.py:83-90 | the page is the template with its placeholders replaced by title, date, tags, intro and main content |
| `Splice.FindSection` | advanced-blog-generator.py:469-474 | the section is the first opening marker and the first `</section>` after it; None means one of them is missing |
| `Splice.Prepend` | advanced-blog-generator.py:462-491 | with both markers the output is the text through the opening marker, the separated entries, then the rest unchanged; otherwise nothing |
| `Splice.InsertAtTop` | blog-generator.py:149-178 | the index update computes the prepend splice |
| `Splice.PrependKeepsSection` | blog-generator.py:156-178 | after a prepend the section is found again, at the same opening marker |
| `Splice.PrependTwice` | blog-generator.py:156-178 | a second prepend puts the newer entries above the earlier ones, all original text kept |
| `Splice.ReplaceSection` | dynamic-blog-index.py:129-147 | with both markers exactly the span from the opening marker through the first `</section>` is replaced; the text before and after is kept |
| `Splice.RebuildSection` | dynamic-blog-index.py:129-147 | the index rebuild computes the section replacement |
| `Splice.ReplacedFound` | dynamic-blog-index.py:129-147 | after a replacement the section is found again at the same opening marker and holds exactly the new block, when no entry contains `</section>` |
| `Splice.ReplaceIdempotent` | dynamic-blog-index.py:129-147 | replacing the section twice with the same entries gives the same text, when no entry contains `</section>` |
| `GithubGenerator.CommitFromApi` | github-blog-generator.py:66-75 | a fetched commit keeps sha, message, author and url, and its date is the first ten characters of the timestamp |
| `GithubGenerator.Normalize` | github-blog-generator.py:86-87 | the normalised message is lower-case, stripped, free of newlines, and has single spaces only |
| `GithubGenerator.NormalizeIdempotent` | github-blog-generator.py:86-87 | normalising twice is normalising once |
| `GithubGenerator.IsDocumentationOnly` | github-blog-generator.py:107-122 | a message containing "release" in any case is never documentation-only; otherwise it is documentation-only exactly when it contains a documentation keyword |
| `GithubGenerator.IsSignificant` | github-blog-generator.py:83-105 | significant exactly when the normalised message is not documentation-only and contains a significance keyword |
| `GithubGenerator.DocumentationBlocksSignificance` | github-blog-generator.py:89-91 | a documentation-only message is not significant, whatever keywords it has |
| `GithubGenerator.ReleaseIsSignificant` | github-blog-generator.py:94-111 | a message containing "release" is significant |
| `GithubGenerator.ReleaseSurvives` | github-blog-generator.py:86-87 | normalising keeps "release" |
| `GithubGenerator.Categorize` | github-blog-generator.py:124-137 | the first matching rule decides: release, then feature, fix and improvement keywords, then update |
| `GithubGenerator.CategoryTitle` | github-blog-generator.py:190 | `title()` of a category name upper-cases its first letter only |
| `GithubGenerator.ExtractVersion` | github-blog-generator.py:139-151 | None or a non-empty digit string; a `release N` match wins over any `version N` match |
| `GithubGenerator.CommitTitle` | github-blog-generator.py:158-160 | at most 60 characters, unchanged exactly when the message fits |
| `GithubGenerator.CommitFilename` | github-blog-generator.py:163-173 | `release-V-slug.html`, `release-slug.html` or `commit-<sha[:8]>-slug.html`, by category and version |
| `GithubGenerator.CommitTags` | github-blog-generator.py:186-190 | the tags by category and version |
| `GitLog.ParseLine` | advanced-blog-generator.py:52-63 | a line is parsed exactly when it has at least four `\|` fields |
| `GitLog.ParseFormat` | advanced-blog-generator.py:52-63 | a line printed in git's format, with a body that may contain `\|`, parses back to the commit |
| `GitLog.ParseFourFields` | advanced-blog-generator.py:60 | with only four fields the body is empty |
| `GitLog.ParsedRejoins` | advanced-blog-generator.py:54 | the parsed fields joined with `\|` give back the line |
| `GitLog.ParseGitLog` | advanced-blog-generator.py:51-63 | the commit loop parses the stripped stdout line by line |
| `GitLog.GetGitCommits` | advanced-blog-generator.py:25-69 | no output gives no commits; otherwise the commits parsed from it |
| `GitLog.LogCommitIff` | advanced-blog-generator.py:51-63 | a commit is returned exactly when it is parsed from a non-empty line of the output |
| `GitLog.LogRoundTrip` | advanced-blog-generator.py:51-63 | a log printed from commits git writes on one line each parses back to the same commits in order: no field holds a newline, none of the first four holds a `\|`, and the stripped output loses no character |
| `GitLog.FileChanges` | advanced-blog-generator.py:70-86 | a failed `git show` gives no files; every file named is non-empty and stripped |
| `GitLog.FileChangesAre` | advanced-blog-generator.py:80-81 | the files are, in order, exactly the lines of the stripped output that are not blank, each stripped |
| `GitLog.IsSignificant` | advanced-blog-generator.py:110-128 | the keyword loop sets the flag exactly when the lower-cased subject or body contains a keyword |
| `GitLog.ImportantFilesIff` | advanced-blog-generator.py:131-134 | a file is important exactly when it is changed and ends in `.md`, `.c`, `.h`, `Makefile` or `README` |
| `GitLog.ImportantFilesAppend` | advanced-blog-generator.py:131-134 | the filter keeps the original order |
| `GitLog.FindImportantFiles` | advanced-blog-generator.py:131-134 | the loop computes the important-file filter |
| `GitLog.AnalyzeCommit` | advanced-blog-generator.py:107-154 | None exactly when the commit is not significant or touches no important file; otherwise the record with hash, date, subject, body, version, and the important changed files in order |
| `GitLog.AnalyzeCommitForUpdates` | advanced-blog-generator.py:107-154 | the method computes that record |
| `GitLog.VersionAcrossJoin` | advanced-blog-generator.py:150-152 | `release` at the end of the subject and digits at the start of the body give a version |
| `AdvancedGenerator.CommitFileNameShape` | advanced-blog-generator.py:196-198 | `commit-<hash[:8]>-<slug>.html` |
| `AdvancedGenerator.HashFromFileName` | advanced-blog-generator.py:196-198 | the short hash can be read back from the file name |
| `AdvancedGenerator.CommitFileNameChars` | advanced-blog-generator.py:196-198 | after `commit-` and before `.html` the name holds only slug characters |
| `AdvancedGenerator.ProgressSentenceNames` | advanced-blog-generator.py:225-226 | the intro names the version exactly when one was recorded |
| `AdvancedGenerator.BuildCommitContent` | advanced-blog-generator.py:232-266 | the commit post's main content is its lines joined by newlines |
| `AdvancedGenerator.DescriptionIff` | advanced-blog-generator.py:246-248 | the "Description" section appears exactly when the commit has a body |
| `AdvancedGenerator.GenerateCommitBlogPost` | advanced-blog-generator.py:188-219 | the commit post's file name and page |
| `AdvancedGenerator.MarkdownPostIsBlogPost` | advanced-blog-generator.py:403-460 | a markdown post renders exactly as blog-generator.py's post of the same record |
| `AdvancedGenerator.MarkdownSectionsIff` | advanced-blog-generator.py:444-450 | "New Features" appears exactly when there are features, and "Key Changes" never appears |
| `AdvancedGenerator.GenerateMarkdownBlogPost` | advanced-blog-generator.py:385-417 | defaults written into the record, `slug.html` as the file name, and the page |
| `AdvancedGenerator.Candidate` | advanced-blog-generator.py:317-328 | a document is kept exactly when its version or its features are non-empty |
| `AdvancedGenerator.ScanMarkdownFiles` | advanced-blog-generator.py:312-328 | README.md, then every `*.md` of the repository walk not named README.md or CONTRIBUTING.md, filtered by the inclusion test |
| `AdvancedGenerator.MarkdownUpdatesKept` | advanced-blog-generator.py:317-328 | every update found passes the test, has no changes, and each walked file that passes is found |
| `AdvancedGenerator.AdvancedEntry` | advanced-blog-generator.py:493-519 | the entry's date, tags and excerpt, by post kind |
| `AdvancedGenerator.UpdateBlogIndex` | advanced-blog-generator.py:462-491 | the index update is the prepend splice of the rendered entries |
| `AdvancedGenerator.AnalyzeCommits` | advanced-blog-generator.py:280-285 | the updates are the analysed commits, in log order |
| `AdvancedGenerator.GenerateFromGitHistory` | advanced-blog-generator.py:268-304 | one commit page and one index record per update |
| `AdvancedGenerator.GitUpdatesSignificant` | advanced-blog-generator.py:280-285 | every git update comes from a significant logged commit that touches an important file |
| `AdvancedGenerator.GenerateFromMarkdownFiles` | advanced-blog-generator.py:306-351 | one markdown page and one index record per update |
| `AdvancedGenerator.RunFullGeneration` | advanced-blog-generator.py:521-559 | the pages of both passes, git first; the index is updated only when there are new posts |
| `AdvancedGenerator.RunLinksPages` | advanced-blog-generator.py:521-559 | each index record links the page written for it |
| `BlogGenerator.WithDefaults` | blog-generator.py:66-70 | an empty title becomes "EYN-OS Update - <source file>" and an empty version "Update"; other fields are kept |
| `BlogGenerator.DefaultsIdempotent` | blog-generator.py:66-70 | writing the defaults twice is writing them once |
| `BlogGenerator.PostFileName` | blog-generator.py:73-75 | `slug.html`, slug characters only |
| `BlogGenerator.PostSectionsIff` | blog-generator.py:122-137 | "New Features" appears exactly when there are features, and "Key Changes" exactly when there are changes |
| `BlogGenerator.GenerateBlogPost` | blog-generator.py:64-96 | defaults written into the record, the file name, and the page |
| `BlogGenerator.BlogEntry` | blog-generator.py:180-198 | the entry's date, tags and excerpt |
| `BlogGenerator.UpdateBlogIndex` | blog-generator.py:149-178 | the index update is the prepend splice of the rendered entries |
| `BlogGenerator.Candidate` | blog-generator.py:210-231 | a document is kept exactly when its version or its features are non-empty |
| `BlogGenerator.ScanEynosUpdates` | blog-generator.py:200-233 | README.md, CONTRIBUTING.md, then every `*.md` under docs/ not named README.md or CONTRIBUTING.md, filtered by the inclusion test |
| `BlogGenerator.UpdatesKept` | blog-generator.py:210-231 | every update passes the test, and every docs/ file that passes is found |
| `BlogGenerator.DocsPickIff` | blog-generator.py:224-231 | a docs/ file is kept exactly when its record has a version or features |
| `BlogGenerator.UpdatesExtend` | blog-generator.py:224-231 | more docs/ files only add updates after the earlier ones |
| `BlogGenerator.GeneratePosts` | blog-generator.py:250-256 | one page and one index record per update, in order |
| `BlogGenerator.GenerateBlogFromUpdates` | blog-generator.py:235-262 | the pages written, and the index updated only when there are updates |
| `SimpleGenerator.UpdateInfo` | simple-blog-generator.py:43-71 | None exactly when no `release\s+digits` occurs; otherwise the digits, the first heading or "EYN-OS Release <version>", and the features |
| `SimpleGenerator.ExtractUpdateInfo` | simple-blog-generator.py:43-71 | the method computes that record |
| `SimpleGenerator.ReleaseFileName` | simple-blog-generator.py:76-78 | `release-<version>-<slug>.html` |
| `SimpleGenerator.VersionFromFileName` | simple-blog-generator.py:76-78 | the version can be read back from the file name |
| `SimpleGenerator.PostSectionsIff` | simple-blog-generator.py:122-128 | "New Features" appears exactly when there are features, and "Key Changes" never appears |
| `SimpleGenerator.GenerateBlogPost` | simple-blog-generator.py:73-111 | the file name and the page, with tags "Release, EYN-OS, Version <version>" |
| `SimpleGenerator.ScanForUpdates` | simple-blog-generator.py:18-41 | README.md, then every `*.md` under docs/ whatever its name, kept when it names a release |
| `SimpleGenerator.UpdatesNamed` | simple-blog-generator.py:46-54 | every update found has a digit version and a title |
| `SimpleGenerator.DocFound` | simple-blog-generator.py:32-39 | every `*.md` under docs/ that names a release is found |
| `SimpleGenerator.GeneratePosts` | simple-blog-generator.py:166-169 | one page per update, in order |
| `SimpleGenerator.Run` | simple-blog-generator.py:140-172 | one page per update found, in scan order |
| `DynamicIndex.ParseIso` | dynamic-blog-index.py:57-58 | `%Y-%m-%d` gives a valid calendar date at midnight |
| `DynamicIndex.ParseMonthYear` | dynamic-blog-index.py:59-60 | `%B %Y` gives the first of the named month at midnight |
| `DynamicIndex.MonthYearRoundTrip` | dynamic-blog-index.py:156-159 | a date printed as `%B %Y` parses back to the first of that month |
| `DynamicIndex.IsoRoundTrip` | dynamic-blog-index.py:53-66 | a date printed as `%Y-%m-%d` parses back to that day |
| `DynamicIndex.Shorten` | dynamic-blog-index.py:82-85 | an excerpt of up to 200 characters is kept; a longer one becomes its first 200 characters and "..." |
| `DynamicIndex.ExtractPostInfo` | dynamic-blog-index.py:39-120 | None exactly when the file cannot be read or no `<h1[^>]*>(.*?)</h1>` match exists; otherwise the title is the stripped group of the leftmost match, with the file's name |
| `DynamicIndex.TitleExample` | dynamic-blog-index.py:45-49 | a heading with attributes whose text starts on a new line is read back as the stripped title |
| `DynamicIndex.DateFromPage` | dynamic-blog-index.py:52-66 | the first date span, stripped, gives the date when it parses; otherwise, or without a span, the clock's reading |
| `DynamicIndex.TagsFromPage` | dynamic-blog-index.py:68-73 | the tags are the first tags span, stripped, or "EYN-OS, Update" without one |
| `DynamicIndex.ExcerptShape` | dynamic-blog-index.py:75-87 | the excerpt is the stripped introduction paragraph; without one the first paragraph cut to 200 characters and "..."; without either the fixed sentence |
| `DynamicIndex.KindIff` | dynamic-blog-index.py:89-93 | the kind is Release exactly when the tags contain "Release" |
| `DynamicIndex.ExtractedVersion` | dynamic-blog-index.py:93-103 | a version is set only for a release and is digits: from `Version N` in the tags when there is one, else from `Release N` in the title, case ignored |
| `DynamicIndex.EntryTagsReadBack` | dynamic-blog-index.py:161-167 | the tags an index entry shows read back as the same kind and the same version |
| `DynamicIndex.SimpleTagsRead` | simple-blog-generator.py:88 | simple-blog-generator.py's tags read back as a release with its version |
| `DynamicIndex.BlogTagsRead` | blog-generator.py:85 | blog-generator.py's post tags read back as a release without a version |
| `DynamicIndex.AdvancedTagsRead` | advanced-blog-generator.py:208 | a commit post's tags read back as an update |
| `DynamicIndex.DefaultTagsRead` | dynamic-blog-index.py:69-73 | the default tags read back as an update |
| `DynamicIndex.CommitTagsRead` | github-blog-generator.py:186-190 | a GitHub post's tags read back as a release exactly for a release commit, with its version |
| `DynamicIndex.InsertKeepsOrder` | dynamic-blog-index.py:35 | inserting into a newest-first list keeps it newest first |
| `DynamicIndex.InsertStable` | dynamic-blog-index.py:35 | an insertion keeps the order of posts with the same date, the new one last |
| `DynamicIndex.SortNewestIs` | dynamic-blog-index.py:35 | the sort is newest first, a permutation, and stable for equal dates |
| `DynamicIndex.ScanBlogDirectory` | dynamic-blog-index.py:17-37 | no directory gives no posts; otherwise the sorted posts read from it |
| `DynamicIndex.FoundIff` | dynamic-blog-index.py:26-33 | a post is found exactly when some listed file yields it |
| `DynamicIndex.PostListed` | dynamic-blog-index.py:26-35 | a post is scanned exactly when some listed file yields it, and it is never template.html |
| `DynamicIndex.PostsOrdered` | dynamic-blog-index.py:26-35 | the scan is newest first, a permutation of the posts found, and stable for equal dates |
| `DynamicIndex.EntryTexts` | dynamic-blog-index.py:137-140 | one rendered entry per post, in order |
| `DynamicIndex.GenerateBlogIndex` | dynamic-blog-index.py:122-151 | the new index is the section replacement with the rendered entries |
| `DynamicIndex.EntryReadsBack` | dynamic-blog-index.py:153-181 | an entry's date parses back to the post's month, and its tags to the post's kind and version |
| `DynamicIndex.Run` | dynamic-blog-index.py:183-218 | nothing is written without the directory or the index, or without posts; otherwise the rebuilt index |
| `DynamicIndex.PostsClockFree` | dynamic-blog-index.py:53-66 | when every page carries a readable date, the scan does not depend on the clock |
| `DynamicIndex.RunTwice` | dynamic-blog-index.py:183-218 | running the index rebuild again on its own output changes nothing, when every page is dated and no entry contains `</section>` |

## Left out

- Reading and writing files, `mkdir`, `glob`/`rglob`/`os.walk`, `os.chdir`, `subprocess` and git: the model takes file contents as `Option` values, directory walks as lists in walk order, and git's stdout as a string. It returns the files and the index text it would write. Calling git and the exception paths around it (a failed `git log` gives no commits) are not modelled beyond that.
- The GitHub REST client and its pagination (github-blog-generator.py:30-81): a network client. Only the mapping of one fetched item is modelled.
- `datetime.now()` and locale: the current date is a parameter. `%B` uses English month names, and `%Y` pads to four digits.
- `print` reporting, `main`, and the exit codes.
- regenerate-blog-index.py: it only runs dynamic-blog-index.py as a subprocess.
- github-blog-generator.py's `generate_commit_intro`, `generate_commit_main_content`, `update_blog_index`, `generate_blog_index_entry` and `run`: prose builders, I/O and a subprocess call. Its classifier, title, file name and tags are modelled.
- advanced-blog-generator.py's `get_file_content_at_commit` and `extract_features_from_changes`: a backtracking C doc-comment pattern over sources fetched from git.
- Character classes are ASCII. `lower()` maps only A-Z. `\d` matches only 0-9. `IGNORECASE` folds only A-Z, so the Unicode case folds Python also applies (`ſ` for `s`, the Kelvin sign for `k`) are not modelled.
- The git log parser treats every stdout line as one commit, as the script does. A multi-line `%b` body therefore yields extra, usually short, lines that are dropped or parsed as further commits, exactly as in the script. `LogRoundTrip` states the round trip only for commits without newlines.
- The GitHub commit date is the first ten characters of the timestamp; it is not parsed.
- In generate_blog_index_entry, the `str(post['date'])` branch is never taken, because the scan always stores a `datetime`.
- `list.sort(key=..., reverse=True)` is modelled as a stable insertion sort that puts the later date first. Python's sort with `reverse=True` is also stable, so posts with equal dates keep their scan order in both. Dates compare as (year, month, day, time) tuples.
- The commit keyword sets, the slug character class, placeholder names and every prose paragraph are taken as constant strings.
- DynamicIndex.RunTwice: stated only when every page carries a date the parser accepts. A page without one takes the clock's date, which may differ between the two runs. It also needs that no entry contains `</section>`, as the second rebuild would otherwise stop at that tag.
- DynamicIndex.Shorten: states the cut for excerpts longer than 200 characters, not an if-and-only-if in both directions. A stripped 203-character paragraph that already ends in "..." cannot be told apart from a shortened one.
- Splice.ReplaceIdempotent: stated only when no entry contains `</section>`, for the same reason as RunTwice.
