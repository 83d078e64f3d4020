/** The git side of advanced-blog-generator.py: the commits read from `git log`, the files read
    from `git show`, and the test that makes a commit worth a post. */
module GitLog {
  import opened Text
  import opened Patterns

  // ---------------------------------------------------------------- git log

  /** One commit as `get_git_commits` records it. */
  datatype Commit = Commit(hash: String, author: String, date: String, subject: String, body: String)

  /** One line of `git log --pretty=format:%H|%an|%ad|%s|%b`: cut at the first four `|` at most;
      a line with fewer than four fields is dropped, and a missing fifth field is an empty body. */
  function ParseLine(line: String): (r: Option<Commit>)
    ensures r.Some? <==> |Split(line, "|", 4)| >= 4
  {
    var parts := Split(line, "|", 4);
    if |parts| < 4 then None
    else Some(Commit(parts[0], parts[1], parts[2], parts[3], if |parts| > 4 then parts[4] else []))
  }

  /** The line git prints for a commit: the five fields joined by `|`. */
  function FormatLine(c: Commit): String
  {
    JoinWith("|", [c.hash, c.author, c.date, c.subject, c.body])
  }

  /** None of the first four fields holds a `|`; the body may. */
  predicate Separable(c: Commit)
  {
    NoChar(c.hash, '|') && NoChar(c.author, '|') && NoChar(c.date, '|') && NoChar(c.subject, '|')
  }

  /** The parser reads back the line git prints, body and all: at most four cuts are made, so a `|`
      in the body stays in the body. */
  lemma ParseFormat(c: Commit)
    requires Separable(c)
    ensures ParseLine(FormatLine(c)) == Some(c)
  {
    var parts := [c.hash, c.author, c.date, c.subject, c.body];
    SplitJoin(parts, "|", 4);
  }

  /** A line of four fields free of `|` parses with an empty body. */
  lemma ParseFourFields(c: Commit)
    requires Separable(c) && c.body == []
    ensures ParseLine(JoinWith("|", [c.hash, c.author, c.date, c.subject])) == Some(c)
  {
    var parts := [c.hash, c.author, c.date, c.subject];
    SplitJoin(parts, "|", 4);
  }

  /** Whatever the parser accepts, it took apart at `|`: its fields joined back with `|` are the
      line, the body included only when the line had a fifth field. */
  lemma ParsedRejoins(line: String)
    requires ParseLine(line).Some?
    ensures var c := ParseLine(line).value;
      line == FormatLine(c) || (c.body == [] && line == JoinWith("|", [c.hash, c.author, c.date, c.subject]))
  {
    var parts := Split(line, "|", 4);
    JoinSplit(line, "|", 4);
    SplitPiecesAtMost(line, "|", 4);
    if |parts| == 4 {
      assert parts == [parts[0], parts[1], parts[2], parts[3]];
    } else {
      assert parts == [parts[0], parts[1], parts[2], parts[3], parts[4]];
    }
  }

  /** A split with a limit of `n` cuts yields at most `n + 1` pieces. */
  lemma {:induction false} SplitPiecesAtMost(s: String, sep: String, n: nat)
    requires |sep| > 0
    ensures |Split(s, sep, n)| <= n + 1
    decreases |s|
  {
    var f := FindFrom(s, sep, 0);
    if n == 0 || f.None? {
      assert Split(s, sep, n) == [s];
    } else {
      var rest := s[f.value + |sep|..];
      SplitPiecesAtMost(rest, sep, n - 1);
      assert Split(s, sep, n) == [s[..f.value]] + Split(rest, sep, n - 1);
    }
  }

  /** The lines of the output, after the whole output is stripped. */
  function LogLines(stdout: String): (r: seq<String>)
    ensures |r| >= 1
  {
    Split(Strip(stdout), "\n", -1)
  }

  /** An empty line is skipped; any other is kept when it parses. */
  function LinePick(line: String): (r: Option<Commit>)
    ensures r.Some? <==> line != [] && ParseLine(line).Some?
  {
    if line == [] then None else ParseLine(line)
  }

  /** The commits of a `git log` output, in the order of its lines. */
  function LogCommits(stdout: String): seq<Commit>
  {
    FilterMap(LogLines(stdout), LinePick)
  }

  /** The loop of `get_git_commits` over the output's lines. */
  method ParseLogLines(lines: seq<String>) returns (commits: seq<Commit>)
    ensures commits == FilterMap(lines, LinePick)
  {
    commits := [];
    for i := 0 to |lines|
      invariant commits == FilterMap(lines[..i], LinePick)
    {
      var line := lines[i];
      if line != [] {
        var parsed := ParseLine(line);
        if parsed.Some? {
          commits := commits + [parsed.value];
        }
      }
      assert lines[..i + 1][..i] == lines[..i];
    }
    assert lines[..|lines|] == lines;
  }

  /** The commits of a `git log` output. */
  method ParseGitLog(stdout: String) returns (commits: seq<Commit>)
    ensures commits == LogCommits(stdout)
  {
    var lines := Split(Strip(stdout), "\n", -1);
    commits := ParseLogLines(lines);
  }

  /** `get_git_commits`: `gitLog` is the output of `git log`, or `None` when there is no .git
      directory, the command fails or raises; then there are no commits. */
  method GetGitCommits(gitLog: Option<String>) returns (commits: seq<Commit>)
    ensures gitLog.None? ==> commits == []
    ensures gitLog.Some? ==> commits == LogCommits(gitLog.value)
  {
    if gitLog.None? {
      return [];
    }
    commits := ParseGitLog(gitLog.value);
  }

  /** A commit survives `git log | parse` exactly when its line does. */
  lemma LogCommitIff(stdout: String, c: Commit)
    ensures c in LogCommits(stdout) <==>
      exists i :: 0 <= i < |LogLines(stdout)| && LogLines(stdout)[i] != [] && ParseLine(LogLines(stdout)[i]) == Some(c)
  {
    FilterMapIff(LogLines(stdout), LinePick, c);
  }

  /** A commit whose line git prints whole: no field holds a newline, the hash starts with a
      non-space and the body does not end in whitespace, so stripping the output and cutting it at
      newlines gives back the line. */
  predicate OnOneLine(c: Commit)
  {
    && Separable(c)
    && NoChar(c.hash, '\n') && NoChar(c.author, '\n') && NoChar(c.date, '\n')
    && NoChar(c.subject, '\n') && NoChar(c.body, '\n')
    && c.hash != [] && !IsSpace(c.hash[0])
    && (c.body == [] || !IsSpace(c.body[|c.body| - 1]))
  }

  function FormatLines(cs: seq<Commit>): (r: seq<String>)
    ensures |r| == |cs|
    ensures forall i :: 0 <= i < |cs| ==> r[i] == FormatLine(cs[i])
  {
    if cs == [] then [] else FormatLines(cs[..|cs| - 1]) + [FormatLine(cs[|cs| - 1])]
  }

  /** The whole log reads back: for commits git prints on one line each, the parsed commits are the
      commits, in order. */
  lemma {:induction false} LogRoundTrip(cs: seq<Commit>)
    requires |cs| > 0 && forall i :: 0 <= i < |cs| ==> OnOneLine(cs[i])
    ensures LogCommits(JoinWith("\n", FormatLines(cs))) == cs
  {
    var lines := FormatLines(cs);
    forall k | 0 <= k < |lines|
      ensures NoChar(lines[k], '\n') && lines[k] != [] && !IsSpace(lines[k][0]) && !IsSpace(lines[k][|lines[k]| - 1])
    {
      FormatNoNewline(cs[k]);
    }
    JoinEnds(lines);
    StripUnchanged(JoinWith("\n", lines));
    SplitJoin(lines, "\n", -1);
    ParseAll(cs);
  }

  lemma FormatNoNewline(c: Commit)
    requires OnOneLine(c)
    ensures NoChar(FormatLine(c), '\n')
    ensures FormatLine(c) != [] && !IsSpace(FormatLine(c)[0])
    ensures !IsSpace(FormatLine(c)[|FormatLine(c)| - 1])
  {
    var parts := [c.hash, c.author, c.date, c.subject, c.body];
    JoinNoChar("|", parts, '\n');
    JoinFirst("|", parts);
    JoinLast("|", parts);
  }

  /** A join of lines that each start and end with a non-space starts and ends with a non-space. */
  lemma JoinEnds(lines: seq<String>)
    requires |lines| > 0
    requires forall k :: 0 <= k < |lines| ==> lines[k] != [] && !IsSpace(lines[k][0]) && !IsSpace(lines[k][|lines[k]| - 1])
    ensures var s := JoinWith("\n", lines); s != [] && !IsSpace(s[0]) && !IsSpace(s[|s| - 1])
  {
    JoinFirst("\n", lines);
    JoinLast("\n", lines);
  }

  lemma ParseAll(cs: seq<Commit>)
    requires forall i :: 0 <= i < |cs| ==> OnOneLine(cs[i])
    ensures FilterMap(FormatLines(cs), LinePick) == cs
  {
    var lines := FormatLines(cs);
    forall i | 0 <= i < |cs| ensures LinePick(lines[i]) == Some(cs[i]) {
      ParseFormat(cs[i]);
      FormatNoNewline(cs[i]);
    }
    FilterMapAll(lines, LinePick, cs);
  }

  // ---------------------------------------------------------------- git show

  /** `result.stdout.strip().split('\n')`: the lines of the output of `git show --name-only`. */
  function ShowLines(out: String): seq<String>
  {
    Split(Strip(out), "\n", -1)
  }

  /** `get_file_changes`: the stripped non-empty lines of `git show --name-only`; `show` is `None`
      when the command fails or raises, and then nothing changed. */
  function FileChanges(show: Option<String>): (r: seq<String>)
    ensures show.None? ==> r == []
    ensures forall k :: 0 <= k < |r| ==> r[k] != [] && Strip(r[k]) == r[k]
  {
    if show.None? then []
    else
      var lines := ShowLines(show.value);
      var r := FilterMap(lines, StripPick);
      forall k | 0 <= k < |r| ensures r[k] != [] && Strip(r[k]) == r[k] {
        var i := FilterMapSource(lines, StripPick, r[k]);
        StripIdempotent(lines[i]);
      }
      r
  }

  /** The changed files are the output lines, stripped, in order, those that strip to nothing
      dropped and no other. */
  lemma FileChangesAre(out: String) returns (ix: seq<nat>)
    ensures Picks(ShowLines(out), StripPick, FileChanges(Some(out)), ix)
  {
    ix := FilterMapPicks(ShowLines(out), StripPick);
  }

  // ---------------------------------------------------------------- the significance test

  /** The words that make a commit a candidate, searched in this order. */
  const Keywords: seq<String> :=
    ["release", "version", "major", "update", "feature", "new",
     "add", "implement", "complete", "rewrite", "overhaul"]

  /** Some keyword occurs in the lower-cased subject or the lower-cased body. */
  predicate Significant(c: Commit)
  {
    exists k :: 0 <= k < |Keywords| && (Contains(Lower(c.subject), Keywords[k]) || Contains(Lower(c.body), Keywords[k]))
  }

  /** The keyword loop of `analyze_commit_for_updates`, which stops at the first keyword found. */
  method IsSignificant(c: Commit) returns (significant: bool)
    ensures significant <==> Significant(c)
  {
    var subjectLower := Lower(c.subject);
    var bodyLower := Lower(c.body);
    significant := false;
    var k := 0;
    while k < |Keywords|
      invariant 0 <= k <= |Keywords|
      invariant !significant
      invariant forall j :: 0 <= j < k ==> !(Contains(subjectLower, Keywords[j]) || Contains(bodyLower, Keywords[j]))
    {
      if Contains(subjectLower, Keywords[k]) || Contains(bodyLower, Keywords[k]) {
        significant := true;
        break;
      }
      k := k + 1;
    }
  }

  /** The endings that make a changed file worth naming. */
  const ImportantEndings: seq<String> := [".md", ".c", ".h", "Makefile", "README"]

  predicate Important(path: String)
  {
    exists k :: 0 <= k < |ImportantEndings| && EndsWith(path, ImportantEndings[k])
  }

  function ImportantPick(path: String): (r: Option<String>)
    ensures r.Some? <==> Important(path)
    ensures r.Some? ==> r.value == path
  {
    if Important(path) then Some(path) else None
  }

  /** The important files among the changed ones, in their order. */
  function ImportantFiles(files: seq<String>): seq<String>
  {
    FilterMap(files, ImportantPick)
  }

  /** Exactly the changed files with an important ending are kept. */
  lemma ImportantFilesIff(files: seq<String>, f: String)
    ensures f in ImportantFiles(files) <==> f in files && Important(f)
  {
    FilterMapIff(files, ImportantPick, f);
    if f in files && Important(f) {
      var i :| 0 <= i < |files| && files[i] == f;
    }
  }

  /** The filter keeps the order of the files: filtering a longer list adds after what was kept. */
  lemma ImportantFilesAppend(files: seq<String>, more: seq<String>)
    ensures ImportantFiles(files + more) == ImportantFiles(files) + ImportantFiles(more)
  {
    FilterMapAppend(files, more, ImportantPick);
  }

  /** The file loop of `analyze_commit_for_updates`. */
  method FindImportantFiles(files: seq<String>) returns (important: seq<String>)
    ensures important == ImportantFiles(files)
  {
    important := [];
    for i := 0 to |files|
      invariant important == FilterMap(files[..i], ImportantPick)
    {
      if Important(files[i]) {
        important := important + [files[i]];
      }
      assert files[..i + 1][..i] == files[..i];
    }
    assert files[..|files|] == files;
  }

  // ---------------------------------------------------------------- the update record

  /** The record of a significant commit: its type is always `commit_update`. */
  datatype CommitUpdate = CommitUpdate(hash: String, date: String, subject: String, body: String,
                                       changedFiles: seq<String>, version: Option<String>)

  /** The release number, searched in the lower-cased subject and body joined by a space. */
  function CommitVersion(c: Commit): (r: Option<String>)
    ensures r.Some? ==> r.value != [] && AllDigits(r.value)
  {
    NumberAfter(Lower(c.subject) + " " + Lower(c.body), "release", Spaces)
  }

  /** A record for a commit that is significant and changed an important file; none otherwise. */
  function AnalyzeCommit(c: Commit, changedFiles: seq<String>): (r: Option<CommitUpdate>)
    ensures r.None? <==> !Significant(c) || ImportantFiles(changedFiles) == []
    ensures r.Some? ==> r.value.changedFiles == ImportantFiles(changedFiles) && r.value.changedFiles != []
    ensures r.Some? ==> forall f :: f in r.value.changedFiles ==> f in changedFiles && Important(f)
    ensures r.Some? ==> (r.value.hash == c.hash && r.value.date == c.date && r.value.subject == c.subject
      && r.value.body == c.body && r.value.version == CommitVersion(c))
  {
    if !Significant(c) then None
    else
      var important := ImportantFiles(changedFiles);
      if important == [] then None
      else
        forall f | f in important ensures f in changedFiles && Important(f) {
          ImportantFilesIff(changedFiles, f);
        }
        Some(CommitUpdate(c.hash, c.date, c.subject, c.body, important, CommitVersion(c)))
  }

  /** `analyze_commit_for_updates`, with the commit's changed files given. */
  method AnalyzeCommitForUpdates(c: Commit, changedFiles: seq<String>) returns (r: Option<CommitUpdate>)
    ensures r == AnalyzeCommit(c, changedFiles)
  {
    var significant := IsSignificant(c);
    if !significant {
      return None;
    }
    var important := FindImportantFiles(changedFiles);
    if important == [] {
      return None;
    }
    var version := NumberAfter(Lower(c.subject) + " " + Lower(c.body), "release", Spaces);
    r := Some(CommitUpdate(c.hash, c.date, c.subject, c.body, important, version));
  }

  /** The release number may straddle the join: a subject ending in "release" and a body starting
      with a digit give a number. */
  lemma VersionAcrossJoin(c: Commit)
    requires |c.subject| >= 7 && Lower(c.subject)[|c.subject| - 7..] == "release"
    requires c.body != [] && IsDigit(c.body[0])
    ensures CommitVersion(c).Some?
  {
    var s := Lower(c.subject) + " " + Lower(c.body);
    var i := |c.subject| - 7;
    assert s[i..i + 7] == Lower(c.subject)[i..];
    assert s[|c.subject|] == ' ' && s[|c.subject| + 1] == Lower(c.body)[0];
    assert SpaceRun(s, |c.subject|) > 0;
    assert NumberAt(s, "release", Spaces, i);
  }
}
