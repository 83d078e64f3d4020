/** dynamic-blog-index.py: rebuilds the posts section of the blog index from the post pages found
    in the blog directory, reading each page's title, date, tags and excerpt back out of its HTML,
    newest post first. */
module DynamicIndex {
  import opened Text
  import opened Patterns
  import opened Splice
  import opened IndexEntry
  import GithubGenerator
  import SimpleGenerator
  import BlogGenerator
  import AdvancedGenerator

  // ---------------------------------------------------------------- dates

  type Year = y: nat | 1 <= y <= 9999 witness 1
  type Month = m: nat | 1 <= m <= 12 witness 1
  type Day = d: nat | 1 <= d <= 31 witness 1

  /** A naive `datetime`; the time of day is one number (microseconds since midnight). */
  datatype DateTime = DateTime(year: Year, month: Month, day: Day, time: nat)

  /** `a <= b` on datetimes: field by field, the year first. */
  predicate NotAfter(a: DateTime, b: DateTime)
  {
    || a.year < b.year
    || (a.year == b.year && a.month < b.month)
    || (a.year == b.year && a.month == b.month && a.day < b.day)
    || (a.year == b.year && a.month == b.month && a.day == b.day && a.time <= b.time)
  }

  predicate Leap(y: nat)
  {
    y % 4 == 0 && (y % 100 != 0 || y % 400 == 0)
  }

  function DaysIn(y: nat, m: Month): nat
  {
    if m == 2 then (if Leap(y) then 29 else 28)
    else if m == 4 || m == 6 || m == 9 || m == 11 then 30
    else 31
  }

  /** The calendar has the day: what `datetime(...)` checks before it builds a value. */
  predicate ValidDate(d: DateTime)
  {
    d.day <= DaysIn(d.year, d.month)
  }

  function Digit(c: char): nat
    requires IsDigit(c)
  {
    c as int - '0' as int
  }

  /** `\d\d\d\d` at `i`. */
  predicate FourDigits(s: String, i: nat)
  {
    i + 4 <= |s| && IsDigit(s[i]) && IsDigit(s[i + 1]) && IsDigit(s[i + 2]) && IsDigit(s[i + 3])
  }

  /** `int()` of the four digits at `i`. */
  function FourValue(s: String, i: nat): (y: nat)
    requires FourDigits(s, i)
    ensures y <= 9999
  {
    1000 * Digit(s[i]) + 100 * Digit(s[i + 1]) + 10 * Digit(s[i + 2]) + Digit(s[i + 3])
  }

  // ---------------------------------------------------------------- strptime(s, '%Y-%m-%d')

  /** `%m` and then `-` at `i`, trying `1[0-2]`, `0[1-9]` and `[1-9]` in that order: the month and
      the index of the `-`. */
  function MonthDash(s: String, i: nat): (r: Option<(Month, nat)>)
    ensures r.Some? ==> i < r.value.1 < |s| && s[r.value.1] == '-'
  {
    if i + 2 < |s| && s[i] == '1' && '0' <= s[i + 1] <= '2' && s[i + 2] == '-' then Some((10 + Digit(s[i + 1]), i + 2))
    else if i + 2 < |s| && s[i] == '0' && '1' <= s[i + 1] <= '9' && s[i + 2] == '-' then Some((Digit(s[i + 1]), i + 2))
    else if i + 1 < |s| && '1' <= s[i] <= '9' && s[i + 1] == '-' then Some((Digit(s[i]), i + 1))
    else None
  }

  /** `%d` at `i`: the first of `3[01]`, `[12]\d`, `0[1-9]`, `[1-9]` and ` [1-9]` that matches there;
      the day and where the match ends. */
  function DayAt(s: String, i: nat): (r: Option<(Day, nat)>)
    ensures r.Some? ==> i < r.value.1 <= |s|
  {
    if i + 1 < |s| && s[i] == '3' && (s[i + 1] == '0' || s[i + 1] == '1') then Some((30 + Digit(s[i + 1]), i + 2))
    else if i + 1 < |s| && (s[i] == '1' || s[i] == '2') && IsDigit(s[i + 1]) then Some((10 * Digit(s[i]) + Digit(s[i + 1]), i + 2))
    else if i + 1 < |s| && s[i] == '0' && '1' <= s[i + 1] <= '9' then Some((Digit(s[i + 1]), i + 2))
    else if i < |s| && '1' <= s[i] <= '9' then Some((Digit(s[i]), i + 1))
    else if i + 1 < |s| && s[i] == ' ' && '1' <= s[i + 1] <= '9' then Some((Digit(s[i + 1]), i + 2))
    else None
  }

  /** `datetime.strptime(s, '%Y-%m-%d')`: the pattern must match at the start, nothing may follow
      it, and the calendar must have the date; nothing where a `ValueError` is raised. */
  function ParseIso(s: String): (r: Option<DateTime>)
    ensures r.Some? ==> ValidDate(r.value) && r.value.time == 0
  {
    if !FourDigits(s, 0) || |s| < 5 || s[4] != '-' then None
    else match MonthDash(s, 5)
      case None => None
      case Some((m, e)) =>
        match DayAt(s, e + 1)
        case None => None
        case Some((d, k)) =>
          var y := FourValue(s, 0);
          if k != |s| || y == 0 || d > DaysIn(y, m) then None
          else Some(DateTime(y, m, d, 0))
  }

  // ---------------------------------------------------------------- strptime(s, '%B %Y')

  /** The full month names in lower case, as `%B` compares them. */
  const MonthNames: seq<String> := [
    "january", "february", "march", "april", "may", "june",
    "july", "august", "september", "october", "november", "december"]

  function MonthName(m: Month): String
  {
    MonthNames[m - 1]
  }

  /** The order in which the `%B` alternatives are tried: longest name first, names of the same
      length in calendar order. */
  const NameOrder: seq<Month> := [9, 2, 11, 12, 1, 10, 8, 3, 4, 6, 7, 5]

  /** The first month, in `NameOrder` from position `k`, whose name starts `s` when case is
      ignored. */
  function NamedMonthFrom(s: String, k: nat): (r: Option<Month>)
    ensures r.Some? ==> OccursAtNoCase(s, MonthName(r.value), 0)
    decreases |NameOrder| - k
  {
    if k >= |NameOrder| then None
    else if OccursAtNoCase(s, MonthName(NameOrder[k]), 0) then Some(NameOrder[k])
    else NamedMonthFrom(s, k + 1)
  }

  /** `datetime.strptime(s, '%B %Y')`: a month name in any case, whitespace (the format's space
      becomes `\s+`), four digits and nothing after them; the first of the month. */
  function ParseMonthYear(s: String): (r: Option<DateTime>)
    ensures r.Some? ==> r.value.day == 1 && r.value.time == 0 && OccursAtNoCase(s, MonthName(r.value.month), 0)
  {
    match NamedMonthFrom(s, 0)
    case None => None
    case Some(m) =>
      var n := |MonthName(m)|;
      var w := SpaceRun(s, n);
      if w == 0 || !FourDigits(s, n + w) then None
      else
        var y := FourValue(s, n + w);
        if n + w + 4 != |s| || y == 0 then None else Some(DateTime(y, m, 1, 0))
  }

  /** The date of a post's date span: ISO when it holds a `-`, month and year otherwise. */
  function ParseDate(s: String): Option<DateTime>
  {
    if Contains(s, "-") then ParseIso(s) else ParseMonthYear(s)
  }

  // ---------------------------------------------------------------- strftime('%B %Y')

  function UpperChar(c: char): char
  {
    if 'a' <= c <= 'z' then (c as int - 32) as char else c
  }

  /** `%B`: the month's name with a capital first letter. */
  function MonthTitle(m: Month): String
  {
    var n := MonthName(m);
    [UpperChar(n[0])] + n[1..]
  }

  /** `%Y`: the year in four digits. */
  function Pad4(y: Year): (r: String)
    ensures |r| == 4 && AllDigits(r)
  {
    [DigitChar(y / 1000), DigitChar(y / 100 % 10), DigitChar(y / 10 % 10), DigitChar(y % 10)]
  }

  /** `%m` or `%d`: two digits. */
  function Pad2(n: nat): (r: String)
    requires n < 100
    ensures |r| == 2 && AllDigits(r)
  {
    [DigitChar(n / 10), DigitChar(n % 10)]
  }

  /** The date an index entry shows. */
  function FormatMonthYear(d: DateTime): String
  {
    MonthTitle(d.month) + " " + Pad4(d.year)
  }

  /** `%Y-%m-%d`, the other spelling the reader accepts. */
  function FormatIso(d: DateTime): String
  {
    Pad4(d.year) + "-" + Pad2(d.month) + "-" + Pad2(d.day)
  }

  // ---------------------------------------------------------------- facts about dates

  predicate AllLower(w: String)
  {
    forall t :: 0 <= t < |w| ==> 'a' <= w[t] <= 'z'
  }

  lemma NamesLower(m: Month)
    ensures AllLower(MonthName(m))
  {
  }

  /** The month a name's first three letters spell, or 0. */
  function MonthOfPrefix(a: char, b: char, c: char): nat
  {
    if a == 'j' && b == 'a' && c == 'n' then 1 else if a == 'f' && b == 'e' && c == 'b' then 2
    else if a == 'm' && b == 'a' && c == 'r' then 3 else if a == 'a' && b == 'p' && c == 'r' then 4
    else if a == 'm' && b == 'a' && c == 'y' then 5 else if a == 'j' && b == 'u' && c == 'n' then 6
    else if a == 'j' && b == 'u' && c == 'l' then 7 else if a == 'a' && b == 'u' && c == 'g' then 8
    else if a == 's' && b == 'e' && c == 'p' then 9 else if a == 'o' && b == 'c' && c == 't' then 10
    else if a == 'n' && b == 'o' && c == 'v' then 11 else if a == 'd' && b == 'e' && c == 'c' then 12
    else 0
  }

  lemma PrefixNamesMonth(m: Month)
    ensures |MonthName(m)| >= 3
    ensures var n := MonthName(m); MonthOfPrefix(n[0], n[1], n[2]) == m
  {
  }

  /** What a case-blind match says about each character. */
  lemma NoCaseChar(s: String, w: String, t: nat)
    requires OccursAtNoCase(s, w, 0) && t < |w|
    ensures LowerChar(s[t]) == w[t]
  {
    assert Lower(s[..|w|])[t] == LowerChar(s[t]);
  }

  /** At most one month name starts a text, so the order in which `%B` tries the names does not
      change which month is read. */
  lemma MonthNameUnique(s: String, j: Month, k: Month)
    requires OccursAtNoCase(s, MonthName(j), 0) && OccursAtNoCase(s, MonthName(k), 0)
    ensures j == k
  {
    PrefixNamesMonth(j);
    PrefixNamesMonth(k);
    SamePrefix(s, MonthName(j), MonthName(k));
  }

  /** Two words that both start a text, case ignored, and are at least three letters long agree
      on their first three letters. */
  lemma SamePrefix(s: String, a: String, b: String)
    requires OccursAtNoCase(s, a, 0) && OccursAtNoCase(s, b, 0) && |a| >= 3 && |b| >= 3
    ensures a[0] == b[0] && a[1] == b[1] && a[2] == b[2]
  {
    NoCaseChar(s, a, 0); NoCaseChar(s, a, 1); NoCaseChar(s, a, 2);
    NoCaseChar(s, b, 0); NoCaseChar(s, b, 1); NoCaseChar(s, b, 2);
  }

  lemma {:induction false} NamedMonthFind(s: String, m: Month, k: nat, t: nat)
    requires k <= t < |NameOrder| && NameOrder[t] == m && OccursAtNoCase(s, MonthName(m), 0)
    ensures NamedMonthFrom(s, k) == Some(m)
    decreases t - k
  {
    if NameOrder[k] != m {
      if OccursAtNoCase(s, MonthName(NameOrder[k]), 0) {
        MonthNameUnique(s, NameOrder[k], m);
      }
      NamedMonthFind(s, m, k + 1, t);
    }
  }

  lemma InNameOrder(m: Month) returns (t: nat)
    ensures t < |NameOrder| && NameOrder[t] == m
  {
    t := if m == 9 then 0 else if m == 2 then 1 else if m == 11 then 2 else if m == 12 then 3
      else if m == 1 then 4 else if m == 10 then 5 else if m == 8 then 6 else if m == 3 then 7
      else if m == 4 then 8 else if m == 6 then 9 else if m == 7 then 10 else 11;
  }

  /** The capitalised name reads back as the name, and holds neither a `-` nor a space. */
  lemma TitleLowers(m: Month)
    ensures |MonthTitle(m)| == |MonthName(m)| && Lower(MonthTitle(m)) == MonthName(m)
    ensures NoChar(MonthTitle(m), '-') && NoChar(MonthTitle(m), ' ')
  {
    NamesLower(m);
    CapitalLowers(MonthName(m));
  }

  /** A lower-case word with its first letter capitalised reads back as the word. */
  lemma CapitalLowers(n: String)
    requires |n| > 0 && AllLower(n)
    ensures var c := [UpperChar(n[0])] + n[1..];
      |c| == |n| && Lower(c) == n && NoChar(c, '-') && NoChar(c, ' ')
  {
    var c := [UpperChar(n[0])] + n[1..];
    forall t | 0 <= t < |n| ensures LowerChar(c[t]) == n[t] {
    }
  }

  lemma Pad4Value(y: Year)
    ensures FourDigits(Pad4(y), 0) && FourValue(Pad4(y), 0) == y
  {
    assert y == 10 * (y / 10) + y % 10;
    assert y / 10 == 10 * (y / 100) + y / 10 % 10;
    assert y / 100 == 10 * (y / 1000) + y / 100 % 10;
  }

  lemma SpaceThenDigit(s: String, n: nat)
    requires n + 2 <= |s| && s[n] == ' ' && IsDigit(s[n + 1])
    ensures SpaceRun(s, n) == 1
  {
    assert !IsSpace(s[n + 1]);
  }

  /** The `%B %Y` reading of a month name, one space and four digits. */
  lemma ParseMonthYearIs(s: String, m: Month, n: nat)
    requires NamedMonthFrom(s, 0) == Some(m) && n == |MonthName(m)|
    requires n + 5 == |s| && SpaceRun(s, n) == 1 && FourDigits(s, n + 1) && FourValue(s, n + 1) != 0
    ensures ParseMonthYear(s) == Some(DateTime(FourValue(s, n + 1), m, 1, 0))
  {
  }

  /** A text that starts with a month's name (in any case), then one space and a year in four
      digits, and holds no `-`, reads as the first of that month. */
  lemma MonthYearRead(s: String, m: Month, n: nat, y: Year)
    requires OccursAtNoCase(s, MonthName(m), 0) && n == |MonthName(m)|
    requires n + 5 == |s| && s[n] == ' ' && s[n + 1..] == Pad4(y) && !Contains(s, "-")
    ensures ParseDate(s) == Some(DateTime(y, m, 1, 0))
  {
    var t := InNameOrder(m);
    NamedMonthFind(s, m, 0, t);
    Pad4Value(y);
    assert s[n + 1] == Pad4(y)[0];
    SpaceThenDigit(s, n);
    assert FourDigits(s, n + 1) && FourValue(s, n + 1) == FourValue(Pad4(y), 0) by {
      assert forall k :: 0 <= k < 4 ==> s[n + 1 + k] == Pad4(y)[k];
    }
    ParseMonthYearIs(s, m, n);
  }

  /** The date an index entry shows reads back, through the `%B %Y` branch, as the first of the
      same month. */
  lemma MonthYearRoundTrip(d: DateTime)
    ensures ParseDate(FormatMonthYear(d)) == Some(DateTime(d.year, d.month, 1, 0))
  {
    var s := FormatMonthYear(d);
    var title, y4 := MonthTitle(d.month), Pad4(d.year);
    var n := |title|;
    TitleLowers(d.month);
    assert s[..n] == title;
    assert NoChar(s, '-') by {
      forall t | 0 <= t < |s| ensures s[t] != '-' {
        if t < n { assert s[t] == title[t]; }
        else if t > n { assert s[t] == y4[t - n - 1]; }
      }
    }
    NotContainsByFirstChar(s, "-");
    assert s[n + 1..] == y4;
    MonthYearRead(s, d.month, n, d.year);
  }

  lemma MonthDashPadded(s: String, i: nat, m: Month)
    requires i + 2 < |s| && s[i..i + 2] == Pad2(m) && s[i + 2] == '-'
    ensures MonthDash(s, i) == Some((m, i + 2))
  {
    assert s[i] == Pad2(m)[0] && s[i + 1] == Pad2(m)[1];
  }

  lemma DayAtPadded(s: String, i: nat, d: Day)
    requires i + 2 <= |s| && s[i..i + 2] == Pad2(d)
    ensures DayAt(s, i) == Some((d, i + 2))
  {
    assert s[i] == Pad2(d)[0] && s[i + 1] == Pad2(d)[1];
  }

  /** An ISO date reads back through the `%Y-%m-%d` branch as itself. */
  lemma IsoRoundTrip(d: DateTime)
    requires ValidDate(d)
    ensures ParseDate(FormatIso(d)) == Some(DateTime(d.year, d.month, d.day, 0))
  {
    var s := FormatIso(d);
    Pad4Value(d.year);
    assert s[..4] == Pad4(d.year) && s[4] == '-' && s[7] == '-' && |s| == 10;
    assert s[5..7] == Pad2(d.month) && s[8..10] == Pad2(d.day);
    MonthDashPadded(s, 5, d.month);
    DayAtPadded(s, 8, d.day);
    assert s[4..5] == "-";
    ContainsWitness(s, "-", 4);
    IsoFields(s, d);
  }

  /** Four digits of the year, a `-`, a month and its `-`, and a day that ends the text read as
      that date. */
  lemma IsoFields(s: String, d: DateTime)
    requires ValidDate(d) && |s| == 10 && FourDigits(s, 0) && FourValue(s, 0) == d.year && s[4] == '-'
    requires MonthDash(s, 5) == Some((d.month, 7)) && DayAt(s, 8) == Some((d.day, 10))
    ensures ParseIso(s) == Some(DateTime(d.year, d.month, d.day, 0))
  {
  }

  // ---------------------------------------------------------------- reading a post page

  const TitleOpen: String := "<h1"
  const TitleClose: String := "</h1>"
  const DateOpen: String := "<span class=\"post-date\">"
  const TagsOpen: String := "<span class=\"post-tags\">"
  const SpanClose: String := "</span>"
  const IntroOpen: String := "<p class=\"post-intro\">"
  const ParaOpen: String := "<p"
  const ParaClose: String := "</p>"
  const DefaultTags: String := "EYN-OS, Update"
  const DefaultExcerpt: String :=
    "Development update that brings " +
    "improvements and new features to EYN-OS."
  const ExcerptLimit: nat := 200

  const ReleaseWord: String := "Release"
  const VersionWord: String := "Version"
  const RocketRelease: String := "\U{1F680} " + ReleaseWord

  /** The five searches `extract_post_info` makes. */
  const TitlePattern := ElementPattern(TitleOpen, true, TitleClose, true)
  const DatePattern := ElementPattern(DateOpen, false, SpanClose, false)
  const TagsPattern := ElementPattern(TagsOpen, false, SpanClose, false)
  const IntroPattern := ElementPattern(IntroOpen, false, ParaClose, true)
  const ParaPattern := ElementPattern(ParaOpen, true, ParaClose, true)

  datatype PostType = Release | Update

  /** A post as the index needs it: the record `extract_post_info` returns. */
  datatype PostInfo = PostInfo(title: String, date: DateTime, tags: String, excerpt: String,
                               filename: String, kind: PostType, version: Option<String>)

  /** The stripped text of the first `<h1 ...>...</h1>`, which may span lines. */
  function PageTitle(content: String): Option<String>
  {
    match Element(content, TitlePattern)
    case None => None
    case Some(t) => Some(Strip(t))
  }

  /** The stripped text of the first date span, on one line. */
  function DateText(content: String): Option<String>
  {
    match Element(content, DatePattern)
    case None => None
    case Some(e) => Some(Strip(e))
  }

  /** The post's date: the date span read as a date, or the clock's reading `now` when the span
      is missing or does not parse. */
  function PageDate(content: String, now: DateTime): DateTime
  {
    match DateText(content)
    case None => now
    case Some(e) =>
      match ParseDate(e)
      case None => now
      case Some(d) => d
  }

  function PageTags(content: String): String
  {
    match Element(content, TagsPattern)
    case None => DefaultTags
    case Some(t) => Strip(t)
  }

  /** `excerpt[:200] + "..."` for an excerpt longer than 200 characters. */
  function Shorten(e: String): (r: String)
    ensures |r| <= ExcerptLimit + 3
    ensures |e| <= ExcerptLimit ==> r == e
    ensures |e| > ExcerptLimit ==> |r| == ExcerptLimit + 3 && r[..ExcerptLimit] == e[..ExcerptLimit] && r[ExcerptLimit..] == "..."
  {
    if |e| > ExcerptLimit then e[..ExcerptLimit] + "..." else e
  }

  /** The introduction paragraph, whole; else the first paragraph of any kind, shortened; else a
      fixed sentence. */
  function PageExcerpt(content: String): String
  {
    match Element(content, IntroPattern)
    case Some(e) => Strip(e)
    case None =>
      match Element(content, ParaPattern)
      case Some(e) => Shorten(Strip(e))
      case None => DefaultExcerpt
  }

  /** A release when the tags mention "🚀 Release" or "Release". */
  function TagsKind(tags: String): PostType
  {
    if Contains(tags, RocketRelease) || Contains(tags, ReleaseWord) then Release else Update
  }

  /** A release's number: "Version N" in the tags, else "Release N" in the title, case ignored. */
  function PostVersion(kind: PostType, tags: String, title: String): Option<String>
  {
    if kind != Release then None
    else match NumberAfter(tags, VersionWord, OneSpace)
      case Some(v) => Some(v)
      case None => NumberAfter(Lower(title), "release", OneSpace)
  }

  /** `extract_post_info`: nothing when the file cannot be read or the page has no `<h1>`; the
      clock's reading `now` is used when the page has no date that parses. */
  function ExtractPostInfo(name: String, content: Option<String>, now: DateTime): (r: Option<PostInfo>)
    ensures r.None? <==> content.None? || forall o: nat, c: nat, k: nat :: !ElementAt(content.value, TitlePattern, o, c, k)
    ensures content.Some? ==> forall o: nat, c: nat, k: nat :: FirstElementAt(content.value, TitlePattern, o, c, k) ==>
      r.Some? && r.value.title == Strip(content.value[c..k])
    ensures r.Some? ==> r.value.filename == name
    ensures r.Some? ==>
      r.value.date == PageDate(content.value, now) && r.value.tags == PageTags(content.value)
      && r.value.excerpt == PageExcerpt(content.value)
  {
    if content.None? then None
    else match PageTitle(content.value)
      case None => None
      case Some(title) =>
        var tags := PageTags(content.value);
        var kind := TagsKind(tags);
        Some(PostInfo(title, PageDate(content.value, now), tags, PageExcerpt(content.value), name, kind,
                      PostVersion(kind, tags, title)))
  }

  // ---------------------------------------------------------------- facts about reading a page

  lemma OccursInMiddle(p: String, w: String, q: String)
    ensures OccursAt(p + w + q, w, |p|)
  {
    assert (p + w + q)[|p|..|p| + |w|] == w;
  }

  /** The rocket adds nothing: tags with "🚀 Release" also contain "Release", so a post is a
      release exactly when its tags contain "Release". */
  lemma KindIff(tags: String)
    ensures TagsKind(tags) == Release <==> Contains(tags, ReleaseWord)
  {
    if Contains(tags, RocketRelease) {
      var i := FindFrom(tags, RocketRelease, 0).value;
      assert tags[i..i + 9] == RocketRelease;
      assert tags[i + 2..i + 9] == RocketRelease[2..] == ReleaseWord;
      ContainsWitness(tags, ReleaseWord, i + 2);
    }
  }

  /** Only a release has a number, and the number is digits; a number in the tags wins over one
      in the title. */
  lemma ExtractedVersion(name: String, content: Option<String>, now: DateTime)
    requires ExtractPostInfo(name, content, now).Some?
    ensures var p := ExtractPostInfo(name, content, now).value;
      && (p.version.Some? ==> p.kind == Release && |p.version.value| > 0 && AllDigits(p.version.value))
      && (p.kind == Release <==> Contains(p.tags, ReleaseWord))
      && (p.kind == Release && NumberAfter(p.tags, VersionWord, OneSpace).Some? ==> p.version == NumberAfter(p.tags, VersionWord, OneSpace))
      && (p.kind == Release && NumberAfter(p.tags, VersionWord, OneSpace).None? ==> p.version == NumberAfter(Lower(p.title), "release", OneSpace))
  {
    KindIff(ExtractPostInfo(name, content, now).value.tags);
  }

  const ExamplePage: String := "<h1 a>\n Hi </h1>"

  /** A heading with attributes whose text starts on a new line is read, stripped, as the
      post's title. */
  lemma TitleExample(now: DateTime)
    ensures ExtractPostInfo("hi.html", Some(ExamplePage), now).Some?
    ensures ExtractPostInfo("hi.html", Some(ExamplePage), now).value.title == "Hi"
  {
    ExampleHeading();
    var g := ExamplePage[6..11];
    assert g == "\n Hi " by {
      assert |g| == 5 && g[0] == '\n' && g[1] == ' ' && g[2] == 'H' && g[3] == 'i' && g[4] == ' ';
    }
    assert TrimStart(g) == TrimStart(g[1..]) == TrimStart(g[2..]) == g[2..];
    assert TrimEnd(g[2..]) == g[2..4] == "Hi";
  }

  /** The example page's heading is its only match, with the group at 6..11. */
  lemma ExampleHeading()
    ensures FirstElementAt(ExamplePage, TitlePattern, 0, 6, 11)
  {
    var page := ExamplePage;
    assert page[0] == '<' && page[1] == 'h' && page[2] == '1';
    assert page[5] == '>';
    assert page[11] == '<' && page[12] == '/' && page[13] == 'h' && page[14] == '1' && page[15] == '>';
    forall j | 3 <= j < 5 ensures !OccursAt(page, ">", j) { assert page[j] != '>'; }
    forall j | 6 <= j < 11 ensures !OccursAt(page, TitleClose, j) { assert page[j] != '<'; }
  }

  /** The excerpt is the stripped introduction paragraph, kept whole; without one, the first
      paragraph of any kind, stripped and cut to 200 characters and "..."; without either, the
      fixed sentence. */
  lemma ExcerptShape(content: String)
    ensures forall o: nat, c: nat, k: nat :: FirstElementAt(content, IntroPattern, o, c, k) ==>
      PageExcerpt(content) == Strip(content[c..k])
    ensures (forall o: nat, c: nat, k: nat :: !ElementAt(content, IntroPattern, o, c, k)) ==>
      forall o: nat, c: nat, k: nat :: FirstElementAt(content, ParaPattern, o, c, k) ==>
        var e := Strip(content[c..k]);
        && |PageExcerpt(content)| <= ExcerptLimit + 3
        && (|e| <= ExcerptLimit ==> PageExcerpt(content) == e)
        && (|e| > ExcerptLimit ==> PageExcerpt(content) == e[..ExcerptLimit] + "...")
    ensures
      && (forall o: nat, c: nat, k: nat :: !ElementAt(content, IntroPattern, o, c, k))
      && (forall o: nat, c: nat, k: nat :: !ElementAt(content, ParaPattern, o, c, k))
      ==> PageExcerpt(content) == DefaultExcerpt
  {
  }

  /** The first date span, stripped, decides the date when it reads as one; the clock is read only
      when there is no date span or the first one does not parse. */
  lemma DateFromPage(content: String, now: DateTime)
    ensures forall o: nat, c: nat, k: nat :: FirstElementAt(content, DatePattern, o, c, k) ==>
      && (ParseDate(Strip(content[c..k])).Some? ==> PageDate(content, now) == ParseDate(Strip(content[c..k])).value)
      && (ParseDate(Strip(content[c..k])).None? ==> PageDate(content, now) == now)
    ensures (forall o: nat, c: nat, k: nat :: !ElementAt(content, DatePattern, o, c, k)) ==> PageDate(content, now) == now
  {
  }

  /** The tags are the first tags span, stripped, or the default pair when there is none. */
  lemma TagsFromPage(content: String)
    ensures forall o: nat, c: nat, k: nat :: FirstElementAt(content, TagsPattern, o, c, k) ==>
      PageTags(content) == Strip(content[c..k])
    ensures (forall o: nat, c: nat, k: nat :: !ElementAt(content, TagsPattern, o, c, k)) ==> PageTags(content) == DefaultTags
  {
  }

  // ---------------------------------------------------------------- the tags an entry shows

  const ReleaseLead: String := RocketRelease + ", EYN-OS"
  const UpdateTags: String := "\U{1F4DD} Update, EYN-OS, Development"

  /** The tags of an index entry: a release with its number, a release, or an update. */
  function EntryTags(kind: PostType, version: Option<String>): String
  {
    if kind == Release && version.Some? && |version.value| > 0 then ReleaseLead + ", " + VersionWord + " " + version.value
    else if kind == Release then ReleaseLead
    else UpdateTags
  }

  /** The digit run that ends a text is all of its digits. */
  lemma DigitRunToEnd(s: String, d: nat)
    requires d <= |s| && AllDigits(s[d..])
    ensures DigitRun(s, d) == |s| - d
  {
    var n := DigitRun(s, d);
    if d + n < |s| {
      assert s[d + n] == s[d..][n];
    }
  }

  lemma NumberAfterEndPieces(p: String, kw: String, v: String)
    requires |kw| > 0 && NoChar(p, kw[0]) && |v| > 0 && IsDigit(v[0])
    ensures var s := p + kw + " " + v; var d := |p| + |kw| + 1;
      && s[d..] == v && DigitsStart(s, kw, OneSpace, |p|) == Some(d)
      && forall j :: 0 <= j < |p| ==> !NumberAt(s, kw, OneSpace, j)
  {
    var s := p + kw + " " + v;
    var d := |p| + |kw| + 1;
    assert s == p + kw + (" " + v);
    OccursInMiddle(p, kw, " " + v);
    assert s[d - 1] == ' ' && s[d] == v[0];
    forall j | 0 <= j < |p| ensures !NumberAt(s, kw, OneSpace, j) {
      assert s[j] == p[j];
      NotOccursByChar(s, kw, j, 0);
    }
  }

  /** `kw (\d+)` finds the digits that end a text, when the keyword's first character does not
      occur before the keyword. */
  lemma NumberAfterEnd(p: String, kw: String, v: String)
    requires |kw| > 0 && NoChar(p, kw[0]) && |v| > 0 && AllDigits(v)
    ensures NumberAfter(p + kw + " " + v, kw, OneSpace) == Some(v)
  {
    var s := p + kw + " " + v;
    var d := |p| + |kw| + 1;
    NumberAfterEndPieces(p, kw, v);
    NumberAfterAt(s, kw, OneSpace, |p|);
    DigitRunToEnd(s, d);
    assert NumberGroup(s, kw, OneSpace, |p|) == s[d..] == v;
  }

  /** `kw (\d+)` finds nothing in a text without the keyword's first character. */
  lemma NumberAfterAbsent(s: String, kw: String)
    requires |kw| > 0 && NoChar(s, kw[0])
    ensures NumberAfter(s, kw, OneSpace) == None
  {
    forall j: nat ensures !NumberAt(s, kw, OneSpace, j) {
      if j < |s| {
        NotOccursByChar(s, kw, j, 0);
      }
    }
  }

  /** The tags of a release without a number name a release and no number. */
  lemma ReleaseLeadRead()
    ensures Contains(ReleaseLead, ReleaseWord) && NoChar(ReleaseLead, 'V')
    ensures NumberAfter(ReleaseLead, VersionWord, OneSpace) == None
  {
    OccursInMiddle("\U{1F680} ", ReleaseWord, ", EYN-OS");
    ContainsWitness(ReleaseLead, ReleaseWord, 2);
    NumberAfterAbsent(ReleaseLead, VersionWord);
  }

  /** The tags of a numbered release name a release and its number. */
  lemma ReleaseNumberRead(v: String)
    requires |v| > 0 && AllDigits(v)
    ensures var t := ReleaseLead + ", " + VersionWord + " " + v;
      Contains(t, ReleaseWord) && NumberAfter(t, VersionWord, OneSpace) == Some(v)
  {
    ReleaseLeadRead();
    LeadThenNumber(ReleaseLead, v);
  }

  /** A lead naming a release and holding no `V`, then `, Version <digits>`, reads as a release
      with those digits. */
  lemma LeadThenNumber(lead: String, v: String)
    requires Contains(lead, ReleaseWord) && NoChar(lead, 'V') && |v| > 0 && AllDigits(v)
    ensures var t := lead + ", " + VersionWord + " " + v;
      Contains(t, ReleaseWord) && NumberAfter(t, VersionWord, OneSpace) == Some(v)
  {
    NoCharJoin(lead, ", ", 'V');
    NumberAfterEnd(lead + ", ", VersionWord, v);
    ContainsExtend(lead, ", ", ReleaseWord);
    ContainsExtend(lead + ", ", VersionWord, ReleaseWord);
    ContainsExtend(lead + ", " + VersionWord, " ", ReleaseWord);
    ContainsExtend(lead + ", " + VersionWord + " ", v, ReleaseWord);
  }

  /** The tags of an update name neither a release nor a number. */
  lemma UpdateTagsRead()
    ensures !Contains(UpdateTags, ReleaseWord) && NumberAfter(UpdateTags, VersionWord, OneSpace) == None
  {
    assert NoChar(UpdateTags, 'R') && NoChar(UpdateTags, 'V');
    NotContainsByChar(UpdateTags, ReleaseWord, 0);
    NumberAfterAbsent(UpdateTags, VersionWord);
  }

  /** The tags of an entry read back, through the reader's own rules, as the post's type and
      number. */
  lemma EntryTagsReadBack(kind: PostType, version: Option<String>)
    requires version.Some? ==> kind == Release && |version.value| > 0 && AllDigits(version.value)
    ensures TagsKind(EntryTags(kind, version)) == kind
    ensures NumberAfter(EntryTags(kind, version), VersionWord, OneSpace) == version
  {
    KindIff(EntryTags(kind, version));
    if kind == Update {
      UpdateTagsRead();
    } else if version.Some? {
      ReleaseNumberRead(version.value);
    } else {
      ReleaseLeadRead();
    }
  }

  // ---------------------------------------------------------------- the tags the generators write

  /** "Release, EYN-OS, Version N", the tags of the release posts of simple-blog-generator.py and
      github-blog-generator.py, read back as a release with number N. */
  lemma VersionTagsRead(v: String)
    requires |v| > 0 && AllDigits(v)
    ensures var t := "Release, EYN-OS, Version " + v;
      TagsKind(t) == Release && NumberAfter(t, VersionWord, OneSpace) == Some(v)
  {
    var t := "Release, EYN-OS, Version " + v;
    var p := "Release, EYN-OS, ";
    assert t == p + VersionWord + " " + v;
    assert NoChar(p, 'V');
    NumberAfterEnd(p, VersionWord, v);
    assert t[..7] == ReleaseWord;
    ContainsWitness(t, ReleaseWord, 0);
    KindIff(t);
  }

  /** A text without an `R` names neither a release nor (without a `V`) a number. */
  lemma NoReleaseRead(t: String)
    requires NoChar(t, 'R') && NoChar(t, 'V')
    ensures TagsKind(t) == Update && NumberAfter(t, VersionWord, OneSpace) == None
  {
    NotContainsByChar(t, ReleaseWord, 0);
    KindIff(t);
    NumberAfterAbsent(t, VersionWord);
  }

  /** The release posts of simple-blog-generator.py read back as releases with their number. */
  lemma SimpleTagsRead(v: String)
    requires |v| > 0 && AllDigits(v)
    ensures TagsKind(SimpleGenerator.PostTags(v)) == Release
    ensures NumberAfter(SimpleGenerator.PostTags(v), VersionWord, OneSpace) == Some(v)
  {
    VersionTagsRead(v);
  }

  /** The commit posts of advanced-blog-generator.py read back as updates. */
  lemma AdvancedTagsRead()
    ensures TagsKind(AdvancedGenerator.CommitTags) == Update
  {
    assert NoChar(AdvancedGenerator.CommitTags, 'R') && NoChar(AdvancedGenerator.CommitTags, 'V');
    NoReleaseRead(AdvancedGenerator.CommitTags);
  }

  /** A page without a tags span reads as an update. */
  lemma DefaultTagsRead()
    ensures TagsKind(DefaultTags) == Update
  {
    assert NoChar(DefaultTags, 'R') && NoChar(DefaultTags, 'V');
    NoReleaseRead(DefaultTags);
  }

  /** A text that starts with "Release" and has no `V` reads as a release without a number. */
  lemma ReleaseOnlyRead(t: String)
    requires |t| >= 7 && t[..7] == ReleaseWord && NoChar(t, 'V')
    ensures TagsKind(t) == Release && NumberAfter(t, VersionWord, OneSpace) == None
  {
    ContainsWitness(t, ReleaseWord, 0);
    KindIff(t);
    NumberAfterAbsent(t, VersionWord);
  }

  /** The release posts of blog-generator.py read back as releases; their tags carry no number,
      so the number comes from the title. */
  lemma BlogTagsRead()
    ensures TagsKind(BlogGenerator.PostTags) == Release
    ensures NumberAfter(BlogGenerator.PostTags, VersionWord, OneSpace) == None
  {
    var b := BlogGenerator.PostTags;
    assert b[..7] == ReleaseWord && NoChar(b, 'V');
    ReleaseOnlyRead(b);
  }

  lemma CategoryTitleNoR(c: GithubGenerator.Category)
    requires c != GithubGenerator.Release
    ensures NoChar(GithubGenerator.CategoryTitle(c), 'R')
  {
    match c
    case Feature =>
    case Fix =>
    case Improvement =>
    case Update =>
  }

  lemma NoCharJoin(a: String, b: String, ch: char)
    requires NoChar(a, ch) && NoChar(b, ch)
    ensures NoChar(a + b, ch)
  {
    forall i | 0 <= i < |a + b|
      ensures (a + b)[i] != ch
    {
      if i >= |a| {
        assert (a + b)[i] == b[i - |a|];
      }
    }
  }

  /** A text without an `R` does not name a release. */
  lemma NoRRead(t: String)
    requires NoChar(t, 'R')
    ensures TagsKind(t) == Update
  {
    NotContainsByChar(t, ReleaseWord, 0);
    KindIff(t);
  }

  lemma CategoryTagsRead(c: GithubGenerator.Category)
    requires c != GithubGenerator.Release
    ensures TagsKind(GithubGenerator.CategoryTitle(c) + ", EYN-OS, Development") == Update
  {
    var rest := ", EYN-OS, Development";
    CategoryTitleNoR(c);
    assert NoChar(rest, 'R');
    NoCharJoin(GithubGenerator.CategoryTitle(c), rest, 'R');
    NoRRead(GithubGenerator.CategoryTitle(c) + rest);
  }

  /** The commit posts of github-blog-generator.py: a release exactly when the commit was
      categorised as one, with the commit's number when it had one. */
  lemma CommitTagsRead(c: GithubGenerator.Category, version: Option<String>)
    requires version.Some? ==> |version.value| > 0 && AllDigits(version.value)
    ensures TagsKind(GithubGenerator.CommitTags(c, version)) == Release <==> c == GithubGenerator.Release
    ensures c == GithubGenerator.Release ==> NumberAfter(GithubGenerator.CommitTags(c, version), VersionWord, OneSpace) == version
  {
    var t := GithubGenerator.CommitTags(c, version);
    if c != GithubGenerator.Release {
      CategoryTagsRead(c);
    } else if version.Some? {
      VersionTagsRead(version.value);
    } else {
      assert t[..7] == ReleaseWord && NoChar(t, 'V');
      ReleaseOnlyRead(t);
    }
  }

  // ---------------------------------------------------------------- newest first

  /** No post is dated after one listed before it. */
  predicate NewestFirst(s: seq<PostInfo>)
  {
    forall i, j :: 0 <= i < j < |s| ==> NotAfter(s[j].date, s[i].date)
  }

  /** The posts dated `d`, in the order given. */
  function DatedOn(s: seq<PostInfo>, d: DateTime): seq<PostInfo>
  {
    if s == [] then []
    else DatedOn(s[..|s| - 1], d) + (if s[|s| - 1].date == d then [s[|s| - 1]] else [])
  }

  /** `x` placed after every post at least as new as it. */
  function InsertNewest(r: seq<PostInfo>, x: PostInfo): seq<PostInfo>
    decreases |r|
  {
    if r == [] || NotAfter(x.date, r[|r| - 1].date) then r + [x]
    else InsertNewest(r[..|r| - 1], x) + [r[|r| - 1]]
  }

  /** `sort(key=date, reverse=True)`: Python's sort is stable also when reversed, so posts of the
      same date keep the order they were found in. Written as an insertion sort, which yields the
      same list. */
  function SortNewest(xs: seq<PostInfo>): seq<PostInfo>
  {
    if xs == [] then [] else InsertNewest(SortNewest(xs[..|xs| - 1]), xs[|xs| - 1])
  }

  /** Inserting adds `x` and nothing else. */
  lemma {:induction false} InsertPermutes(r: seq<PostInfo>, x: PostInfo)
    ensures multiset(InsertNewest(r, x)) == multiset(r) + multiset{x}
    decreases |r|
  {
    if r != [] && !NotAfter(x.date, r[|r| - 1].date) {
      var init := r[..|r| - 1];
      assert r == init + [r[|r| - 1]];
      InsertPermutes(init, x);
    }
  }

  /** Of two datetimes one is not after the other. */
  lemma NotAfterTotal(a: DateTime, b: DateTime)
    ensures NotAfter(a, b) || NotAfter(b, a)
  {
  }

  lemma {:induction false} InsertKeepsOrder(r: seq<PostInfo>, x: PostInfo)
    requires NewestFirst(r)
    ensures NewestFirst(InsertNewest(r, x))
    decreases |r|
  {
    if r != [] && !NotAfter(x.date, r[|r| - 1].date) {
      var init, last := r[..|r| - 1], r[|r| - 1];
      InsertKeepsOrder(init, x);
      InsertPermutes(init, x);
      var q := InsertNewest(init, x);
      NotAfterTotal(x.date, last.date);
      forall i | 0 <= i < |q| ensures NotAfter(last.date, q[i].date) {
        assert q[i] in multiset(q);
        if q[i] != x {
          assert q[i] in init;
          var k :| 0 <= k < |init| && init[k] == q[i];
          assert r[k] == init[k];
        }
      }
      assert q + [last] == InsertNewest(r, x);
    }
  }

  /** Inserting `x` puts it after every post of its own date and leaves the others of each date in
      their order. */
  lemma {:induction false} InsertStable(r: seq<PostInfo>, x: PostInfo, d: DateTime)
    ensures DatedOn(InsertNewest(r, x), d) == DatedOn(r, d) + (if x.date == d then [x] else [])
    decreases |r|
  {
    var q := InsertNewest(r, x);
    if r == [] || NotAfter(x.date, r[|r| - 1].date) {
      assert q[..|q| - 1] == r;
    } else {
      var init, last := r[..|r| - 1], r[|r| - 1];
      InsertStable(init, x, d);
      assert q[..|q| - 1] == InsertNewest(init, x);
      assert x.date != last.date;
    }
  }

  /** The sorted list is newest first, holds the posts it was given, and keeps the order of the
      posts of each date. */
  lemma SortNewestIs(xs: seq<PostInfo>)
    ensures NewestFirst(SortNewest(xs))
    ensures multiset(SortNewest(xs)) == multiset(xs)
    ensures forall d :: DatedOn(SortNewest(xs), d) == DatedOn(xs, d)
  {
    SortOrders(xs);
    SortPermutes(xs);
    forall d ensures DatedOn(SortNewest(xs), d) == DatedOn(xs, d) {
      SortStable(xs, d);
    }
  }

  /** The sort yields a newest-first list. */
  lemma {:induction false} SortOrders(xs: seq<PostInfo>)
    ensures NewestFirst(SortNewest(xs))
    decreases |xs|
  {
    if xs != [] {
      SortOrders(xs[..|xs| - 1]);
      InsertKeepsOrder(SortNewest(xs[..|xs| - 1]), xs[|xs| - 1]);
    }
  }

  /** The sort neither adds nor drops a post. */
  lemma {:induction false} SortPermutes(xs: seq<PostInfo>)
    ensures multiset(SortNewest(xs)) == multiset(xs)
    decreases |xs|
  {
    if xs != [] {
      var init, last := xs[..|xs| - 1], xs[|xs| - 1];
      SortPermutes(init);
      InsertPermutes(SortNewest(init), last);
      assert SortNewest(xs) == InsertNewest(SortNewest(init), last);
      SnocMultiset(xs);
    }
  }

  /** A non-empty list holds what its front holds and its last post. */
  lemma SnocMultiset(xs: seq<PostInfo>)
    requires xs != []
    ensures multiset(xs) == multiset(xs[..|xs| - 1]) + multiset{xs[|xs| - 1]}
  {
    assert xs == xs[..|xs| - 1] + [xs[|xs| - 1]];
  }

  /** The sort keeps the posts of each date in their order. */
  lemma {:induction false} SortStable(xs: seq<PostInfo>, d: DateTime)
    ensures DatedOn(SortNewest(xs), d) == DatedOn(xs, d)
    decreases |xs|
  {
    if xs != [] {
      var init, last := xs[..|xs| - 1], xs[|xs| - 1];
      SortStable(init, d);
      InsertStable(SortNewest(init), last, d);
    }
  }

  // ---------------------------------------------------------------- the scan

  /** An `.html` file of the blog directory: its name, and its text, or nothing when it cannot be
      read (the exception path of `extract_post_info`). */
  datatype HtmlFile = HtmlFile(name: String, content: Option<String>)

  const TemplateName: String := "template.html"

  /** The post a file gives, the template giving none; `now` is the clock's reading meanwhile. */
  function PostOf(f: HtmlFile, now: DateTime): Option<PostInfo>
  {
    if f.name == TemplateName then None else ExtractPostInfo(f.name, f.content, now)
  }

  /** Each file with its position in the listing. */
  function Numbered(files: seq<HtmlFile>): (r: seq<(nat, HtmlFile)>)
    ensures |r| == |files| && forall i :: 0 <= i < |files| ==> r[i] == (i, files[i])
  {
    seq(|files|, i requires 0 <= i < |files| => (i, files[i]))
  }

  /** The post of the i-th file, read while the clock shows `clock(i)`. */
  function PostAt(clock: nat -> DateTime): ((nat, HtmlFile)) -> Option<PostInfo>
  {
    (x: (nat, HtmlFile)) => PostOf(x.1, clock(x.0))
  }

  /** The posts in the order the files are listed. */
  function Found(files: seq<HtmlFile>, clock: nat -> DateTime): seq<PostInfo>
  {
    FilterMap(Numbered(files), PostAt(clock))
  }

  /** What `scan_blog_directory` returns for a directory listing `files`. */
  function Posts(files: seq<HtmlFile>, clock: nat -> DateTime): seq<PostInfo>
  {
    SortNewest(Found(files, clock))
  }

  /** `scan_blog_directory`: `dir` lists the `*.html` files of the blog directory in the order the file system
      gives them, or nothing when the directory does not exist; `clock(i)` is what `datetime.now()`
      reads while the i-th file is processed. */
  method ScanBlogDirectory(dir: Option<seq<HtmlFile>>, clock: nat -> DateTime) returns (posts: seq<PostInfo>)
    ensures dir.None? ==> posts == []
    ensures dir.Some? ==> posts == Posts(dir.value, clock)
  {
    if dir.None? {
      return [];
    }
    var files := dir.value;
    ghost var listed := Numbered(files);
    var found: seq<PostInfo> := [];
    for i := 0 to |files|
      invariant found == FilterMap(listed[..i], PostAt(clock))
    {
      FilterMapSnoc(listed, i, PostAt(clock));
      PickAt(files, clock, i);
      if files[i].name == TemplateName {
        continue;
      }
      var info := ExtractPostInfo(files[i].name, files[i].content, clock(i));
      if info.Some? {
        found := found + [info.value];
      }
    }
    assert listed[..|files|] == listed;
    posts := SortNewest(found);
  }

  /** The i-th file's post is what the pick makes of the i-th numbered file. */
  lemma PickAt(files: seq<HtmlFile>, clock: nat -> DateTime, i: nat)
    requires i < |files|
    ensures PostAt(clock)(Numbered(files)[i]) == PostOf(files[i], clock(i))
  {
  }

  /** The files in order give the posts found, and nothing else. */
  lemma FoundIff(files: seq<HtmlFile>, clock: nat -> DateTime, p: PostInfo)
    ensures p in Found(files, clock) <==> exists i :: 0 <= i < |files| && PostOf(files[i], clock(i)) == Some(p)
  {
    var pick := PostAt(clock);
    FilterMapIff(Numbered(files), pick, p);
    if p in Found(files, clock) {
      var i :| 0 <= i < |files| && pick(Numbered(files)[i]) == Some(p);
      PickAt(files, clock, i);
    }
    if exists i :: 0 <= i < |files| && PostOf(files[i], clock(i)) == Some(p) {
      var i :| 0 <= i < |files| && PostOf(files[i], clock(i)) == Some(p);
      PickAt(files, clock, i);
    }
  }

  /** A file's post carries the file's name, which is not the template's. */
  lemma PostOfNamed(f: HtmlFile, now: DateTime)
    requires PostOf(f, now).Some?
    ensures PostOf(f, now).value.filename == f.name != TemplateName
  {
  }

  /** A post is listed exactly when some file other than the template gives it. */
  lemma PostListed(files: seq<HtmlFile>, clock: nat -> DateTime, p: PostInfo)
    ensures p in Posts(files, clock) <==> exists i :: 0 <= i < |files| && PostOf(files[i], clock(i)) == Some(p)
    ensures p in Posts(files, clock) ==> p.filename != TemplateName
  {
    SortNewestIs(Found(files, clock));
    assert p in Posts(files, clock) <==> p in multiset(Found(files, clock));
    FoundIff(files, clock, p);
    if p in Posts(files, clock) {
      var i :| 0 <= i < |files| && PostOf(files[i], clock(i)) == Some(p);
      PostOfNamed(files[i], clock(i));
    }
  }

  /** The listing is newest first, one post per file that gives one, and posts of the same date
      in the order their files are listed. */
  lemma PostsOrdered(files: seq<HtmlFile>, clock: nat -> DateTime)
    ensures NewestFirst(Posts(files, clock))
    ensures multiset(Posts(files, clock)) == multiset(Found(files, clock))
    ensures forall d :: DatedOn(Posts(files, clock), d) == DatedOn(Found(files, clock), d)
  {
    SortNewestIs(Found(files, clock));
  }

  // ---------------------------------------------------------------- the index

  /** The values `generate_blog_index_entry` fills in: the date as `%B %Y`, the tags written
      afresh from the post's kind and number. */
  function PostEntry(p: PostInfo): IndexEntry.Entry
  {
    IndexEntry.Entry(p.filename, p.title, FormatMonthYear(p.date), EntryTags(p.kind, p.version), p.excerpt)
  }

  function EntryText(p: PostInfo): String
  {
    EntryHtml(PostEntry(p))
  }

  /** The index rebuilt from `posts`, or nothing when a marker is missing. */
  function NewIndex(content: String, posts: seq<PostInfo>): Option<String>
  {
    ReplaceSection(Open, Close, Sep, content, MapSeq(posts, EntryText))
  }

  /** The entries of `posts`, in order: the loop of `generate_blog_index`. */
  method EntryTexts(posts: seq<PostInfo>) returns (html: seq<String>)
    ensures html == MapSeq(posts, EntryText)
  {
    html := [];
    for i := 0 to |posts|
      invariant html == MapSeq(posts[..i], EntryText)
    {
      assert posts[..i + 1][..i] == posts[..i];
      html := html + [EntryText(posts[i])];
    }
    assert posts[..|posts|] == posts;
  }

  /** `generate_blog_index`: `content` is the index page as read; the result is the text written
      back, or nothing (and the page is left as it was) when a marker is missing. */
  method GenerateBlogIndex(content: String, posts: seq<PostInfo>) returns (r: Option<String>)
    ensures r == NewIndex(content, posts)
  {
    var html := EntryTexts(posts);
    r := RebuildSection(Open, Close, Sep, content, html);
  }

  /** The post's entry shows its month and year, which read back as the first of that month, and
      tags that read back as the post's kind and number. */
  lemma EntryReadsBack(p: PostInfo)
    requires p.version.Some? ==> p.kind == Release && |p.version.value| > 0 && AllDigits(p.version.value)
    ensures ParseDate(PostEntry(p).date) == Some(DateTime(p.date.year, p.date.month, 1, 0))
    ensures TagsKind(PostEntry(p).tags) == p.kind
    ensures NumberAfter(PostEntry(p).tags, VersionWord, OneSpace) == p.version
  {
    MonthYearRoundTrip(p.date);
    EntryTagsReadBack(p.kind, p.version);
  }

  // ---------------------------------------------------------------- the run

  /** What a run writes to the index for a directory listing and an index page: nothing when no
      post is found or a marker is missing. */
  function RunResult(files: seq<HtmlFile>, index: String, clock: nat -> DateTime): Option<String>
  {
    var posts := Posts(files, clock);
    if posts == [] then None else NewIndex(index, posts)
  }

  /** `run`: `dir` as for the scan, `index` the index page's text or nothing when it does not
      exist; the result is the text written to the index page, or nothing when it is not written. */
  method Run(dir: Option<seq<HtmlFile>>, index: Option<String>, clock: nat -> DateTime) returns (written: Option<String>)
    ensures dir.None? || index.None? ==> written.None?
    ensures dir.Some? && index.Some? ==> written == RunResult(dir.value, index.value, clock)
  {
    if dir.None? || index.None? {
      return None;
    }
    var posts := ScanBlogDirectory(dir, clock);
    if posts == [] {
      return None;
    }
    written := GenerateBlogIndex(index.value, posts);
  }

  /** A file whose date the clock cannot change: unreadable, or its date span parses. */
  predicate DatedFile(f: HtmlFile)
  {
    f.content.Some? ==> DateText(f.content.value).Some? && ParseDate(DateText(f.content.value).value).Some?
  }

  /** Two readings of a page differ at most in the date. */
  lemma ClockOnlyDates(name: String, c: String, now: DateTime, later: DateTime)
    requires PageDate(c, now) == PageDate(c, later)
    ensures ExtractPostInfo(name, Some(c), now) == ExtractPostInfo(name, Some(c), later)
  {
  }

  lemma DatedPost(f: HtmlFile, now: DateTime, later: DateTime)
    requires DatedFile(f)
    ensures PostOf(f, now) == PostOf(f, later)
  {
    if f.content.Some? && f.name != TemplateName {
      var c := f.content.value;
      assert PageDate(c, now) == PageDate(c, later);
      ClockOnlyDates(f.name, c, now, later);
    }
  }

  /** The clock decides only the dates of undated pages: when every page is dated, any two clocks
      give the same listing. */
  lemma PostsClockFree(files: seq<HtmlFile>, clock: nat -> DateTime, other: nat -> DateTime)
    requires forall i :: 0 <= i < |files| ==> DatedFile(files[i])
    ensures Posts(files, clock) == Posts(files, other)
  {
    var xs := Numbered(files);
    forall i | 0 <= i < |xs| ensures PostAt(clock)(xs[i]) == PostAt(other)(xs[i]) {
      PickAt(files, clock, i);
      PickAt(files, other, i);
      DatedPost(files[i], clock(i), other(i));
    }
    FilterMapAgree(xs, PostAt(clock), PostAt(other));
  }

  /** Running again over the same directory with the index the first run wrote rewrites it to
      itself, when every page is dated (or the clock reads the same) and no entry holds the
      closing tag `</section>`. */
  lemma RunTwice(files: seq<HtmlFile>, index: String, clock: nat -> DateTime, other: nat -> DateTime)
    requires forall i :: 0 <= i < |files| ==> DatedFile(files[i])
    requires RunResult(files, index, clock).Some?
    requires forall k :: 0 <= k < |Posts(files, clock)| ==> !Contains(EntryText(Posts(files, clock)[k]), Close)
    ensures RunResult(files, RunResult(files, index, clock).value, other) == RunResult(files, index, clock)
  {
    var posts := Posts(files, clock);
    PostsClockFree(files, clock, other);
    var entries := MapSeq(posts, EntryText);
    forall k | 0 <= k < |entries| ensures !Contains(entries[k], Close) {
      MapSeqAt(posts, EntryText, k);
    }
    IndexSeparable();
    ReplaceIdempotent(Open, Close, Sep, index, entries);
  }
}
