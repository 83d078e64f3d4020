/** Post titles and file names: the 60-character title cut and the URL slug every generator uses
    (`re.sub(r'[^a-zA-Z0-9\s-]', '', t)`, then `re.sub(r'\s+', '-', _)`, then `.lower()`). */
module Naming {
  import opened Text

  /** A title longer than 60 characters becomes its first 57 characters and "...". */
  function Truncate(t: String): (r: String)
    ensures |r| <= 60
    ensures |t| <= 60 <==> r == t
    ensures |t| > 60 ==> |r| == 60 && r[..57] == t[..57] && r[57..] == "..."
  {
    if |t| > 60 then t[..57] + "..." else t
  }

  /** The characters the first substitution keeps: ASCII letters and digits, whitespace and `-`. */
  predicate Kept(c: char) { IsAsciiAlnum(c) || IsSpace(c) || c == '-' }

  /** A character a slug may contain. */
  predicate SlugChar(c: char) { 'a' <= c <= 'z' || IsDigit(c) || c == '-' }

  /** `re.sub(r'[^a-zA-Z0-9\s-]', '', t)`. */
  function StripUnsafe(t: String): (r: String)
    ensures |r| <= |t|
    ensures forall i :: 0 <= i < |r| ==> Kept(r[i])
  {
    if t == [] then []
    else if Kept(t[0]) then [t[0]] + StripUnsafe(t[1..])
    else StripUnsafe(t[1..])
  }

  /** `re.sub(r'\s+', '-', s)`: every maximal run of whitespace becomes one `-`. */
  function DashRuns(s: String): (r: String)
    ensures forall i :: 0 <= i < |r| ==> !IsSpace(r[i])
    ensures forall c :: c in r ==> c == '-' || c in s
    decreases |s|
  {
    if s == [] then []
    else if IsSpace(s[0]) then
      var k := SpaceRun(s, 0);
      var r := "-" + DashRuns(s[k..]);
      assert forall c :: c in s[k..] ==> c in s;
      r
    else [s[0]] + DashRuns(s[1..])
  }

  /** The slug of a title. */
  function Slug(t: String): String
  {
    Lower(DashRuns(StripUnsafe(t)))
  }

  /** The ASCII letters and digits of a text, in order. */
  function Alnums(s: String): String
  {
    if s == [] then [] else (if IsAsciiAlnum(s[0]) then [s[0]] else []) + Alnums(s[1..])
  }

  // ---------------------------------------------------------------- what a slug is

  /** A slug holds only lower-case ASCII letters, digits and `-`, whatever the title holds. */
  lemma SlugChars(t: String)
    ensures forall i :: 0 <= i < |Slug(t)| ==> SlugChar(Slug(t)[i])
  {
    var a := StripUnsafe(t);
    var d := DashRuns(a);
    forall i | 0 <= i < |d| ensures d[i] == '-' || IsAsciiAlnum(d[i]) {
      assert d[i] in d;
      if d[i] != '-' {
        var j :| 0 <= j < |a| && a[j] == d[i];
        assert Kept(a[j]);
      }
    }
  }

  lemma {:induction false} StripUnsafeKept(t: String)
    requires forall i :: 0 <= i < |t| ==> Kept(t[i])
    ensures StripUnsafe(t) == t
  {
    if t != [] { StripUnsafeKept(t[1..]); }
  }

  lemma {:induction false} DashRunsNoSpace(s: String)
    requires forall i :: 0 <= i < |s| ==> !IsSpace(s[i])
    ensures DashRuns(s) == s
  {
    if s != [] { DashRunsNoSpace(s[1..]); }
  }

  /** Slugging a slug changes nothing. */
  lemma SlugIdempotent(t: String)
    ensures Slug(Slug(t)) == Slug(t)
  {
    var g := Slug(t);
    SlugChars(t);
    StripUnsafeKept(g);
    DashRunsNoSpace(g);
    assert Lower(g) == g;
  }

  // ---------------------------------------------------------------- the slug keeps the words

  lemma {:induction false} AlnumsSkip(s: String, k: nat)
    requires k <= |s|
    requires forall i :: 0 <= i < k ==> !IsAsciiAlnum(s[i])
    ensures Alnums(s) == Alnums(s[k..])
  {
    if k > 0 {
      AlnumsSkip(s[1..], k - 1);
      assert s[1..][k - 1..] == s[k..];
    }
  }

  lemma {:induction false} AlnumsStripUnsafe(t: String)
    ensures Alnums(StripUnsafe(t)) == Alnums(t)
  {
    if t != [] {
      AlnumsStripUnsafe(t[1..]);
      if Kept(t[0]) {
        assert ([t[0]] + StripUnsafe(t[1..]))[1..] == StripUnsafe(t[1..]);
      }
    }
  }

  lemma {:induction false} AlnumsDashRuns(s: String)
    ensures Alnums(DashRuns(s)) == Alnums(s)
    decreases |s|
  {
    if s != [] {
      if IsSpace(s[0]) {
        var k := SpaceRun(s, 0);
        AlnumsDashRuns(s[k..]);
        AlnumsSkip(s, k);
        assert ("-" + DashRuns(s[k..]))[1..] == DashRuns(s[k..]);
      } else {
        AlnumsDashRuns(s[1..]);
        assert ([s[0]] + DashRuns(s[1..]))[1..] == DashRuns(s[1..]);
      }
    }
  }

  lemma {:induction false} AlnumsLower(s: String)
    ensures Alnums(Lower(s)) == Lower(Alnums(s))
  {
    if s != [] {
      AlnumsLower(s[1..]);
      assert Lower(s)[1..] == Lower(s[1..]);
      var h: String := if IsAsciiAlnum(s[0]) then [s[0]] else [];
      LowerAppend(h, Alnums(s[1..]));
    }
  }

  /** The slug's letters and digits are exactly the title's ASCII letters and digits,
      lower-cased and in order: only punctuation and spacing change. */
  lemma SlugKeepsWords(t: String)
    ensures Alnums(Slug(t)) == Lower(Alnums(t))
  {
    AlnumsLower(DashRuns(StripUnsafe(t)));
    AlnumsDashRuns(StripUnsafe(t));
    AlnumsStripUnsafe(t);
  }

  /** `slug + ".html"`, the file name of a post built from a markdown update. */
  function HtmlName(slug: String): (r: String)
    ensures |r| == |slug| + 5 && r[..|slug|] == slug && EndsWith(r, ".html")
  {
    slug + ".html"
  }

  /** `Path(p).name`: what follows the last `/`. */
  function BaseName(p: String): (r: String)
    ensures NoChar(r, '/') && |r| <= |p| && r == p[|p| - |r|..]
    ensures |r| < |p| ==> p[|p| - |r| - 1] == '/'
  {
    if p == [] || p[|p| - 1] == '/' then []
    else BaseName(p[..|p| - 1]) + [p[|p| - 1]]
  }
}
