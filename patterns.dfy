/** Hand-written scanners, one per fixed regular expression of the generators, each following the
    order in which Python's backtracking `re` engine tries the alternatives, so that each returns
    the match `re.search` / `re.findall` would return. */
module Patterns {
  import opened Text

  // ---------------------------------------------------------------- keyword followed by a number

  /** How a keyword is separated from the number after it: `\s+` or one literal space. */
  datatype Gap = Spaces | OneSpace

  /** Where the digits start when `kw GAP (\d+)` matches at `i`. A greedy `\s+` followed by `\d`
      can only succeed with the whole whitespace run, so no other length is tried. */
  function DigitsStart(s: String, kw: String, gap: Gap, i: nat): Option<nat>
  {
    if !OccursAt(s, kw, i) then None
    else
      var a := i + |kw|;
      match gap
      case Spaces =>
        var m := SpaceRun(s, a);
        if m > 0 && a + m < |s| && IsDigit(s[a + m]) then Some(a + m) else None
      case OneSpace =>
        if a + 1 < |s| && s[a] == ' ' && IsDigit(s[a + 1]) then Some(a + 1) else None
  }

  predicate NumberAt(s: String, kw: String, gap: Gap, i: nat)
  {
    DigitsStart(s, kw, gap, i).Some?
  }

  /** The leftmost index at or after `from` where the pattern matches. */
  function FirstNumberAt(s: String, kw: String, gap: Gap, from: nat): (r: Option<nat>)
    ensures r.Some? ==> from <= r.value && NumberAt(s, kw, gap, r.value)
    ensures r.Some? ==> forall j :: from <= j < r.value ==> !NumberAt(s, kw, gap, j)
    ensures r.None? ==> forall j :: from <= j ==> !NumberAt(s, kw, gap, j)
    decreases |s| - from
  {
    if from + |kw| > |s| then None
    else if NumberAt(s, kw, gap, from) then Some(from)
    else FirstNumberAt(s, kw, gap, from + 1)
  }

  /** The captured digits of a match at `i`: the whole digit run (`\d+` is greedy). */
  function NumberGroup(s: String, kw: String, gap: Gap, i: nat): (g: String)
    requires NumberAt(s, kw, gap, i)
    ensures |g| > 0 && AllDigits(g)
  {
    var d := DigitsStart(s, kw, gap, i).value;
    s[d..d + DigitRun(s, d)]
  }

  /** `re.search(kw + r'\s+(\d+)', s)` (or with one space) and its group 1. */
  function NumberAfter(s: String, kw: String, gap: Gap): (r: Option<String>)
    ensures r.Some? ==> |r.value| > 0 && AllDigits(r.value)
    ensures r.None? <==> forall j :: !NumberAt(s, kw, gap, j)
  {
    match FirstNumberAt(s, kw, gap, 0)
    case None => None
    case Some(i) => Some(NumberGroup(s, kw, gap, i))
  }

  /** The search finds the first place where the pattern matches. */
  lemma NumberAfterAt(s: String, kw: String, gap: Gap, i: nat)
    requires NumberAt(s, kw, gap, i) && forall j :: 0 <= j < i ==> !NumberAt(s, kw, gap, j)
    ensures NumberAfter(s, kw, gap) == Some(NumberGroup(s, kw, gap, i))
  {
    var r := FirstNumberAt(s, kw, gap, 0);
    assert r.Some?;
    assert r.value == i;
  }

  // ---------------------------------------------------------------- line patterns (re.MULTILINE)

  /** `^` under `re.MULTILINE`. */
  predicate LineStart(s: String, p: nat)
  {
    p == 0 || (0 < p <= |s| && s[p - 1] == '\n')
  }

  /** There is a character at `c + k` and it is not a newline, so `.+` can start there. */
  predicate TextAt(s: String, c: nat, k: nat)
  {
    c + k < |s| && s[c + k] != '\n'
  }

  /** The backtracking of a greedy whitespace run followed by `(.+)$`: the largest `k` in `lo..top`
      such that `.+` can start at `c + k`. */
  function Backoff(s: String, c: nat, lo: nat, top: nat): (r: Option<nat>)
    ensures r.Some? ==> lo <= r.value <= top && TextAt(s, c, r.value)
    ensures r.Some? ==> forall j :: r.value < j <= top ==> !TextAt(s, c, j)
    ensures r.None? ==> forall j :: lo <= j <= top ==> !TextAt(s, c, j)
    decreases top
  {
    if top < lo then None
    else if TextAt(s, c, top) then Some(top)
    else if top == 0 then None
    else Backoff(s, c, lo, top - 1)
  }

  /** `\s{lo,}(.+)$` at `c` (`\s*` when `lo` is 0, `\s+` when it is 1): where `(.+)` starts. */
  function RestOfLine(s: String, c: nat, lo: nat): (r: Option<nat>)
    requires c <= |s|
    ensures r.Some? ==> c + lo <= r.value < |s| && s[r.value] != '\n'
    ensures r.Some? ==> forall j :: c <= j < r.value ==> IsSpace(s[j])
  {
    match Backoff(s, c, lo, SpaceRun(s, c))
    case None => None
    case Some(k) => Some(c + k)
  }

  /** The extent `s[lo..hi]` of a captured group. */
  datatype Span = Span(lo: nat, hi: nat)

  /** One match of a line pattern: where it starts and ends, and its one or two groups. */
  datatype Hit = Hit(start: nat, end: nat, first: Span, second: Span)

  /** The match and its groups lie inside the text, in order, and the groups are non-empty. */
  predicate HitIn(s: String, h: Hit)
  {
    h.start <= h.first.lo < h.first.hi <= h.end <= |s| && h.start < h.end
    && h.first.hi <= h.second.lo <= h.second.hi <= h.end
  }

  /** The text of a group. */
  function Group(s: String, g: Span): String
    requires g.lo <= g.hi <= |s|
  {
    s[g.lo..g.hi]
  }

  /** The three line-anchored patterns of the markdown extractors. */
  datatype LinePattern =
    | Heading       // ^#\s+(.+)$
    | FeatureItem   // ^\s*[-*]\s*\*\*(.+?)\*\*:\s*(.+)$
    | ListItem      // ^\s*[-*]\s*(.+)$

  predicate IsBullet(c: char) { c == '-' || c == '*' }

  /** `**` at `i`. */
  predicate StarsAt(s: String, i: nat)
  {
    i + 2 <= |s| && s[i] == '*' && s[i + 1] == '*'
  }

  /** `**:` at `i`. */
  predicate StarsColonAt(s: String, i: nat)
  {
    StarsAt(s, i) && i + 3 <= |s| && s[i + 2] == ':'
  }

  /** `\*\*:\s*(.+)$` at `i`: where the description starts. */
  function DescriptionAt(s: String, i: nat): (r: Option<nat>)
    ensures r.Some? ==> i + 3 <= r.value < |s|
  {
    if StarsColonAt(s, i) then RestOfLine(s, i + 3, 0) else None
  }

  /** The lazy `(.+?)` of a feature name starting at `ns`, trying lengths `n, n + 1, ...` up to the
      end of the line `lim`, until a description follows: the name's length and where the
      description starts. */
  function LazyName(s: String, ns: nat, n: nat, lim: nat): (r: Option<(nat, nat)>)
    requires ns <= lim
    ensures r.Some? ==> n <= r.value.0 && ns + r.value.0 <= lim
    ensures r.Some? ==> ns + r.value.0 + 3 <= r.value.1 < |s|
    decreases lim - ns - n
  {
    if ns + n > lim then None
    else match DescriptionAt(s, ns + n)
      case Some(q) => Some((n, q))
      case None => LazyName(s, ns, n + 1, lim)
  }

  /** `^#\s+(.+)$` at `p`. */
  function HeadingAt(s: String, p: nat): (r: Option<Hit>)
    requires p <= |s|
    ensures r.Some? ==> r.value.start == p && HitIn(s, r.value)
  {
    if p < |s| && s[p] == '#' then
      match RestOfLine(s, p + 1, 1)
      case None => None
      case Some(q) => var e := LineEnd(s, q); Some(Hit(p, e, Span(q, e), Span(e, e)))
    else None
  }

  /** `\s*[-*]\s*` at `p`: where the text after the bullet starts. A greedy `\s*` in front of a
      literal can only succeed with the whole whitespace run. */
  function BulletEnd(s: String, p: nat): (r: Option<nat>)
    requires p <= |s|
    ensures r.Some? ==> p < r.value <= |s|
  {
    var a := p + SpaceRun(s, p);
    if a < |s| && IsBullet(s[a]) then Some(a + 1 + SpaceRun(s, a + 1)) else None
  }

  /** `^\s*[-*]\s*(.+)$` at `p`. */
  function ListItemAt(s: String, p: nat): (r: Option<Hit>)
    requires p <= |s|
    ensures r.Some? ==> r.value.start == p && HitIn(s, r.value)
  {
    var a := p + SpaceRun(s, p);
    if a < |s| && IsBullet(s[a]) then
      match RestOfLine(s, a + 1, 0)
      case None => None
      case Some(q) => var e := LineEnd(s, q); Some(Hit(p, e, Span(q, e), Span(e, e)))
    else None
  }

  /** `\*\*(.+?)\*\*:\s*(.+)$` at `b`, for a match that started at `p`. */
  function FeatureAfterBullet(s: String, p: nat, b: nat): (r: Option<Hit>)
    requires p <= b <= |s|
    ensures r.Some? ==> r.value.start == p && HitIn(s, r.value)
  {
    if StarsAt(s, b) then
      match LazyName(s, b + 2, 1, LineEnd(s, b + 2))
      case None => None
      case Some((n, q)) => var e := LineEnd(s, q); Some(Hit(p, e, Span(b + 2, b + 2 + n), Span(q, e)))
    else None
  }

  /** `^\s*[-*]\s*\*\*(.+?)\*\*:\s*(.+)$` at `p`: the name is the shortest one, on the line, after
      which the rest matches. */
  function FeatureAt(s: String, p: nat): (r: Option<Hit>)
    requires p <= |s|
    ensures r.Some? ==> r.value.start == p && HitIn(s, r.value)
  {
    match BulletEnd(s, p)
    case None => None
    case Some(b) => FeatureAfterBullet(s, p, b)
  }

  /** The match of `pat` anchored at position `p`, if any. */
  function MatchAt(pat: LinePattern, s: String, p: nat): (r: Option<Hit>)
    requires p <= |s|
    ensures r.Some? ==> r.value.start == p && HitIn(s, r.value)
  {
    match pat
    case Heading => HeadingAt(s, p)
    case ListItem => ListItemAt(s, p)
    case FeatureItem => FeatureAt(s, p)
  }

  /** `pat` matches at `p`, a line start. */
  predicate MatchesAt(pat: LinePattern, s: String, p: nat)
  {
    p <= |s| && LineStart(s, p) && MatchAt(pat, s, p).Some?
  }

  /** A table of matches for text `s`: one entry per position `0..|s|`, each match starting at its
      own position and lying inside the text. */
  predicate TableFor(m: seq<Option<Hit>>, s: String)
  {
    |m| == |s| + 1 && forall p :: 0 <= p < |m| && m[p].Some? ==> m[p].value.start == p && HitIn(s, m[p].value)
  }

  /** The match `re` would find anchored at position `p`: none where no line starts. */
  function Entry(pat: LinePattern, s: String, p: nat): (r: Option<Hit>)
    requires p <= |s|
    ensures r.Some? ==> r.value.start == p && HitIn(s, r.value)
    ensures r.Some? <==> MatchesAt(pat, s, p)
  {
    if LineStart(s, p) then MatchAt(pat, s, p) else None
  }

  /** The entry function the table is built from; positions past the end hold no match. */
  function EntryAt(pat: LinePattern, s: String): nat -> Option<Hit>
  {
    (p: nat) => if p <= |s| then Entry(pat, s, p) else None
  }

  /** The match `re` would find anchored at each position `0..|s|`, built one position at a time. */
  function Candidates(pat: LinePattern, s: String): (m: seq<Option<Hit>>)
    ensures TableFor(m, s)
  {
    TabulateAll(EntryAt(pat, s), |s| + 1);
    Tabulate(EntryAt(pat, s), |s| + 1)
  }

  /** Each entry of the table is the anchored match at its position. */
  lemma CandidatesAt(pat: LinePattern, s: String, p: nat)
    requires p <= |s|
    ensures Candidates(pat, s)[p] == Entry(pat, s, p)
  {
    TabulateAt(EntryAt(pat, s), |s| + 1, p);
  }

  /** No match starting before `p` runs past `p`. */
  predicate Unswallowed(pat: LinePattern, s: String, p: nat)
  {
    forall q: nat :: q < p && MatchesAt(pat, s, q) ==> MatchAt(pat, s, q).value.end <= p
  }

  /** The first index at or after `from` holding a match. */
  function FirstSome(m: seq<Option<Hit>>, from: nat): (r: Option<nat>)
    ensures r.Some? ==> from <= r.value < |m| && m[r.value].Some?
    ensures r.Some? ==> forall p :: from <= p < r.value ==> m[p].None?
    ensures r.None? ==> forall p :: from <= p < |m| ==> m[p].None?
    decreases |m| - from
  {
    if from >= |m| then None
    else if m[from].Some? then Some(from)
    else FirstSome(m, from + 1)
  }

  /** `re.search(pat, s[from:])` in multi-line mode: the first line start at or after `from` where it matches. */
  function Search(pat: LinePattern, s: String, from: nat): (r: Option<Hit>)
    ensures r.Some? ==> from <= r.value.start && MatchesAt(pat, s, r.value.start)
    ensures r.Some? ==> MatchAt(pat, s, r.value.start) == r && HitIn(s, r.value)
    ensures r.Some? ==> forall p :: from <= p < r.value.start ==> !MatchesAt(pat, s, p)
    ensures r.None? ==> forall p :: from <= p ==> !MatchesAt(pat, s, p)
  {
    var m := Candidates(pat, s);
    forall p | 0 <= p <= |s|
      ensures MatchesAt(pat, s, p) <==> m[p].Some?
      ensures m[p].Some? ==> m[p] == MatchAt(pat, s, p)
    {
      CandidatesAt(pat, s, p);
    }
    match FirstSome(m, from)
    case None => None
    case Some(i) => m[i]
  }

  /** The successive matches of a table from `from` on, each search resuming where the previous
      match ended. The matches are entries of the table, lie in the text, and do not overlap. */
  function Scan(m: seq<Option<Hit>>, s: String, from: nat): (r: seq<Hit>)
    requires TableFor(m, s)
    ensures forall k :: 0 <= k < |r| ==> from <= r[k].start < |m| && m[r[k].start] == Some(r[k]) && HitIn(s, r[k])
    ensures forall k :: 0 <= k < |r| - 1 ==> r[k].end <= r[k + 1].start
    decreases |m| - from
  {
    match FirstSome(m, from)
    case None => []
    case Some(i) =>
      var h := m[i].value;
      var rest := Scan(m, s, h.end);
      assert forall k :: 1 <= k < |[h] + rest| ==> ([h] + rest)[k] == rest[k - 1];
      [h] + rest
  }

  /** `Scan` misses no entry: none lies before the first match, between two consecutive matches,
      or after the last. */
  lemma {:induction false} ScanComplete(m: seq<Option<Hit>>, s: String, from: nat)
    requires TableFor(m, s)
    ensures var r := Scan(m, s, from);
      && (forall p :: from <= p < |m| && (r == [] || p < r[0].start) ==> m[p].None?)
      && (forall k, p :: 0 <= k < |r| - 1 && r[k].end <= p < r[k + 1].start ==> m[p].None?)
      && (r != [] ==> forall p :: r[|r| - 1].end <= p < |m| ==> m[p].None?)
    decreases |m| - from
  {
    match FirstSome(m, from)
    case None =>
    case Some(i) =>
      var h := m[i].value;
      ScanComplete(m, s, h.end);
      var rest := Scan(m, s, h.end);
      assert Scan(m, s, from) == [h] + rest;
      ScanConsGaps(m, s, from, h, rest);
  }

  /** The step of `ScanComplete`: a first match followed by the matches after it leaves no gap. */
  lemma ScanConsGaps(m: seq<Option<Hit>>, s: String, from: nat, h: Hit, rest: seq<Hit>)
    requires h.start < |m| && forall k :: 0 <= k < |rest| ==> rest[k].start < |m|
    requires forall p :: from <= p < h.start ==> m[p].None?
    requires forall p :: h.end <= p < |m| && (rest == [] || p < rest[0].start) ==> m[p].None?
    requires forall k, p :: 0 <= k < |rest| - 1 && rest[k].end <= p < rest[k + 1].start ==> m[p].None?
    requires rest != [] ==> forall p :: rest[|rest| - 1].end <= p < |m| ==> m[p].None?
    ensures var r := [h] + rest;
      && (forall p :: from <= p < |m| && p < r[0].start ==> m[p].None?)
      && (forall k, p :: 0 <= k < |r| - 1 && r[k].end <= p < r[k + 1].start ==> m[p].None?)
      && (forall p :: r[|r| - 1].end <= p < |m| ==> m[p].None?)
  {
    var r := [h] + rest;
    forall k, p | 0 <= k < |r| - 1 && r[k].end <= p < r[k + 1].start
      ensures m[p].None?
    {
      if k > 0 {
        assert r[k] == rest[k - 1] && r[k + 1] == rest[k];
      }
    }
    if rest != [] {
      assert r[|r| - 1] == rest[|rest| - 1];
    }
  }

  /** `re.findall(pat, s)` in multi-line mode: the matches at line starts from left to right, each
      search resuming where the previous match ended. */
  function FindAll(pat: LinePattern, s: String): (r: seq<Hit>)
    ensures forall k :: 0 <= k < |r| ==> HitIn(s, r[k])
    ensures forall k :: 0 <= k < |r| - 1 ==> r[k].end <= r[k + 1].start
  {
    Scan(Candidates(pat, s), s, 0)
  }

  /** The group of a heading or list-item match runs to the end of its line. */
  lemma GroupToLineEnd(pat: LinePattern, s: String, p: nat)
    requires pat != FeatureItem && p <= |s| && MatchAt(pat, s, p).Some?
    ensures MatchAt(pat, s, p).value.first.hi == LineEnd(s, MatchAt(pat, s, p).value.first.lo)
  {
  }

  /** A `# title` line whose title starts with a non-space character yields the rest of the line. */
  lemma HeadingLine(s: String, p: nat)
    requires LineStart(s, p) && p + 2 < |s|
    requires s[p] == '#' && s[p + 1] == ' ' && !IsSpace(s[p + 2])
    ensures MatchesAt(Heading, s, p)
    ensures var e := LineEnd(s, p + 2); MatchAt(Heading, s, p) == Some(Hit(p, e, Span(p + 2, e), Span(e, e)))
  {
    assert SpaceRun(s, p + 2) == 0;
    assert SpaceRun(s, p + 1) == 1;
    assert TextAt(s, p + 1, 1);
  }

  /** A `##` heading is never taken for a `#` title. */
  lemma SubheadingIsNotHeading(s: String, p: nat)
    requires p + 1 < |s| && s[p] == '#' && s[p + 1] == '#'
    ensures MatchAt(Heading, s, p).None?
  {
    assert SpaceRun(s, p + 1) == 0;
  }

  /** The lazy name skips every length at which `**:` does not follow and stops at the first that
      is followed by `**:` and the rest of a line. */
  lemma {:induction false} LazyNameStops(s: String, ns: nat, n: nat, lim: nat, len: nat, q: nat)
    requires ns <= lim <= |s| && 1 <= n <= len && ns + len <= lim
    requires forall i :: ns + n <= i < ns + len ==> !StarsColonAt(s, i)
    requires DescriptionAt(s, ns + len) == Some(q)
    ensures LazyName(s, ns, n, lim) == Some((len, q))
    decreases len - n
  {
    if n < len {
      assert !StarsColonAt(s, ns + n);
      LazyNameStops(s, ns, n + 1, lim, len, q);
    }
  }

  /** `-` and one space before `**`: the text after the bullet starts at the stars. */
  lemma BulletThenStars(s: String, p: nat)
    requires p + 4 <= |s| && s[p] == '-' && s[p + 1] == ' ' && s[p + 2] == '*' && s[p + 3] == '*'
    ensures BulletEnd(s, p) == Some(p + 2) && StarsAt(s, p + 2)
  {
    assert SpaceRun(s, p + 2) == 0;
  }

  /** One space and then a non-space character at `c + 1`: the description starts there. */
  lemma DescriptionStart(s: String, c: nat)
    requires c + 1 < |s| && s[c] == ' ' && !IsSpace(s[c + 1])
    ensures RestOfLine(s, c, 0) == Some(c + 1)
  {
    assert SpaceRun(s, c + 1) == 0;
    assert SpaceRun(s, c) == 1;
    assert TextAt(s, c, 1);
  }

  /** A name of `n` characters without colon, followed by `**: ` and a description, is the one the
      lazy `(.+?)` settles on. */
  lemma NameStops(s: String, ns: nat, n: nat, lim: nat)
    requires 0 < n && ns + n + 4 < |s| && ns + n <= lim <= |s|
    requires forall i :: ns <= i < ns + n ==> s[i] != ':'
    requires s[ns + n] == '*' && s[ns + n + 1] == '*' && s[ns + n + 2] == ':' && s[ns + n + 3] == ' '
    requires !IsSpace(s[ns + n + 4])
    ensures LazyName(s, ns, 1, lim) == Some((n, ns + n + 4))
  {
    DescriptionStart(s, ns + n + 3);
    forall i | ns + 1 <= i < ns + n ensures !StarsColonAt(s, i) {
      if i + 2 < ns + n { assert s[i + 2] != ':'; }
    }
    LazyNameStops(s, ns, 1, lim, n, ns + n + 4);
  }

  /** Once the name is settled, the match is the name and the rest of the line after it. */
  lemma FeatureAfterBulletIs(s: String, p: nat, b: nat, n: nat, q: nat, lim: nat, e: nat)
    requires p <= b && StarsAt(s, b) && LineEnd(s, b + 2) == lim
    requires LazyName(s, b + 2, 1, lim) == Some((n, q)) && LineEnd(s, q) == e
    ensures FeatureAfterBullet(s, p, b) == Some(Hit(p, e, Span(b + 2, b + 2 + n), Span(q, e)))
  {
  }

  /** The feature match at `p` is what follows the bullet. */
  lemma FeatureAtIs(s: String, p: nat, b: nat, h: Hit)
    requires p <= |s| && BulletEnd(s, p) == Some(b) && FeatureAfterBullet(s, p, b) == Some(h)
    ensures FeatureAt(s, p) == Some(h)
  {
  }

  /** The feature pattern at `p`, read position by position: `- **`, a name of `n` characters
      without newline or colon, `**: `, and a description that starts with a non-space character
      and runs to the end of the line at `e`. */
  lemma FeatureAtPositions(s: String, p: nat, n: nat, e: nat)
    requires p + 8 + n < e <= |s| && n > 0
    requires s[p] == '-' && s[p + 1] == ' ' && s[p + 2] == '*' && s[p + 3] == '*'
    requires forall i :: p + 4 <= i < p + 4 + n ==> s[i] != '\n' && s[i] != ':'
    requires s[p + 4 + n] == '*' && s[p + 5 + n] == '*' && s[p + 6 + n] == ':' && s[p + 7 + n] == ' '
    requires !IsSpace(s[p + 8 + n])
    requires forall i :: p + 8 + n <= i < e ==> s[i] != '\n'
    requires e == |s| || s[e] == '\n'
    ensures FeatureAt(s, p) == Some(Hit(p, e, Span(p + 4, p + 4 + n), Span(p + 8 + n, e)))
  {
    BulletThenStars(s, p);
    var b := p + 2;
    var q := b + 2 + n + 4;
    assert Hit(p, e, Span(b + 2, b + 2 + n), Span(q, e)) == Hit(p, e, Span(p + 4, p + 4 + n), Span(p + 8 + n, e));
    LineEndIs(s, b + 2, e);
    LineEndIs(s, q, e);
    NameStops(s, b + 2, n, e);
    FeatureAfterBulletIs(s, p, b, n, q, e, e);
    FeatureAtIs(s, p, b, Hit(p, e, Span(b + 2, b + 2 + n), Span(q, e)));
  }

  // ---------------------------------------------------------------- the "changes" section

  /** `w` (lower case) occurs at `i` when case is ignored (ASCII). */
  predicate OccursAtNoCase(s: String, w: String, i: nat)
  {
    i + |w| <= |s| && Lower(s[i..i + |w|]) == w
  }

  /** An optional `s` (either case) at `g`, taken when present. */
  function OptionalS(s: String, g: nat): (r: nat)
    requires g <= |s|
    ensures g <= r <= |s|
  {
    if g < |s| && LowerChar(s[g]) == 's' then g + 1 else g
  }

  /** `##\s+Changes?|##\s+What's New|##\s+Updates?` at `i`, case ignored: where the text after it starts. */
  function ChangesHeadAt(s: String, i: nat): (r: Option<nat>)
    ensures r.Some? ==> i + 2 < r.value <= |s|
  {
    if !OccursAt(s, "##", i) then None
    else
      var m := SpaceRun(s, i + 2);
      var k := i + 2 + m;
      if m == 0 then None
      else if OccursAtNoCase(s, "change", k) then Some(OptionalS(s, k + 6))
      else if OccursAtNoCase(s, "what's new", k) then Some(k + 10)
      else if OccursAtNoCase(s, "update", k) then Some(OptionalS(s, k + 6))
      else None
  }

  /** The leftmost heading of a changes section at or after `from`. */
  function FirstChangesHead(s: String, from: nat): (r: Option<(nat, nat)>)
    ensures r.Some? ==> from <= r.value.0 && ChangesHeadAt(s, r.value.0) == Some(r.value.1)
    ensures r.Some? ==> forall j :: from <= j < r.value.0 ==> ChangesHeadAt(s, j).None?
    ensures r.None? ==> forall j :: from <= j ==> ChangesHeadAt(s, j).None?
    decreases |s| - from
  {
    if from + 2 > |s| then None
    else match ChangesHeadAt(s, from)
      case Some(g) => Some((from, g))
      case None => FirstChangesHead(s, from + 1)
  }

  /** A changes heading at `i`, its text starting at `g`, and none earlier. */
  predicate FirstChangesHeadAt(s: String, i: nat, g: nat)
  {
    ChangesHeadAt(s, i) == Some(g) && forall j: nat :: j < i ==> ChangesHeadAt(s, j).None?
  }

  /** `(.*?)(?=##|\Z)` from `g` stops at `e`: the first `##` at or after `g`, else the end. */
  predicate SectionEnd(s: String, g: nat, e: nat)
  {
    g <= e <= |s| && (e == |s| || OccursAt(s, "##", e)) && forall j :: g <= j < e ==> !OccursAt(s, "##", j)
  }

  /** `re.search(r"(?:##\s+Changes?|##\s+What's New|##\s+Updates?)(.*?)(?=##|\Z)", s, DOTALL | IGNORECASE)`
      and its group 1: from the end of the first such heading up to the next `##`, or to the end
      (`ChangesSection` says which text that is). */
  function ChangesText(s: String): (r: Option<String>)
    ensures r.None? <==> forall j :: ChangesHeadAt(s, j).None?
    ensures r.Some? ==> !Contains(r.value, "##")
  {
    match FirstChangesHead(s, 0)
    case None => None
    case Some((i, g)) =>
      var e := SectionStop(s, g);
      NotContainsSlice(s, "##", g, e);
      Some(s[g..e])
  }

  /** Where the lazy group from `g` stops. */
  function SectionStop(s: String, g: nat): (e: nat)
    requires g <= |s|
    ensures SectionEnd(s, g, e)
  {
    match FindFrom(s, "##", g) case None => |s| case Some(e) => e
  }

  /** The section is the text from the first changes heading's end `g` up to the next `##` at or
      after `g`, or up to the end. */
  lemma ChangesSection(s: String, i: nat, g: nat) returns (e: nat)
    requires FirstChangesHeadAt(s, i, g)
    ensures SectionEnd(s, g, e) && ChangesText(s) == Some(s[g..e])
  {
    var m := FirstChangesHead(s, 0);
    assert ChangesHeadAt(s, i).Some?;
    assert m.Some?;
    FirstChangesHeadOnly(s, i, g);
    assert FirstChangesHeadAt(s, m.value.0, m.value.1);
    e := SectionStop(s, g);
  }

  /** There is only one first changes heading. */
  lemma FirstChangesHeadOnly(s: String, i: nat, g: nat)
    requires FirstChangesHeadAt(s, i, g)
    ensures forall i': nat, g': nat :: FirstChangesHeadAt(s, i', g') ==> i' == i && g' == g
  {
  }

  // ---------------------------------------------------------------- HTML elements

  /** `re.search(open + r'(.*?)' + close, s)`, with `open + r'[^>]*>'` when `attrs`, and with
      `re.DOTALL` when `dotAll`. */
  datatype ElementPattern = ElementPattern(open: String, attrs: bool, close: String, dotAll: bool)

  /** The group of a match whose opening is at `o` starts at `c`: right after the opening, or,
      with `attrs`, right after the first `>` that follows it (`[^>]*` cannot pass a `>`). */
  predicate GroupStartAt(s: String, pat: ElementPattern, o: nat, c: nat)
  {
    if !pat.attrs then c == o + |pat.open|
    else (o + |pat.open| < c && OccursAt(s, ">", c - 1)
          && forall j :: o + |pat.open| <= j < c - 1 ==> !OccursAt(s, ">", j))
  }

  /** The lazy `(.*?)` from `c` stops at `k`: the first `close` at or after `c`, with no newline
      before it unless DOTALL. */
  predicate CloseAt(s: String, pat: ElementPattern, c: nat, k: nat)
  {
    && c <= k && OccursAt(s, pat.close, k)
    && (forall j :: c <= j < k ==> !OccursAt(s, pat.close, j))
    && (!pat.dotAll ==> forall j :: c <= j < k ==> s[j] != '\n')
  }

  /** The pattern matches at `o`, its group being `s[c..k]`. */
  predicate ElementAt(s: String, pat: ElementPattern, o: nat, c: nat, k: nat)
  {
    OccursAt(s, pat.open, o) && GroupStartAt(s, pat, o, c) && CloseAt(s, pat, c, k)
  }

  /** The match at `o` is the leftmost one, the one `re.search` returns. */
  ghost predicate FirstElementAt(s: String, pat: ElementPattern, o: nat, c: nat, k: nat)
  {
    ElementAt(s, pat, o, c, k) && forall o': nat, c': nat, k': nat :: o' < o ==> !ElementAt(s, pat, o', c', k')
  }

  /** The lazy `(.*?)` followed by `close`, from `k`: the first place where `close` occurs, unless
      (without DOTALL) a newline comes first, or the text ends. */
  function LazyClose(s: String, pat: ElementPattern, k: nat): (r: Option<nat>)
    requires |pat.close| > 0
    ensures r.Some? ==> CloseAt(s, pat, k, r.value)
    ensures r.None? ==> forall e: nat :: !CloseAt(s, pat, k, e)
    decreases |s| - k
  {
    if OccursAt(s, pat.close, k) then Some(k)
    else if k >= |s| || (!pat.dotAll && s[k] == '\n') then None
    else
      var r := LazyClose(s, pat, k + 1);
      CloseFrom(s, pat, k, k + 1, r);
      r
  }

  /** The step of `LazyClose`: without `close` at `k` and with text there, stopping from `k` is
      stopping from `k + 1`. */
  lemma CloseFrom(s: String, pat: ElementPattern, k: nat, k1: nat, r: Option<nat>)
    requires k < |s| && k1 == k + 1 && !OccursAt(s, pat.close, k) && (!pat.dotAll ==> s[k] != '\n')
    requires r.Some? ==> CloseAt(s, pat, k1, r.value)
    requires r.None? ==> forall e: nat :: !CloseAt(s, pat, k1, e)
    ensures r.Some? ==> CloseAt(s, pat, k, r.value)
    ensures r.None? ==> forall e: nat :: !CloseAt(s, pat, k, e)
  {
    forall e: nat ensures CloseAt(s, pat, k, e) ==> CloseAt(s, pat, k1, e) {
      if k < e { }
    }
  }

  /** Where the captured text starts after an opening found at `o`. */
  function ContentStart(s: String, pat: ElementPattern, o: nat): (r: Option<nat>)
    ensures r.Some? ==> GroupStartAt(s, pat, o, r.value)
    ensures r.None? ==> forall c: nat :: !GroupStartAt(s, pat, o, c)
  {
    if !pat.attrs then Some(o + |pat.open|)
    else match FindFrom(s, ">", o + |pat.open|)
      case None => None
      case Some(j) => Some(j + 1)
  }

  /** An opening has one group start, and the group one end. */
  lemma ElementParts(s: String, pat: ElementPattern, o: nat, c: nat, k: nat)
    requires ElementAt(s, pat, o, c, k)
    ensures forall c': nat, k': nat :: ElementAt(s, pat, o, c', k') ==> c' == c && k' == k
  {
    forall c': nat, k': nat | ElementAt(s, pat, o, c', k') ensures c' == c && k' == k {
      if pat.attrs {
        assert !(c' - 1 < c - 1) && !(c - 1 < c' - 1);
      }
      assert !(k' < k) && !(k < k');
    }
  }

  /** The match whose opening is at `o`, if there is one: its group's start and end. */
  function ElementHere(s: String, pat: ElementPattern, o: nat): (r: Option<(nat, nat)>)
    requires |pat.close| > 0 && OccursAt(s, pat.open, o)
    ensures r.Some? ==> ElementAt(s, pat, o, r.value.0, r.value.1)
    ensures r.None? ==> forall c: nat, k: nat :: !ElementAt(s, pat, o, c, k)
  {
    match ContentStart(s, pat, o)
    case None => None
    case Some(c) =>
      match LazyClose(s, pat, c)
      case None => NoElementAt(s, pat, o, c); None
      case Some(k) => Some((c, k))
  }

  /** With its group start `c` and no end for it, nothing matches at `o`. */
  lemma NoElementAt(s: String, pat: ElementPattern, o: nat, c: nat)
    requires GroupStartAt(s, pat, o, c) && forall e: nat :: !CloseAt(s, pat, c, e)
    ensures forall c': nat, k: nat :: !ElementAt(s, pat, o, c', k)
  {
    forall c': nat, k: nat ensures !ElementAt(s, pat, o, c', k) {
      if pat.attrs && GroupStartAt(s, pat, o, c') {
        assert !(c' - 1 < c - 1) && !(c - 1 < c' - 1);
      }
    }
  }

  /** The leftmost match at or after `from`: where its opening is and where its group starts and
      ends, trying the occurrences of `open` left to right. */
  function FirstElement(s: String, pat: ElementPattern, from: nat): (r: Option<(nat, nat, nat)>)
    requires |pat.close| > 0
    ensures r.Some? ==> from <= r.value.0 && ElementAt(s, pat, r.value.0, r.value.1, r.value.2)
    ensures r.Some? ==> forall o: nat, c: nat, k: nat :: from <= o < r.value.0 ==> !ElementAt(s, pat, o, c, k)
    ensures r.None? ==> forall o: nat, c: nat, k: nat :: from <= o ==> !ElementAt(s, pat, o, c, k)
    decreases |s| - from
  {
    match FindFrom(s, pat.open, from)
    case None => None
    case Some(o) =>
      var here := ElementHere(s, pat, o);
      if here.Some? then
        Some((o, here.value.0, here.value.1))
      else
        var next := if o < |s| then FirstElement(s, pat, o + 1) else None;
        SkipElement(s, pat, from, o, o + 1, next);
        next
  }

  /** The step of `FirstElement`: when nothing matches at the first opening `o` from `from`, the
      search from `from` is the search from `o + 1`. */
  lemma SkipElement(s: String, pat: ElementPattern, from: nat, o: nat, o1: nat, next: Option<(nat, nat, nat)>)
    requires FindFrom(s, pat.open, from) == Some(o) && o1 == o + 1
    requires forall c: nat, k: nat :: !ElementAt(s, pat, o, c, k)
    requires next.Some? ==> o1 <= next.value.0 && ElementAt(s, pat, next.value.0, next.value.1, next.value.2)
    requires next.Some? ==> forall o': nat, c: nat, k: nat :: o1 <= o' < next.value.0 ==> !ElementAt(s, pat, o', c, k)
    requires next.None? && o < |s| ==> forall o': nat, c: nat, k: nat :: o1 <= o' ==> !ElementAt(s, pat, o', c, k)
    ensures next.Some? ==> from <= next.value.0
    ensures next.Some? ==> forall o': nat, c: nat, k: nat :: from <= o' < next.value.0 ==> !ElementAt(s, pat, o', c, k)
    ensures next.None? ==> forall o': nat, c: nat, k: nat :: from <= o' ==> !ElementAt(s, pat, o', c, k)
  {
    forall o': nat, c: nat, k: nat | from <= o' && (next.Some? ==> o' < next.value.0)
      ensures !ElementAt(s, pat, o', c, k)
    {
      if o' < o {
        assert !OccursAt(s, pat.open, o');
      } else if o < o' && o >= |s| {
        assert !OccursAt(s, pat.open, o');
      }
    }
  }

  /** The group of the leftmost match of `pat` in `s`: `None` exactly when nothing matches. */
  function Element(s: String, pat: ElementPattern): (r: Option<String>)
    requires |pat.close| > 0
    ensures r.None? <==> forall o: nat, c: nat, k: nat :: !ElementAt(s, pat, o, c, k)
    ensures forall o: nat, c: nat, k: nat :: FirstElementAt(s, pat, o, c, k) ==> c <= k <= |s| && r == Some(s[c..k])
    ensures r.Some? ==> !Contains(r.value, pat.close)
    ensures r.Some? && !pat.dotAll ==> NoChar(r.value, '\n')
  {
    match FirstElement(s, pat, 0)
    case None => None
    case Some((o, c, k)) =>
      FirstElementOnly(s, pat, o, c, k);
      NotContainsSlice(s, pat.close, c, k);
      var g := s[c..k];
      assert !pat.dotAll ==> forall j :: 0 <= j < |g| ==> g[j] == s[c + j];
      Some(g)
  }

  /** There is only one leftmost match. */
  lemma FirstElementOnly(s: String, pat: ElementPattern, o: nat, c: nat, k: nat)
    requires ElementAt(s, pat, o, c, k) && forall o': nat, c': nat, k': nat :: o' < o ==> !ElementAt(s, pat, o', c', k')
    ensures forall o': nat, c': nat, k': nat :: FirstElementAt(s, pat, o', c', k') ==> o' == o && c' == c && k' == k
  {
    ElementParts(s, pat, o, c, k);
  }

  /** When the element is found, it is the group of a leftmost match. */
  lemma ElementFound(s: String, pat: ElementPattern) returns (o: nat, c: nat, k: nat)
    requires |pat.close| > 0 && Element(s, pat).Some?
    ensures FirstElementAt(s, pat, o, c, k) && c <= k <= |s| && Element(s, pat) == Some(s[c..k])
  {
    var m := FirstElement(s, pat, 0).value;
    o, c, k := m.0, m.1, m.2;
  }
}

/** Facts about `FindAll` that callers use without unfolding the scanners. */
module PatternFacts {
  import opened Text
  import opened Patterns

  lemma LastStartAtOrBefore(r: seq<Hit>, p: nat) returns (k: nat)
    requires r != [] && r[0].start <= p
    ensures k < |r| && r[k].start <= p && (k + 1 == |r| || p < r[k + 1].start)
  {
    k := 0;
    while k + 1 < |r| && r[k + 1].start <= p
      invariant k < |r| && r[k].start <= p
      decreases |r| - k
    {
      k := k + 1;
    }
  }

  /** Every hit `FindAll` reports is the match of the pattern at that line start. */
  lemma FindAllSound(pat: LinePattern, s: String, k: nat)
    requires k < |FindAll(pat, s)|
    ensures MatchesAt(pat, s, FindAll(pat, s)[k].start)
    ensures MatchAt(pat, s, FindAll(pat, s)[k].start) == Some(FindAll(pat, s)[k])
  {
    CandidatesAt(pat, s, FindAll(pat, s)[k].start);
  }

  /** No match starts before the first one `FindAll` reports. */
  lemma FindAllNoneBefore(pat: LinePattern, s: String, p: nat)
    requires FindAll(pat, s) == [] || p < FindAll(pat, s)[0].start
    ensures !MatchesAt(pat, s, p)
  {
    var m := Candidates(pat, s);
    ScanComplete(m, s, 0);
    if p <= |s| {
      CandidatesAt(pat, s, p);
      assert m[p].None?;
    }
  }

  /** No match starts between the end of a reported match and the start of the next. */
  lemma FindAllNoneAfter(pat: LinePattern, s: String, p: nat, k: nat)
    requires k < |FindAll(pat, s)| && FindAll(pat, s)[k].end <= p
    requires k + 1 == |FindAll(pat, s)| || p < FindAll(pat, s)[k + 1].start
    ensures !MatchesAt(pat, s, p)
  {
    var m := Candidates(pat, s);
    var r := FindAll(pat, s);
    ScanComplete(m, s, 0);
    if p <= |s| {
      if k + 1 < |r| {
        assert r[k].end <= p < r[k + 1].start;
      }
      CandidatesAt(pat, s, p);
      assert m[p].None?;
    }
  }

  /** `findall` reports every match that no earlier match runs past: a match at `p` is among the
      results unless a match starting before `p` (one that is itself reported) swallows it. */
  lemma FindAllReports(pat: LinePattern, s: String, p: nat) returns (k: nat)
    requires MatchesAt(pat, s, p) && Unswallowed(pat, s, p)
    ensures k < |FindAll(pat, s)| && FindAll(pat, s)[k].start == p
    ensures MatchAt(pat, s, p) == Some(FindAll(pat, s)[k])
  {
    var r := FindAll(pat, s);
    if r == [] || p < r[0].start {
      FindAllNoneBefore(pat, s, p);
    } else {
      k := LastStartAtOrBefore(r, p);
      FindAllSound(pat, s, k);
      if r[k].start < p {
        FindAllNoneAfter(pat, s, p, k);
      }
    }
  }

  /** Consecutive matches that do not overlap make every later match start after every earlier
      one ends. */
  lemma {:induction false} ChainOrdered(r: seq<Hit>, j: nat, k: nat)
    requires forall i :: 0 <= i < |r| - 1 ==> r[i].end <= r[i + 1].start
    requires forall i :: 0 <= i < |r| ==> r[i].start < r[i].end
    requires j < k < |r|
    ensures r[j].end <= r[k].start
    decreases k - j
  {
    if j + 1 < k {
      ChainOrdered(r, j + 1, k);
    }
  }

  /** Matches reported by `FindAll` come in text order without overlapping, each at a line start. */
  lemma FindAllOrdered(pat: LinePattern, s: String, j: nat, k: nat)
    requires j < k < |FindAll(pat, s)|
    ensures FindAll(pat, s)[j].end <= FindAll(pat, s)[k].start
    ensures LineStart(s, FindAll(pat, s)[k].start)
  {
    FindAllSound(pat, s, k);
    ChainOrdered(FindAll(pat, s), j, k);
  }
}
