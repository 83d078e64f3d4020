/** The two ways the generators rewrite the blog index page: the commit and markdown generators
    insert new entries right after the opening marker of the posts section (`update_blog_index`
    of advanced-blog-generator.py and blog-generator.py); the dynamic index replaces the whole
    section through its first closing tag (`generate_blog_index` of dynamic-blog-index.py). */
module Splice {
  import opened Text

  /** The markers of the posts section on the index page, and the separator written before, between
      and after the entries; every splice below takes them as its first parameters. */
  const Open: String := "<section class=\"blog-posts\">"
  const Close: String := "</section>"
  const Sep: String := "\n        "

  /** What the proofs need of a layout: a closing tag can neither start inside the opening marker
      nor occur across either end of the separator. */
  predicate Separable(open: String, close: String, sep: String)
  {
    && |open| >= 2 && |close| >= 2 && |sep| > 0
    && close[1] != open[1]
    && (forall t :: 1 <= t < |open| ==> open[t] != close[0])
    && NoChar(open, close[1])
    && NoChar(close, sep[0]) && NoChar(close, sep[|sep| - 1]) && NoChar(sep, close[0])
  }

  lemma IndexSeparable()
    ensures Separable(Open, Close, Sep)
  {
  }

  /** Where the posts section starts, and where its first closing tag at or after that starts. */
  datatype Section = Section(start: nat, end: nat)

  /** `content.find(open)`, then `content.find(close, posts_start)`; nothing when either is -1. */
  function FindSection(open: String, close: String, sep: String, content: String): (r: Option<Section>)
    ensures r.Some? ==> var sec := r.value;
      && OccursAt(content, open, sec.start) && (forall j :: 0 <= j < sec.start ==> !OccursAt(content, open, j))
      && sec.start <= sec.end && OccursAt(content, close, sec.end)
      && (forall j :: sec.start <= j < sec.end ==> !OccursAt(content, close, j))
    ensures r.None? ==> forall ps: nat :: OccursAt(content, open, ps) && (forall j :: 0 <= j < ps ==> !OccursAt(content, open, j))
                          ==> forall j :: ps <= j ==> !OccursAt(content, close, j)
  {
    match FindFrom(content, open, 0)
    case None => None
    case Some(ps) =>
      match FindFrom(content, close, ps)
      case None => None
      case Some(pe) => Some(Section(ps, pe))
  }

  /** The entries as written into the index: each after the separator, and the separator once more. */
  function Block(open: String, close: String, sep: String, entries: seq<String>): String
  {
    sep + JoinWith(sep, entries) + sep
  }

  /** An occurrence entirely inside a prefix that two texts share is one in both. */
  lemma OccursInCommonPrefix(a: String, b: String, w: String, m: nat, j: nat)
    requires m <= |a| && m <= |b| && a[..m] == b[..m] && j + |w| <= m
    ensures OccursAt(a, w, j) <==> OccursAt(b, w, j)
  {
    assert a[j..j + |w|] == a[..m][j..j + |w|];
    assert b[j..j + |w|] == b[..m][j..j + |w|];
  }

  /** An occurrence in the kept tail moves by the length of what was inserted before it. */
  lemma OccursInShiftedTail(a: String, b: String, w: String, m: nat, d: nat, j: nat)
    requires m <= |a| && m + d <= |b| && b[m + d..] == a[m..] && m <= j
    ensures OccursAt(a, w, j) <==> OccursAt(b, w, j + d)
  {
    assert |b| == |a| + d;
    if j + |w| <= |a| {
      var sb, sa := b[j + d..j + d + |w|], a[j..j + |w|];
      forall k | 0 <= k < |w| ensures sb[k] == sa[k] {
        assert b[m + d..][j - m + k] == b[j + d + k];
        assert a[m..][j - m + k] == a[j + k];
      }
      assert sb == sa;
    }
  }

  /** No closing tag starts inside the opening marker, so the first closing tag after the marker's
      start is at or after the marker's end. */
  lemma CloseAfterOpen(open: String, close: String, sep: String, content: String)
    requires Separable(open, close, sep) && FindSection(open, close, sep, content).Some?
    ensures FindSection(open, close, sep, content).value.start + |open| <= FindSection(open, close, sep, content).value.end
  {
    var sec := FindSection(open, close, sep, content).value;
    forall j | sec.start <= j < sec.start + |open| ensures !OccursAt(content, close, j) {
      NoCloseInOpen(open, close, sep, content, sec.start, j);
    }
  }

  /** No closing tag starts at any position of an opening marker. */
  lemma NoCloseInOpen(open: String, close: String, sep: String, content: String, ps: nat, j: nat)
    requires Separable(open, close, sep) && OccursAt(content, open, ps) && ps <= j < ps + |open|
    ensures !OccursAt(content, close, j)
  {
    if j == ps {
      OccursChar(content, open, ps, 1);
      NotOccursByChar(content, close, j, 1);
    } else {
      OccursChar(content, open, ps, j - ps);
      NotOccursByChar(content, close, j, 0);
    }
  }

  /** A text that keeps the prefix through the first occurrence of a word has its first
      occurrence of the word at the same place. */
  lemma FirstKept(content: String, r: String, w: String, ps: nat)
    requires OccursAt(content, w, ps) && forall j :: 0 <= j < ps ==> !OccursAt(content, w, j)
    requires ps + |w| <= |r| && r[..ps + |w|] == content[..ps + |w|]
    ensures FindFrom(r, w, 0) == Some(ps)
  {
    forall j | 0 <= j <= ps ensures OccursAt(r, w, j) <==> OccursAt(content, w, j) {
      OccursInCommonPrefix(r, content, w, ps + |w|, j);
    }
    FindFromIs(r, w, 0, ps);
  }

  /** A text that keeps the prefix through the first opening marker has its first opening marker
      at the same place. */
  lemma FirstOpenKept(open: String, close: String, sep: String, content: String, r: String)
    requires FindSection(open, close, sep, content).Some?
    requires var m := FindSection(open, close, sep, content).value.start + |open|; m <= |r| && r[..m] == content[..m]
    ensures FindFrom(r, open, 0) == Some(FindSection(open, close, sep, content).value.start)
  {
    FirstKept(content, r, open, FindSection(open, close, sep, content).value.start);
  }

  // ---------------------------------------------------------------- inserting at the top

  /** `update_blog_index` of the commit and markdown generators: the new text, or nothing (and the
      file is not written) when a marker is missing. Everything up to the end of the opening marker
      and everything after it is kept, with the entries' block between the two. */
  function Prepend(open: String, close: String, sep: String, content: String, entries: seq<String>): (r: Option<String>)
    ensures r.None? <==> FindSection(open, close, sep, content).None?
    ensures r.Some? ==> var m := FindSection(open, close, sep, content).value.start + |open|; var b := Block(open, close, sep, entries);
      && m <= |content| && |r.value| == |content| + |b|
      && r.value[..m] == content[..m]
      && r.value[m..m + |b|] == b
      && r.value[m + |b|..] == content[m..]
  {
    match FindSection(open, close, sep, content)
    case None => None
    case Some(sec) =>
      var m := sec.start + |open|;
      var b := Block(open, close, sep, entries);
      var r := content[..m] + b + content[m..];
      assert r[..m] == content[..m] && r[m..m + |b|] == b && r[m + |b|..] == content[m..];
      Some(r)
  }

  /** The text `update_blog_index` writes: the page up to the end of the opening marker, the
      separator, the entries joined by it, the separator again, and the rest of the page. */
  method InsertAtTop(open: String, close: String, sep: String, content: String, entries: seq<String>)
    returns (r: Option<String>)
    ensures r == Prepend(open, close, sep, content, entries)
  {
    var start := FindFrom(content, open, 0);
    if start.None? {
      return None;
    }
    var end := FindFrom(content, close, start.value);
    if end.None? {
      return None;
    }
    var m := start.value + |open|;
    var text := content[..m];
    text := text + sep;
    text := text + JoinWith(sep, entries);
    text := text + sep;
    text := text + content[m..];
    PrependIs(open, close, sep, content, entries);
    assert text == content[..m] + Block(open, close, sep, entries) + content[m..];
    r := Some(text);
  }

  /** The inserted text, as one concatenation. */
  lemma PrependIs(open: String, close: String, sep: String, content: String, entries: seq<String>)
    requires FindSection(open, close, sep, content).Some?
    ensures var m := FindSection(open, close, sep, content).value.start + |open|;
      Prepend(open, close, sep, content, entries) == Some(content[..m] + Block(open, close, sep, entries) + content[m..])
  {
    var m := FindSection(open, close, sep, content).value.start + |open|;
    var r := Prepend(open, close, sep, content, entries).value;
    assert r == r[..m] + r[m..m + |Block(open, close, sep, entries)|] + r[m + |Block(open, close, sep, entries)|..];
  }

  /** After an insertion the opening marker is found where it was, and a closing tag still follows. */
  lemma PrependKeepsSection(open: String, close: String, sep: String, content: String, entries: seq<String>)
    requires Separable(open, close, sep) && FindSection(open, close, sep, content).Some?
    ensures FindSection(open, close, sep, Prepend(open, close, sep, content, entries).value).Some?
    ensures FindSection(open, close, sep, Prepend(open, close, sep, content, entries).value).value.start == FindSection(open, close, sep, content).value.start
  {
    var sec := FindSection(open, close, sep, content).value;
    var r := Prepend(open, close, sep, content, entries).value;
    CloseAfterOpen(open, close, sep, content);
    FirstOpenKept(open, close, sep, content, r);
    OccursInShiftedTail(content, r, close, sec.start + |open|, |Block(open, close, sep, entries)|, sec.end);
    assert FindFrom(r, close, sec.start).Some?;
  }

  /** Two insertions in a row put the later entries above the earlier ones, both above the old
      posts: the newest are always at the top. */
  lemma PrependTwice(open: String, close: String, sep: String, content: String, older: seq<String>, newer: seq<String>)
    requires Separable(open, close, sep) && FindSection(open, close, sep, content).Some?
    ensures var m := FindSection(open, close, sep, content).value.start + |open|;
      Prepend(open, close, sep, Prepend(open, close, sep, content, older).value, newer) ==
        Some(content[..m] + Block(open, close, sep, newer) + Block(open, close, sep, older) + content[m..])
  {
    var m := FindSection(open, close, sep, content).value.start + |open|;
    PrependIs(open, close, sep, content, older);
    var once := Prepend(open, close, sep, content, older).value;
    PrependKeepsSection(open, close, sep, content, older);
    PrependIs(open, close, sep, once, newer);
    var bo, bn := Block(open, close, sep, older), Block(open, close, sep, newer);
    var pre, post := content[..m], content[m..];
    assert once == pre + (bo + post);
    assert once[..m] == pre && once[m..] == bo + post;
    assert pre + bn + (bo + post) == pre + bn + bo + post;
  }

  // ---------------------------------------------------------------- replacing the section

  /** `generate_blog_index` of the dynamic index: the new text, or nothing (and the file is not
      written) when a marker is missing. The text before the opening marker and after the first
      closing tag that follows it is kept; the section between them becomes the entries' block. */
  function ReplaceSection(open: String, close: String, sep: String, content: String, entries: seq<String>): (r: Option<String>)
    ensures r.Some? <==> FindSection(open, close, sep, content).Some?
    ensures r.Some? ==> var sec := FindSection(open, close, sep, content).value;
      SplicedAt(content, r.value, sec.start, sec.end + |close|, open + Block(open, close, sep, entries) + close)
  {
    match FindSection(open, close, sep, content)
    case None => None
    case Some(sec) =>
      var pre, mid, post := content[..sec.start], open + Block(open, close, sep, entries) + close, content[sec.end + |close|..];
      var r := pre + mid + post;
      assert r[..|pre|] == pre && r[|pre|..|pre| + |mid|] == mid && r[|pre| + |mid|..] == post;
      Some(r)
  }

  /** `r` is `content` with the span from `start` up to `after` replaced by `mid`. */
  predicate SplicedAt(content: String, r: String, start: nat, after: nat, mid: String)
  {
    && start <= after <= |content| && |r| == start + |mid| + (|content| - after)
    && r[..start] == content[..start]
    && r[start..start + |mid|] == mid
    && r[start + |mid|..] == content[after..]
  }

  /** The rebuilt text, as one concatenation. */
  lemma ReplaceIs(open: String, close: String, sep: String, content: String, entries: seq<String>)
    requires FindSection(open, close, sep, content).Some?
    ensures var sec := FindSection(open, close, sep, content).value;
      sec.end + |close| <= |content| &&
      ReplaceSection(open, close, sep, content, entries).value ==
        content[..sec.start] + (open + Block(open, close, sep, entries) + close) + content[sec.end + |close|..]
  {
  }

  /** The text `generate_blog_index` writes: the page before the opening marker, the marker and
      the separator, the entries joined by it, the separator and the closing tag, and the page
      after the first closing tag that follows the marker. */
  method RebuildSection(open: String, close: String, sep: String, content: String, entries: seq<String>)
    returns (r: Option<String>)
    ensures r == ReplaceSection(open, close, sep, content, entries)
  {
    var start := FindFrom(content, open, 0);
    if start.None? {
      return None;
    }
    var end := FindFrom(content, close, start.value);
    if end.None? {
      return None;
    }
    var pre := content[..start.value];
    var j := JoinWith(sep, entries);
    var text := pre;
    text := text + open + sep;
    text := text + j;
    text := text + sep + close;
    assert text == pre + (open + Block(open, close, sep, entries) + close);
    var post := content[end.value + |close|..];
    text := text + post;
    ReplaceIs(open, close, sep, content, entries);
    r := Some(text);
  }

  /** Joining entries free of the closing tag with the separator gives a text free of it. */
  lemma {:induction false} JoinNoClose(open: String, close: String, sep: String, entries: seq<String>)
    requires Separable(open, close, sep)
    requires forall k :: 0 <= k < |entries| ==> !Contains(entries[k], close)
    ensures !Contains(JoinWith(sep, entries), close)
  {
    if |entries| == 0 {
      NotContainsByChar([], close, 0);
    } else if |entries| > 1 {
      JoinNoClose(open, close, sep, entries[1..]);
      NotContainsByChar(sep, close, 0);
      NotContainsConcat(entries[0], sep, close);
      NotContainsConcat(entries[0] + sep, JoinWith(sep, entries[1..]), close);
    }
  }

  /** The opening marker followed by a block of such entries holds no closing tag and ends with
      the separator's last character. */
  lemma SectionNoClose(open: String, close: String, sep: String, entries: seq<String>)
    requires Separable(open, close, sep)
    requires forall k :: 0 <= k < |entries| ==> !Contains(entries[k], close)
    ensures !Contains(open + Block(open, close, sep, entries), close)
    ensures var x := open + Block(open, close, sep, entries); x != [] && x[|x| - 1] == sep[|sep| - 1] && NoChar(close, x[|x| - 1])
  {
    var j := JoinWith(sep, entries);
    JoinNoClose(open, close, sep, entries);
    NotContainsByChar(open, close, 1);
    NotContainsByChar(sep, close, 0);
    NotContainsConcat(open, sep, close);
    NotContainsConcat(open + sep, j, close);
    NotContainsConcat(open + sep + j, sep, close);
    assert open + Block(open, close, sep, entries) == open + sep + j + sep;
  }

  /** In `x + close + rest`, where `x` holds no closing tag and ends in a character the tag does
      not have, the first closing tag at or after any position inside `x` is the one after `x`. */
  lemma FirstCloseAfter(x: String, close: String, rest: String, from: nat)
    requires |close| > 0 && !Contains(x, close) && x != [] && NoChar(close, x[|x| - 1]) && from <= |x|
    ensures FindFrom(x + close + rest, close, from) == Some(|x|)
  {
    var s := x + close + rest;
    ContainsIff(x, close);
    assert s[|x|..|x| + |close|] == close;
    forall j | from <= j < |x| ensures !OccursAt(s, close, j) {
      if j + |close| <= |x| {
        OccursInCommonPrefix(s, x, close, |x|, j);
      } else {
        NotOccursByChar(s, close, j, |x| - 1 - j);
      }
    }
    FindFromIs(s, close, from, |x|);
  }

  /** After a rebuild the section is found exactly where it was written: a text that is `content`
      with its section spliced out for the marker, the block and the tag, as `ReplaceSection`
      returns it, has its section at the same start, ending right after the block. */
  lemma ReplacedFound(open: String, close: String, sep: String, content: String, entries: seq<String>, r: String)
    requires Separable(open, close, sep) && FindSection(open, close, sep, content).Some?
    requires forall k :: 0 <= k < |entries| ==> !Contains(entries[k], close)
    requires var sec := FindSection(open, close, sep, content).value;
      SplicedAt(content, r, sec.start, sec.end + |close|, open + Block(open, close, sep, entries) + close)
    ensures FindSection(open, close, sep, r) ==
      Some(Section(FindSection(open, close, sep, content).value.start, FindSection(open, close, sep, content).value.start + |open + Block(open, close, sep, entries)|))
  {
    SectionNoClose(open, close, sep, entries);
    SplicedSection(open, close, sep, content, Block(open, close, sep, entries), r);
  }

  /** `ReplacedFound` for any block `b` that holds no closing tag and ends in a character the tag
      does not have, with the replaced text `r` described piece by piece. */
  lemma SplicedSection(open: String, close: String, sep: String, content: String, b: String, r: String)
    requires FindSection(open, close, sep, content).Some?
    requires var sec := FindSection(open, close, sep, content).value; SplicedAt(content, r, sec.start, sec.end + |close|, open + b + close)
    requires Separable(open, close, sep) && !Contains(open + b, close)
    requires var x := open + b; x != [] && x[|x| - 1] == sep[|sep| - 1] && NoChar(close, x[|x| - 1])
    ensures FindSection(open, close, sep, r) ==
      Some(Section(FindSection(open, close, sep, content).value.start, FindSection(open, close, sep, content).value.start + |open + b|))
  {
    var sec := FindSection(open, close, sep, content).value;
    Respliced(content, r, open, b, close, sep, content[sec.end + |close|..], sec.start);
  }

  /** A text that keeps `content` before its first `open` at `ps`, then spells `open + b` and
      `close`, finds its first `open` at `ps` and, from there, its first `close` right after `b`. */
  lemma Respliced(content: String, r: String, open: String, b: String, close: String, sep: String, rest: String, ps: nat)
    requires OccursAt(content, open, ps) && forall j :: 0 <= j < ps ==> !OccursAt(content, open, j)
    requires |r| == ps + |open + b + close| + |rest| && r[..ps] == content[..ps]
    requires r[ps..ps + |open + b + close|] == open + b + close && r[ps + |open + b + close|..] == rest
    requires |close| > 0 && !Contains(open + b, close) && open + b != [] && NoChar(close, (open + b)[|open + b| - 1])
    ensures FindSection(open, close, sep, r) == Some(Section(ps, ps + |open + b|))
  {
    PiecePrefix(r, ps, open, b, close);
    ReslicedOpen(content, r, open, ps);
    ReslicedClose(content[..ps], open + b, close, rest, r);
    FindSectionIs(open, close, sep, r, ps, ps + |open + b|);
  }

  /** The first half of `Respliced`: the kept prefix and the marker after it. */
  lemma ReslicedOpen(content: String, r: String, open: String, ps: nat)
    requires OccursAt(content, open, ps) && forall j :: 0 <= j < ps ==> !OccursAt(content, open, j)
    requires ps + |open| <= |r| && r[..ps] == content[..ps] && r[ps..ps + |open|] == open
    ensures FindFrom(r, open, 0) == Some(ps)
  {
    KeptThrough(r, content, ps, open);
    FirstKept(content, r, open, ps);
  }

  /** The second half of `Respliced`: the first closing tag after a block that holds none. */
  lemma ReslicedClose(pre: String, x: String, close: String, rest: String, r: String)
    requires |r| == |pre| + |x + close| + |rest| && r[..|pre|] == pre
    requires r[|pre|..|pre| + |x + close|] == x + close && r[|pre| + |x + close|..] == rest
    requires |close| > 0 && !Contains(x, close) && x != [] && NoChar(close, x[|x| - 1])
    ensures FindFrom(r, close, |pre|) == Some(|pre| + |x|)
  {
    ThreePieces(r, pre, x + close, rest);
    FirstCloseAfter(x, close, rest, 0);
    SplicedFind(pre, x + close + rest, r, close, |pre|, |x|);
  }

  /** A text cut into three consecutive pieces is their concatenation. */
  lemma ThreePieces(r: String, pre: String, mid: String, post: String)
    requires |r| == |pre| + |mid| + |post|
    requires r[..|pre|] == pre && r[|pre|..|pre| + |mid|] == mid && r[|pre| + |mid|..] == post
    ensures r == pre + (mid + post)
  {
    assert r == r[..|pre|] + r[|pre|..|pre| + |mid|] + r[|pre| + |mid|..];
  }

  /** A slice that spells `a + b + c` begins with a slice that spells `a`. */
  lemma PiecePrefix(s: String, i: nat, a: String, b: String, c: String)
    requires i + |a + b + c| <= |s| && s[i..i + |a + b + c|] == a + b + c
    ensures s[i..i + |a|] == a
  {
    assert s[i..i + |a|] == s[i..i + |a + b + c|][..|a|];
  }

  /** Two texts that agree before position `n` and both spell `w` there agree through `w`. */
  lemma KeptThrough(a: String, b: String, n: nat, w: String)
    requires n + |w| <= |a| && n + |w| <= |b| && a[..n] == b[..n]
    requires a[n..n + |w|] == w && b[n..n + |w|] == w
    ensures a[..n + |w|] == b[..n + |w|]
  {
    assert a[..n + |w|] == a[..n] + a[n..n + |w|];
    assert b[..n + |w|] == b[..n] + b[n..n + |w|];
  }

  /** A search in `pre + y` from the end of `pre` is the search in `y`, shifted. */
  lemma SplicedFind(pre: String, y: String, r: String, w: String, ps: nat, p: nat)
    requires r == pre + y && |pre| == ps && FindFrom(y, w, 0) == Some(p)
    ensures FindFrom(r, w, ps) == Some(ps + p)
  {
    ShiftFind(pre, y, w, 0, p);
  }

  /** The section found once both searches are known. */
  lemma FindSectionIs(open: String, close: String, sep: String, s: String, ps: nat, pe: nat)
    requires FindFrom(s, open, 0) == Some(ps) && FindFrom(s, close, ps) == Some(pe)
    ensures FindSection(open, close, sep, s) == Some(Section(ps, pe))
  {
  }

  /** Rebuilding the section from the same entries a second time changes nothing, when no entry
      holds a closing tag. */
  lemma ReplaceIdempotent(open: String, close: String, sep: String, content: String, entries: seq<String>)
    requires Separable(open, close, sep) && FindSection(open, close, sep, content).Some?
    requires forall k :: 0 <= k < |entries| ==> !Contains(entries[k], close)
    ensures ReplaceSection(open, close, sep, ReplaceSection(open, close, sep, content, entries).value, entries) == ReplaceSection(open, close, sep, content, entries)
  {
    var r := ReplaceSection(open, close, sep, content, entries).value;
    ReplacedFound(open, close, sep, content, entries, r);
    var r2 := ReplaceSection(open, close, sep, r, entries).value;
    assert r2 == r2[..|r|] by {
    }
  }
}
