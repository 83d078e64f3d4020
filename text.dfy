/** Text primitives with the meaning of the Python `str` operations the generators rely on:
    `in`, `find`, `strip`, `split`, `join`, `replace`, `lower`, `endswith`, slicing and `str(int)`. */
module Text {

  type String = seq<char>

  datatype Option<+T> = None | Some(value: T)

  /** Python's `str.isspace()`; the regex class `\s` in a `str` pattern matches the same characters. */
  predicate IsSpace(c: char)
  {
    ('\t' <= c <= '\r') || ('\U{1C}' <= c <= ' ') || c == '\U{85}' || c == '\U{A0}' || c == '\U{1680}'
    || ('\U{2000}' <= c <= '\U{200A}') || c == '\U{2028}' || c == '\U{2029}' || c == '\U{202F}'
    || c == '\U{205F}' || c == '\U{3000}'
  }

  predicate IsDigit(c: char) { '0' <= c <= '9' }

  predicate IsAsciiUpper(c: char) { 'A' <= c <= 'Z' }

  predicate IsAsciiAlnum(c: char) { 'a' <= c <= 'z' || 'A' <= c <= 'Z' || IsDigit(c) }

  predicate AllDigits(s: String) { forall i :: 0 <= i < |s| ==> IsDigit(s[i]) }

  predicate AllSpace(s: String) { forall i :: 0 <= i < |s| ==> IsSpace(s[i]) }

  predicate NoChar(s: String, c: char) { forall i :: 0 <= i < |s| ==> s[i] != c }

  /** `str.lower()` on one character, for the ASCII letters. */
  function LowerChar(c: char): (r: char)
    ensures !IsAsciiUpper(r)
    ensures IsAsciiUpper(c) || r == c
    ensures IsSpace(r) == IsSpace(c) && IsDigit(r) == IsDigit(c) && IsAsciiAlnum(r) == IsAsciiAlnum(c)
  {
    if IsAsciiUpper(c) then (c as int + 32) as char else c
  }

  /** `str.lower()`, for the ASCII letters: same length, changed character by character. */
  function Lower(s: String): (r: String)
    ensures |r| == |s|
    ensures forall i :: 0 <= i < |s| ==> r[i] == LowerChar(s[i])
  {
    seq(|s|, i requires 0 <= i < |s| => LowerChar(s[i]))
  }

  lemma LowerAppend(a: String, b: String)
    ensures Lower(a + b) == Lower(a) + Lower(b)
  {
  }

  lemma LowerSlice(s: String, i: nat, j: nat)
    requires i <= j <= |s|
    ensures Lower(s[i..j]) == Lower(s)[i..j]
  {
  }

  // ---------------------------------------------------------------- searching

  /** `w` occurs in `s` at index `i`. */
  predicate OccursAt(s: String, w: String, i: nat)
  {
    i + |w| <= |s| && s[i..i + |w|] == w
  }

  /** A character absent from a slice is absent from each position the slice covers. */
  lemma SliceNoChar(s: String, a: nat, b: nat, c: char)
    requires a <= b <= |s| && NoChar(s[a..b], c)
    ensures forall i :: a <= i < b ==> s[i] != c
  {
    forall i | a <= i < b ensures s[i] != c {
      assert s[a..b][i - a] == s[i];
    }
  }

  /** `s.find(w, start)`: the first index at or after `start` where `w` occurs. */
  function FindFrom(s: String, w: String, start: nat): (r: Option<nat>)
    ensures r.Some? ==> start <= r.value && OccursAt(s, w, r.value)
    ensures r.Some? ==> forall j :: start <= j < r.value ==> !OccursAt(s, w, j)
    ensures r.None? ==> forall j :: start <= j ==> !OccursAt(s, w, j)
    decreases |s| - start
  {
    if start + |w| > |s| then None
    else if s[start..start + |w|] == w then Some(start)
    else FindFrom(s, w, start + 1)
  }

  /** The search from `from` finds `p` when `w` occurs at `p` and nowhere between. */
  lemma {:induction false} FindFromIs(s: String, w: String, from: nat, p: nat)
    requires from <= p && OccursAt(s, w, p)
    requires forall j :: from <= j < p ==> !OccursAt(s, w, j)
    ensures FindFrom(s, w, from) == Some(p)
    decreases p - from
  {
    if from < p {
      FindFromIs(s, w, from + 1, p);
    }
  }

  /** Searching after a prefix is searching the rest, shifted by the prefix's length. */
  lemma ShiftFind(pre: String, t: String, w: String, from: nat, p: nat)
    requires FindFrom(t, w, from) == Some(p)
    ensures FindFrom(pre + t, w, |pre| + from) == Some(|pre| + p)
  {
    ShiftFirst(pre, t, w, from, p);
  }

  /** The first occurrence from `from` in `t`, shifted, is the first one in `pre + t`. */
  lemma ShiftFirst(pre: String, t: String, w: String, from: nat, p: nat)
    requires from <= p && OccursAt(t, w, p) && forall j :: from <= j < p ==> !OccursAt(t, w, j)
    ensures FindFrom(pre + t, w, |pre| + from) == Some(|pre| + p)
  {
    ShiftNone(pre, t, w, from, p);
    OccursShift(pre, t, w, p);
    FindFromIs(pre + t, w, |pre| + from, |pre| + p);
  }

  /** No occurrence between `from` and `p` in `t`, none between the shifted bounds in `pre + t`. */
  lemma ShiftNone(pre: String, t: String, w: String, from: nat, p: nat)
    requires forall j :: from <= j < p ==> !OccursAt(t, w, j)
    ensures forall j :: |pre| + from <= j < |pre| + p ==> !OccursAt(pre + t, w, j)
  {
    forall j | |pre| + from <= j < |pre| + p ensures !OccursAt(pre + t, w, j) {
      OccursShift(pre, t, w, j - |pre|);
    }
  }

  /** An occurrence in `t` is one in `pre + t`, moved by the length of `pre`, and back. */
  lemma OccursShift(pre: String, t: String, w: String, j: nat)
    ensures OccursAt(pre + t, w, |pre| + j) <==> OccursAt(t, w, j)
  {
    if j + |w| <= |t| {
      assert (pre + t)[|pre| + j..|pre| + j + |w|] == t[j..j + |w|];
    }
  }

  /** Python's `w in s`. */
  predicate Contains(s: String, w: String)
  {
    FindFrom(s, w, 0).Some?
  }

  lemma ContainsIff(s: String, w: String)
    ensures Contains(s, w) <==> exists i :: OccursAt(s, w, i)
  {
    if !Contains(s, w) {
      assert forall j :: 0 <= j ==> !OccursAt(s, w, j);
    }
  }

  lemma ContainsWitness(s: String, w: String, i: nat)
    requires OccursAt(s, w, i)
    ensures Contains(s, w)
  {
    ContainsIff(s, w);
  }

  /** A text that contains a word still contains it with more text after it. */
  lemma ContainsExtend(x: String, y: String, w: String)
    requires Contains(x, w)
    ensures Contains(x + y, w)
  {
    ContainsIff(x, w);
    var i :| OccursAt(x, w, i);
    OccursExtend(x, y, w, i);
    ContainsWitness(x + y, w, i);
  }

  /** A word whose first character does not occur in `s` does not occur in `s`. */
  lemma NotContainsByFirstChar(s: String, w: String)
    requires |w| > 0 && NoChar(s, w[0])
    ensures !Contains(s, w)
  {
    ContainsIff(s, w);
  }

  /** `any(k in s for k in ks)`, searched keyword by keyword as the source's loops do. */
  function ContainsAny(s: String, ks: seq<String>): (r: bool)
    ensures r <==> exists k :: 0 <= k < |ks| && Contains(s, ks[k])
  {
    if ks == [] then false
    else if Contains(s, ks[0]) then true
    else
      var r := ContainsAny(s, ks[1..]);
      assert forall k :: 1 <= k < |ks| ==> ks[k] == ks[1..][k - 1];
      r
  }

  /** `s.endswith(w)`. */
  predicate EndsWith(s: String, w: String)
  {
    |w| <= |s| && s[|s| - |w|..] == w
  }

  /** `s[:n]`. */
  function Take(s: String, n: nat): (r: String)
    ensures |r| == if n <= |s| then n else |s|
    ensures r == s[..|r|]
  {
    if n <= |s| then s[..n] else s
  }

  /** No occurrence of `w` starting inside `a..b` means none in the slice `s[a..b]`. */
  lemma NotContainsSlice(s: String, w: String, a: nat, b: nat)
    requires |w| > 0 && a <= b <= |s|
    requires forall j :: a <= j < b ==> !OccursAt(s, w, j)
    ensures !Contains(s[a..b], w)
  {
    ContainsIff(s[a..b], w);
    forall j: nat ensures !OccursAt(s[a..b], w, j) {
      if j + |w| <= b - a {
        OccursInSlice(s, w, a, b, j);
      }
    }
  }

  /** An occurrence inside the slice `s[a..b]` is one in `s`, shifted by `a`. */
  lemma OccursInSlice(s: String, w: String, a: nat, b: nat, j: nat)
    requires a <= b <= |s| && j + |w| <= b - a
    ensures OccursAt(s[a..b], w, j) <==> OccursAt(s, w, a + j)
  {
    var x, y := s[a..b][j..j + |w|], s[a + j..a + j + |w|];
    forall t | 0 <= t < |w| ensures x[t] == y[t] {
      assert x[t] == s[a..b][j + t] == s[a + j + t];
    }
    assert x == y;
  }

  /** Each character of an occurrence is the text's character at the same offset. */
  lemma OccursChar(s: String, w: String, j: nat, t: nat)
    requires OccursAt(s, w, j) && t < |w|
    ensures s[j + t] == w[t]
  {
    assert s[j..j + |w|][t] == s[j + t];
  }

  /** A word does not occur where one of its characters is missing. */
  lemma NotOccursByChar(s: String, w: String, j: nat, t: nat)
    requires t < |w| && j + t < |s| && s[j + t] != w[t]
    ensures !OccursAt(s, w, j)
  {
    if OccursAt(s, w, j) {
      OccursChar(s, w, j, t);
    }
  }

  /** A word with a character that does not occur in `s` does not occur in `s`. */
  lemma NotContainsByChar(s: String, w: String, t: nat)
    requires t < |w| && NoChar(s, w[t])
    ensures !Contains(s, w)
  {
    ContainsIff(s, w);
    forall j: nat ensures !OccursAt(s, w, j) {
      if j + t < |s| {
        NotOccursByChar(s, w, j, t);
      }
    }
  }

  /** A word in neither part, that cannot straddle the seam because the last character before it
      or the first after it is not in the word, is not in the concatenation. */
  lemma NotContainsConcat(x: String, y: String, w: String)
    requires |w| > 0 && !Contains(x, w) && !Contains(y, w)
    requires x == [] || y == [] || NoChar(w, x[|x| - 1]) || NoChar(w, y[0])
    ensures !Contains(x + y, w)
  {
    ContainsIff(x, w);
    ContainsIff(y, w);
    ContainsIff(x + y, w);
    forall j: nat ensures !OccursAt(x + y, w, j) {
      if j + |w| <= |x| {
        OccursKept(x, y, w, j);
      } else if j >= |x| {
        OccursShift(x, y, w, j - |x|);
      } else {
        Straddles(x, y, w, j);
      }
    }
  }

  /** An occurrence that ends inside `x` is one in `x + y` and back. */
  lemma OccursKept(x: String, y: String, w: String, j: nat)
    requires j + |w| <= |x|
    ensures OccursAt(x + y, w, j) <==> OccursAt(x, w, j)
  {
    assert (x + y)[j..j + |w|] == x[j..j + |w|];
  }

  /** A word cannot cross the seam of `x + y` when the characters on either side of it are not
      in the word. */
  lemma Straddles(x: String, y: String, w: String, j: nat)
    requires j < |x| < j + |w|
    requires x == [] || y == [] || NoChar(w, x[|x| - 1]) || NoChar(w, y[0])
    ensures !OccursAt(x + y, w, j)
  {
    if j + |w| <= |x| + |y| {
      if NoChar(w, x[|x| - 1]) {
        NotOccursByChar(x + y, w, j, |x| - 1 - j);
      } else {
        NotOccursByChar(x + y, w, j, |x| - j);
      }
    }
  }

  // ---------------------------------------------------------------- character runs

  /** A text without `w` has no slice containing `w`. */
  lemma NotContainsSub(s: String, w: String, a: nat, b: nat)
    requires |w| > 0 && a <= b <= |s| && !Contains(s, w)
    ensures !Contains(s[a..b], w)
  {
    ContainsIff(s, w);
    NotContainsSlice(s, w, a, b);
  }

  /** Length of the run of whitespace starting at `i`. */
  function SpaceRun(s: String, i: nat): (n: nat)
    requires i <= |s|
    ensures i + n <= |s|
    ensures forall k :: i <= k < i + n ==> IsSpace(s[k])
    ensures i + n == |s| || !IsSpace(s[i + n])
    decreases |s| - i
  {
    if i < |s| && IsSpace(s[i]) then 1 + SpaceRun(s, i + 1) else 0
  }

  /** Length of the run of decimal digits starting at `i`. */
  function DigitRun(s: String, i: nat): (n: nat)
    requires i <= |s|
    ensures i + n <= |s|
    ensures forall k :: i <= k < i + n ==> IsDigit(s[k])
    ensures i + n == |s| || !IsDigit(s[i + n])
    decreases |s| - i
  {
    if i < |s| && IsDigit(s[i]) then 1 + DigitRun(s, i + 1) else 0
  }

  /** The index of the first newline at or after `i`, or `|s|`: where `.*` stops. */
  function LineEnd(s: String, i: nat): (e: nat)
    requires i <= |s|
    ensures i <= e <= |s|
    ensures forall k :: i <= k < e ==> s[k] != '\n'
    ensures e == |s| || s[e] == '\n'
    decreases |s| - i
  {
    if i < |s| && s[i] != '\n' then LineEnd(s, i + 1) else i
  }

  /** The line from `i` ends at `j` when no newline comes before `j` and one (or the end) is at `j`. */
  lemma {:induction false} LineEndIs(s: String, i: nat, j: nat)
    requires i <= j <= |s|
    requires forall k :: i <= k < j ==> s[k] != '\n'
    requires j == |s| || s[j] == '\n'
    ensures LineEnd(s, i) == j
    decreases j - i
  {
    if i < j { LineEndIs(s, i + 1, j); }
  }

  /** The rest of the line from `i`: what `.*` (without DOTALL) matches there. */
  function RestLine(s: String, i: nat): (r: String)
    requires i <= |s|
    ensures r == s[i..LineEnd(s, i)] && NoChar(r, '\n')
  {
    s[i..LineEnd(s, i)]
  }

  lemma RestLinePrefix(s: String, i: nat, n: nat)
    requires i <= |s| && i + n <= LineEnd(s, i)
    ensures RestLine(s, i)[..n] == s[i..i + n]
  {
  }

  // ---------------------------------------------------------------- strip

  /** `s.lstrip()`. */
  function TrimStart(s: String): (r: String)
    ensures |r| <= |s|
  {
    if s != [] && IsSpace(s[0]) then TrimStart(s[1..]) else s
  }

  /** What `lstrip` removes is leading whitespace, and it keeps a suffix that does not start
      with whitespace. */
  lemma {:induction false} TrimStartShape(s: String)
    ensures TrimStart(s) == s[|s| - |TrimStart(s)|..]
    ensures AllSpace(s[..|s| - |TrimStart(s)|])
    ensures TrimStart(s) == [] || !IsSpace(TrimStart(s)[0])
  {
    if s != [] && IsSpace(s[0]) {
      var r := TrimStart(s[1..]);
      TrimStartShape(s[1..]);
      assert s[|s| - |r|..] == s[1..][|s| - 1 - |r|..];
      assert forall k :: 1 <= k < |s| - |r| ==> s[k] == s[1..][..|s| - 1 - |r|][k - 1];
    }
  }

  /** `s.rstrip()`. */
  function TrimEnd(s: String): (r: String)
    ensures |r| <= |s|
  {
    if s != [] && IsSpace(s[|s| - 1]) then TrimEnd(s[..|s| - 1]) else s
  }

  /** What `rstrip` removes is trailing whitespace, and it keeps a prefix that does not end
      with whitespace. */
  lemma {:induction false} TrimEndShape(s: String)
    ensures TrimEnd(s) == s[..|TrimEnd(s)|]
    ensures AllSpace(s[|TrimEnd(s)|..])
    ensures TrimEnd(s) == [] || !IsSpace(TrimEnd(s)[|TrimEnd(s)| - 1])
  {
    if s != [] && IsSpace(s[|s| - 1]) {
      var r := TrimEnd(s[..|s| - 1]);
      TrimEndShape(s[..|s| - 1]);
      assert forall k :: |r| <= k < |s| - 1 ==> s[k] == s[..|s| - 1][k];
    }
  }

  /** `s.strip()`: leading and trailing whitespace removed. */
  function Strip(s: String): (r: String)
    ensures |r| <= |s|
    ensures r == [] || (!IsSpace(r[0]) && !IsSpace(r[|r| - 1]))
  {
    TrimStartShape(s);
    TrimEndShape(TrimStart(s));
    var t := TrimStart(s);
    assert TrimEnd(t) != [] ==> TrimEnd(t)[0] == t[0];
    TrimEnd(t)
  }

  /** What `strip` removes is whitespace, and what it keeps is a slice of the text. */
  lemma StripMiddle(s: String) returns (i: nat)
    ensures i + |Strip(s)| <= |s| && Strip(s) == s[i..i + |Strip(s)|]
    ensures AllSpace(s[..i]) && AllSpace(s[i + |Strip(s)|..])
  {
    var t := TrimStart(s);
    TrimStartShape(s);
    TrimEndShape(t);
    i := |s| - |t|;
    MiddleSlice(s, t, TrimEnd(t), i);
  }

  /** A prefix `r` of the suffix `t` of `s` that starts at `i` is the slice of `s` at `i`, and
      what follows it in `t` is what follows that slice in `s`. */
  lemma MiddleSlice(s: String, t: String, r: String, i: nat)
    requires i <= |s| && t == s[i..] && |r| <= |t| && r == t[..|r|] && AllSpace(t[|r|..])
    ensures i + |r| <= |s| && r == s[i..i + |r|] && AllSpace(s[i + |r|..])
  {
    assert t[|r|..] == s[i + |r|..];
  }

  /** Text that already has no whitespace at either end is its own strip. */
  lemma StripUnchanged(s: String)
    requires s == [] || (!IsSpace(s[0]) && !IsSpace(s[|s| - 1]))
    ensures Strip(s) == s
  {
  }

  lemma StripIdempotent(s: String)
    ensures Strip(Strip(s)) == Strip(s)
  {
    StripUnchanged(Strip(s));
  }

  // ---------------------------------------------------------------- split, join, replace

  /** `sep.join(parts)`. */
  function JoinWith(sep: String, parts: seq<String>): String
  {
    if parts == [] then []
    else if |parts| == 1 then parts[0]
    else parts[0] + sep + JoinWith(sep, parts[1..])
  }

  /** A character in neither the pieces nor the separator is not in the join. */
  lemma {:induction false} JoinNoChar(sep: String, parts: seq<String>, ch: char)
    requires NoChar(sep, ch) && forall k :: 0 <= k < |parts| ==> NoChar(parts[k], ch)
    ensures NoChar(JoinWith(sep, parts), ch)
  {
    if |parts| > 1 {
      JoinNoChar(sep, parts[1..], ch);
      var t := JoinWith(sep, parts[1..]);
      var s := parts[0] + sep + t;
      forall i | 0 <= i < |s| ensures s[i] != ch {
        if i < |parts[0]| {
        } else if i < |parts[0]| + |sep| {
          assert s[i] == sep[i - |parts[0]|];
        } else {
          assert s[i] == t[i - |parts[0]| - |sep|];
        }
      }
    }
  }

  /** A join starts where its first piece does, when that piece is not empty. */
  lemma JoinFirst(sep: String, parts: seq<String>)
    requires |parts| > 0 && parts[0] != []
    ensures JoinWith(sep, parts) != [] && JoinWith(sep, parts)[0] == parts[0][0]
  {
  }

  /** A join ends where its last piece does, or with the separator when that piece is empty. */
  lemma {:induction false} JoinLast(sep: String, parts: seq<String>)
    requires |parts| > 0 && sep != []
    requires parts[|parts| - 1] == [] ==> |parts| > 1
    ensures var s := JoinWith(sep, parts); var p := parts[|parts| - 1];
      s != [] && s[|s| - 1] == if p != [] then p[|p| - 1] else sep[|sep| - 1]
  {
    if |parts| > 1 {
      var rest := parts[1..];
      if |rest| > 1 || rest[0] != [] {
        JoinLast(sep, rest);
      }
    }
  }

  /** `s.split(sep, maxsplit)` for a non-empty separator; a negative `maxsplit` means no limit. */
  function Split(s: String, sep: String, maxsplit: int): (r: seq<String>)
    requires |sep| > 0
    ensures |r| >= 1
    decreases |s|
  {
    if maxsplit == 0 then [s]
    else match FindFrom(s, sep, 0)
      case None => [s]
      case Some(i) => [s[..i]] + Split(s[i + |sep|..], sep, if maxsplit < 0 then maxsplit else maxsplit - 1)
  }

  /** Joining the pieces of a split with the separator gives back the text. */
  lemma {:induction false} JoinSplit(s: String, sep: String, maxsplit: int)
    requires |sep| > 0
    ensures JoinWith(sep, Split(s, sep, maxsplit)) == s
    decreases |s|
  {
    if maxsplit != 0 {
      match FindFrom(s, sep, 0)
      case None =>
      case Some(i) =>
        var rest := s[i + |sep|..];
        var m := if maxsplit < 0 then maxsplit else maxsplit - 1;
        JoinSplit(rest, sep, m);
        var tail := Split(rest, sep, m);
        assert Split(s, sep, maxsplit) == [s[..i]] + tail;
        JoinAtSep(s, sep, i, tail);
    }
  }

  /** Putting back the separator found at `i` between the text before it and the join of the
      pieces after it gives back the text. */
  lemma JoinAtSep(s: String, sep: String, i: nat, tail: seq<String>)
    requires OccursAt(s, sep, i) && tail != [] && JoinWith(sep, tail) == s[i + |sep|..]
    ensures JoinWith(sep, [s[..i]] + tail) == s
  {
    JoinCons(sep, s[..i], tail);
    SliceThree(s, i, i + |sep|);
  }

  /** A text is its three slices at `i` and `j`, put back together. */
  lemma SliceThree(s: String, i: nat, j: nat)
    requires i <= j <= |s|
    ensures s[..i] + s[i..j] + s[j..] == s
  {
  }

  /** The text before the first occurrence does not contain the word. */
  lemma BeforeFirstFree(s: String, w: String, i: nat)
    requires |w| > 0 && FindFrom(s, w, 0) == Some(i)
    ensures !Contains(s[..i], w)
  {
    PrefixFree(s, w, i);
  }

  /** A prefix before which the word never starts does not contain it. */
  lemma PrefixFree(s: String, w: String, i: nat)
    requires |w| > 0 && i <= |s| && forall j :: 0 <= j < i ==> !OccursAt(s, w, j)
    ensures !Contains(s[..i], w)
  {
    ContainsIff(s[..i], w);
    forall j: nat ensures !OccursAt(s[..i], w, j) {
      if j + |w| <= i {
        assert !OccursAt(s, w, j);
        assert s[..i][j..j + |w|] == s[j..j + |w|];
      }
    }
  }

  /** No piece of an unlimited split contains the separator. */
  lemma {:induction false} SplitPiecesFree(s: String, sep: String)
    requires |sep| > 0
    ensures forall k :: 0 <= k < |Split(s, sep, -1)| ==> !Contains(Split(s, sep, -1)[k], sep)
    decreases |s|
  {
    match FindFrom(s, sep, 0)
    case None =>
      ContainsIff(s, sep);
    case Some(i) =>
      var rest := s[i + |sep|..];
      SplitPiecesFree(rest, sep);
      BeforeFirstFree(s, sep, i);
      var tail := Split(rest, sep, -1);
      var r := Split(s, sep, -1);
      assert r == [s[..i]] + tail;
      forall k | 0 <= k < |r| ensures !Contains(r[k], sep) {
        if k > 0 { assert r[k] == tail[k - 1]; }
      }
  }

  /** A one-character separator absent from the text before it is where the split cuts first. */
  lemma SplitAtSep(x: String, rest: String, sep: String, maxsplit: int)
    requires |sep| == 1 && NoChar(x, sep[0]) && maxsplit != 0
    ensures Split(x + sep + rest, sep, maxsplit) == [x] + Split(rest, sep, if maxsplit < 0 then maxsplit else maxsplit - 1)
  {
    var s := x + sep + rest;
    assert s[|x|..|x| + 1] == sep;
    forall j | 0 <= j < |x| ensures !OccursAt(s, sep, j) {
      assert s[j] == x[j];
    }
    FindFromIs(s, sep, 0, |x|);
    assert s[..|x|] == x && s[|x| + 1..] == rest;
  }

  /** Splitting a join at a one-character separator gives back the pieces, when no piece holds the
      separator except perhaps the last one the limit leaves whole. */
  lemma {:induction false} SplitJoin(parts: seq<String>, sep: String, maxsplit: int)
    requires |sep| == 1 && |parts| > 0
    requires maxsplit < 0 || maxsplit >= |parts| - 1
    requires forall k :: 0 <= k < |parts| - 1 ==> NoChar(parts[k], sep[0])
    requires maxsplit != |parts| - 1 ==> NoChar(parts[|parts| - 1], sep[0])
    ensures Split(JoinWith(sep, parts), sep, maxsplit) == parts
  {
    if |parts| == 1 {
      if maxsplit != 0 {
        NotContainsByFirstChar(parts[0], sep);
      }
    } else {
      var rest := parts[1..];
      forall k | 0 <= k < |rest| - 1 ensures NoChar(rest[k], sep[0]) {
        assert rest[k] == parts[k + 1];
      }
      SplitJoin(rest, sep, if maxsplit < 0 then maxsplit else maxsplit - 1);
      SplitAtSep(parts[0], JoinWith(sep, rest), sep, maxsplit);
      assert parts == [parts[0]] + rest;
    }
  }

  /** `s.replace(pat, rep)` for a non-empty `old`: every occurrence, left to right, without overlap. */
  function ReplaceAll(s: String, pat: String, rep: String): String
    requires |pat| > 0
  {
    JoinWith(rep, Split(s, pat, -1))
  }

  /** What `replace` does: the text is cut at the occurrences of `old` into pieces that do not
      contain `old`, and the result puts `new` between the same pieces. */
  lemma ReplaceAllMeaning(s: String, pat: String, rep: String)
    requires |pat| > 0
    ensures var pieces := Split(s, pat, -1);
      && JoinWith(pat, pieces) == s
      && (forall k :: 0 <= k < |pieces| ==> !Contains(pieces[k], pat))
      && ReplaceAll(s, pat, rep) == JoinWith(rep, pieces)
  {
    JoinSplit(s, pat, -1);
    SplitPiecesFree(s, pat);
  }

  /** A placeholder that does not occur leaves the text unchanged. */
  lemma ReplaceAbsent(s: String, pat: String, rep: String)
    requires |pat| > 0 && !Contains(s, pat)
    ensures ReplaceAll(s, pat, rep) == s
  {
  }

  // ---------------------------------------------------------------- one-character replace

  /** `s.replace(a, b)` for one-character `a` and `b`: each `a` becomes `b`. */
  function ReplaceChar(s: String, a: char, b: char): (r: String)
    ensures |r| == |s|
    ensures forall i :: 0 <= i < |s| ==> r[i] == if s[i] == a then b else s[i]
  {
    seq(|s|, i requires 0 <= i < |s| => if s[i] == a then b else s[i])
  }

  lemma ReplaceCharAppend(x: String, y: String, a: char, b: char)
    ensures ReplaceChar(x + y, a, b) == ReplaceChar(x, a, b) + ReplaceChar(y, a, b)
  {
  }

  /** The one-character replace is the general `replace` with one-character arguments. */
  lemma {:induction false} ReplaceCharIsReplaceAll(s: String, a: char, b: char)
    ensures ReplaceAll(s, [a], [b]) == ReplaceChar(s, a, b)
    decreases |s|
  {
    if NoChar(s, a) {
      ReplaceAllNone(s, a, b);
    } else {
      var i := FirstChar(s, a);
      ReplaceAllFirst(s, a, b, i);
      ReplaceCharFirst(s, a, b, i);
      ReplaceCharIsReplaceAll(s[i + 1..], a, b);
    }
  }

  /** Without the character, neither replace changes the text. */
  lemma ReplaceAllNone(s: String, a: char, b: char)
    requires NoChar(s, a)
    ensures ReplaceAll(s, [a], [b]) == s == ReplaceChar(s, a, b)
  {
    SplitJoin([s], [a], -1);
  }

  /** `replace` cuts at the first occurrence, puts the replacement there and carries on after it. */
  lemma ReplaceAllFirst(s: String, a: char, b: char, i: nat)
    requires i < |s| && s[i] == a && NoChar(s[..i], a)
    ensures ReplaceAll(s, [a], [b]) == s[..i] + [b] + ReplaceAll(s[i + 1..], [a], [b])
  {
    var x, rest := s[..i], s[i + 1..];
    assert s == x + [a] + rest;
    SplitAtSep(x, rest, [a], -1);
    JoinCons([b], x, Split(rest, [a], -1));
  }

  /** The same split of the one-character replace at the first occurrence. */
  lemma ReplaceCharFirst(s: String, a: char, b: char, i: nat)
    requires i < |s| && s[i] == a && NoChar(s[..i], a)
    ensures ReplaceChar(s, a, b) == s[..i] + [b] + ReplaceChar(s[i + 1..], a, b)
  {
    var x, rest := s[..i], s[i + 1..];
    SliceAround(s, i);
    ReplaceCharAppend(x + [a], rest, a, b);
    ReplaceCharAppend(x, [a], a, b);
    ReplaceCharNone(x, a, b);
    ReplaceCharOne(a, b);
  }

  /** A text is what comes before position `i`, the character there, and what follows. */
  lemma SliceAround(s: String, i: nat)
    requires i < |s|
    ensures s == s[..i] + [s[i]] + s[i + 1..]
  {
  }

  /** Replacing a character the text lacks changes nothing. */
  lemma ReplaceCharNone(x: String, a: char, b: char)
    requires NoChar(x, a)
    ensures ReplaceChar(x, a, b) == x
  {
  }

  /** A text of just the character becomes just its replacement. */
  lemma ReplaceCharOne(a: char, b: char)
    ensures ReplaceChar([a], a, b) == [b]
  {
  }

  /** The first place a character occurs in a text that has it. */
  lemma {:induction false} FirstChar(s: String, a: char) returns (i: nat)
    requires !NoChar(s, a)
    ensures i < |s| && s[i] == a && NoChar(s[..i], a)
    decreases |s|
  {
    if s[0] == a {
      i := 0;
    } else {
      var j := FirstChar(s[1..], a);
      i := j + 1;
      assert s[..i] == [s[0]] + s[1..][..j];
    }
  }

  // ---------------------------------------------------------------- split on whitespace

  predicate NoUpper(s: String) { forall i :: 0 <= i < |s| ==> !IsAsciiUpper(s[i]) }

  /** Lower-casing text without ASCII capitals changes nothing. */
  lemma LowerNoUpper(s: String)
    requires NoUpper(s)
    ensures Lower(s) == s
  {
  }

  /** A word of `str.split()`: non-empty, without whitespace. */
  predicate IsWord(w: String) { |w| > 0 && forall j :: 0 <= j < |w| ==> !IsSpace(w[j]) }

  /** Length of the run of non-whitespace characters starting at `i`. */
  function WordRun(s: String, i: nat): (n: nat)
    requires i <= |s|
    ensures i + n <= |s|
    ensures forall k :: i <= k < i + n ==> !IsSpace(s[k])
    ensures i + n == |s| || IsSpace(s[i + n])
    decreases |s| - i
  {
    if i < |s| && !IsSpace(s[i]) then 1 + WordRun(s, i + 1) else 0
  }

  lemma {:induction false} WordRunIs(s: String, i: nat, j: nat)
    requires i <= j <= |s|
    requires forall k :: i <= k < j ==> !IsSpace(s[k])
    requires j == |s| || IsSpace(s[j])
    ensures WordRun(s, i) == j - i
    decreases j - i
  {
    if i < j { WordRunIs(s, i + 1, j); }
  }

  /** `s.split()` with no argument: the maximal runs of non-whitespace, in order. */
  function Words(s: String): (r: seq<String>)
    ensures forall k :: 0 <= k < |r| ==> IsWord(r[k])
    ensures NoUpper(s) ==> forall k :: 0 <= k < |r| ==> NoUpper(r[k])
    decreases |s|
  {
    if s == [] then []
    else if IsSpace(s[0]) then Words(s[1..])
    else
      var n := WordRun(s, 0);
      [s[..n]] + Words(s[n..])
  }

  lemma JoinCons(sep: String, w: String, ws: seq<String>)
    ensures JoinWith(sep, [w] + ws) == if ws == [] then w else w + sep + JoinWith(sep, ws)
  {
    assert ([w] + ws)[1..] == ws;
  }

  /** Words joined by single spaces: no whitespace at either end, none but ' ', never two in a row;
      and no capitals when the words have none. */
  lemma {:induction false} JoinWordsShape(ws: seq<String>)
    requires forall k :: 0 <= k < |ws| ==> IsWord(ws[k])
    ensures var r := JoinWith(" ", ws);
      && (ws != [] ==> |r| > 0 && !IsSpace(r[0]))
      && (forall i :: 0 <= i < |r| && IsSpace(r[i]) ==>
            r[i] == ' ' && 0 < i < |r| - 1 && !IsSpace(r[i - 1]) && !IsSpace(r[i + 1]))
      && ((forall k :: 0 <= k < |ws| ==> NoUpper(ws[k])) ==> NoUpper(r))
  {
    if ws != [] {
      var w, rest := ws[0], ws[1..];
      assert ws == [w] + rest;
      JoinCons(" ", w, rest);
      if rest != [] {
        JoinWordsShape(rest);
        var t := JoinWith(" ", rest);
        var r := w + " " + t;
        forall i | 0 <= i < |r| && IsSpace(r[i])
          ensures r[i] == ' ' && 0 < i < |r| - 1 && !IsSpace(r[i - 1]) && !IsSpace(r[i + 1])
        {
          if i > |w| { assert r[i] == t[i - |w| - 1]; }
        }
        if forall k :: 0 <= k < |ws| ==> NoUpper(ws[k]) {
          assert forall k :: 0 <= k < |rest| ==> rest[k] == ws[k + 1];
          assert NoUpper(w) && NoUpper(t);
        }
      }
    }
  }

  lemma WordsSingle(w: String)
    requires IsWord(w)
    ensures Words(w) == [w]
  {
    WordRunIs(w, 0, |w|);
    assert w[..|w|] == w && w[|w|..] == [];
  }

  lemma WordsAfterWord(w: String, t: String)
    requires IsWord(w)
    ensures Words(w + " " + t) == [w] + Words(t)
  {
    var r := w + " " + t;
    WordRunIs(r, 0, |w|);
    assert r[..|w|] == w;
    assert r[|w|..] == " " + t;
    assert (" " + t)[1..] == t;
  }

  /** Splitting words joined by single spaces gives the words back. */
  lemma {:induction false} WordsOfJoin(ws: seq<String>)
    requires forall k :: 0 <= k < |ws| ==> IsWord(ws[k])
    ensures Words(JoinWith(" ", ws)) == ws
  {
    if ws != [] {
      var w, rest := ws[0], ws[1..];
      assert ws == [w] + rest;
      JoinCons(" ", w, rest);
      if rest == [] {
        WordsSingle(w);
      } else {
        WordsOfJoin(rest);
        WordsAfterWord(w, JoinWith(" ", rest));
      }
    }
  }

  lemma OccursExtend(x: String, y: String, w: String, i: nat)
    requires OccursAt(x, w, i)
    ensures OccursAt(x + y, w, i)
  {
    assert (x + y)[i..i + |w|] == x[i..i + |w|];
  }

  lemma OccursInJoinHead(w0: String, rest: seq<String>, w: String, i: nat)
    requires OccursAt(w0, w, i)
    ensures Contains(JoinWith(" ", [w0] + rest), w)
  {
    JoinCons(" ", w0, rest);
    if rest == [] {
      ContainsWitness(w0, w, i);
    } else {
      var t := JoinWith(" ", rest);
      OccursExtend(w0, " " + t, w, i);
      assert w0 + " " + t == w0 + (" " + t);
      ContainsWitness(w0 + " " + t, w, i);
    }
  }

  lemma OccursInJoinTail(w0: String, rest: seq<String>, w: String)
    requires Contains(JoinWith(" ", rest), w)
    ensures Contains(JoinWith(" ", [w0] + rest), w)
  {
    JoinCons(" ", w0, rest);
    var t := JoinWith(" ", rest);
    ContainsIff(t, w);
    var j :| OccursAt(t, w, j);
    OccursShift(w0 + " ", t, w, j);
    ContainsWitness(w0 + " " + t, w, |w0 + " "| + j);
  }

  /** A whitespace-free word that occurs in a text still occurs once the text is split into words
      and joined by single spaces. */
  lemma {:induction false} WordSurvivesJoin(s: String, w: String, i: nat)
    requires IsWord(w) && OccursAt(s, w, i)
    ensures Contains(JoinWith(" ", Words(s)), w)
    decreases |s|
  {
    if IsSpace(s[0]) {
      assert s[i] == w[0];
      OccursDrop(s, w, i, 1);
      WordSurvivesJoin(s[1..], w, i - 1);
    } else {
      var n := WordRun(s, 0);
      assert Words(s) == [s[..n]] + Words(s[n..]);
      if i < n {
        OccursInRun(s, w, i, n);
        OccursInJoinHead(s[..n], Words(s[n..]), w, i);
      } else {
        OccursDrop(s, w, i, n);
        WordSurvivesJoin(s[n..], w, i - n);
        OccursInJoinTail(s[..n], Words(s[n..]), w);
      }
    }
  }

  /** An occurrence past the first `n` characters is one in what follows them. */
  lemma OccursDrop(s: String, w: String, i: nat, n: nat)
    requires n <= i && OccursAt(s, w, i)
    ensures OccursAt(s[n..], w, i - n)
  {
    assert s[n..][i - n..i - n + |w|] == s[i..i + |w|];
  }

  /** A whitespace-free word that starts inside a run ending at `n` ends inside it too, and so
      occurs in the first `n` characters. */
  lemma OccursInRun(s: String, w: String, i: nat, n: nat)
    requires IsWord(w) && OccursAt(s, w, i) && i < n <= |s| && (n == |s| || IsSpace(s[n]))
    ensures OccursAt(s[..n], w, i)
  {
    forall k | i <= k < i + |w| ensures !IsSpace(s[k]) {
      assert s[k] == w[k - i];
    }
    assert i + |w| <= n;
    assert s[..n][i..i + |w|] == s[i..i + |w|];
  }

  // ---------------------------------------------------------------- str(int)

  function DigitChar(d: nat): (c: char)
    requires d < 10
    ensures IsDigit(c)
  {
    ('0' as int + d) as char
  }

  /** `str(n)` for a natural number. */
  function NatToString(n: nat): (r: String)
    ensures |r| > 0 && AllDigits(r)
  {
    if n < 10 then [DigitChar(n)] else NatToString(n / 10) + [DigitChar(n % 10)]
  }

  /** The number a string of decimal digits denotes (`int(s)`). */
  function DigitsValue(s: String): nat
    requires AllDigits(s)
  {
    if s == [] then 0 else DigitsValue(s[..|s| - 1]) * 10 + (s[|s| - 1] as int - '0' as int)
  }

  /** `str` and `int` are inverse on the naturals. */
  lemma {:induction false} NatToStringValue(n: nat)
    ensures DigitsValue(NatToString(n)) == n
  {
    if n >= 10 {
      NatToStringValue(n / 10);
      var s := NatToString(n);
      assert s[..|s| - 1] == NatToString(n / 10);
    }
  }

  // ---------------------------------------------------------------- filtering

  /** What `pick` makes of each element, where it makes anything, in order. */
  function FilterMap<A, B>(xs: seq<A>, pick: A -> Option<B>): (r: seq<B>)
    ensures |r| <= |xs|
  {
    if xs == [] then []
    else
      var last := xs[|xs| - 1];
      FilterMap(xs[..|xs| - 1], pick) + (if pick(last).Some? then [pick(last).value] else [])
  }

  /** When every element yields a value, the values are collected, all of them and in order. */
  lemma {:induction false} FilterMapAll<A, B>(xs: seq<A>, pick: A -> Option<B>, ys: seq<B>)
    requires |xs| == |ys| && forall i :: 0 <= i < |xs| ==> pick(xs[i]) == Some(ys[i])
    ensures FilterMap(xs, pick) == ys
  {
    if xs != [] {
      FilterMapAll(xs[..|xs| - 1], pick, ys[..|ys| - 1]);
    }
  }

  /** Each collected value comes from some element. */
  lemma FilterMapFrom<A, B>(xs: seq<A>, pick: A -> Option<B>, k: nat)
    requires k < |FilterMap(xs, pick)|
    ensures exists i :: 0 <= i < |xs| && pick(xs[i]) == Some(FilterMap(xs, pick)[k])
  {
    FilterMapIff(xs, pick, FilterMap(xs, pick)[k]);
  }

  /** A value is collected exactly when some element yields it. */
  lemma {:induction false} FilterMapIff<A, B>(xs: seq<A>, pick: A -> Option<B>, u: B)
    ensures u in FilterMap(xs, pick) <==> exists i :: 0 <= i < |xs| && pick(xs[i]) == Some(u)
  {
    if xs != [] {
      var init := xs[..|xs| - 1];
      FilterMapIff(init, pick, u);
      if u in FilterMap(xs, pick) && u !in FilterMap(init, pick) {
        assert pick(xs[|xs| - 1]) == Some(u);
      }
      if exists i :: 0 <= i < |xs| && pick(xs[i]) == Some(u) {
        var i :| 0 <= i < |xs| && pick(xs[i]) == Some(u);
        if i < |xs| - 1 { assert init[i] == xs[i]; }
      }
    }
  }

  /** An element that yields a value has it collected. */
  lemma FilterMapHas<A, B>(xs: seq<A>, i: nat, pick: A -> Option<B>)
    requires i < |xs| && pick(xs[i]).Some?
    ensures pick(xs[i]).value in FilterMap(xs, pick)
  {
    FilterMapIff(xs, pick, pick(xs[i]).value);
  }

  /** An element after a fixed prefix that yields a value has it collected. */
  lemma FilterMapHasAfter<A, B>(pre: seq<A>, xs: seq<A>, i: nat, pick: A -> Option<B>)
    requires i < |xs| && pick(xs[i]).Some?
    ensures pick(xs[i]).value in FilterMap(pre + xs, pick)
  {
    assert (pre + xs)[|pre| + i] == xs[i];
    FilterMapHas(pre + xs, |pre| + i, pick);
  }

  /** A collected value comes from some element, named here. */
  lemma FilterMapSource<A, B>(xs: seq<A>, pick: A -> Option<B>, u: B) returns (i: nat)
    requires u in FilterMap(xs, pick)
    ensures i < |xs| && pick(xs[i]) == Some(u)
  {
    FilterMapIff(xs, pick, u);
    i :| 0 <= i < |xs| && pick(xs[i]) == Some(u);
  }

  /** Filtering two runs is filtering each, one after the other: the order is kept. */
  lemma {:induction false} FilterMapAppend<A, B>(a: seq<A>, b: seq<A>, pick: A -> Option<B>)
    ensures FilterMap(a + b, pick) == FilterMap(a, pick) + FilterMap(b, pick)
    decreases |b|
  {
    if b == [] {
      assert a + b == a;
    } else {
      var initB := b[..|b| - 1];
      FilterMapAppend(a, initB, pick);
      assert (a + b)[..|a + b| - 1] == a + initB;
    }
  }

  /** Records already found stay in front when a walk grows. */
  lemma FilterMapAfter<A, B>(found: seq<B>, a: seq<A>, b: seq<A>, pick: A -> Option<B>)
    ensures found + FilterMap(a + b, pick) == (found + FilterMap(a, pick)) + FilterMap(b, pick)
  {
    FilterMapAppend(a, b, pick);
  }

  /** One more element of a prefix adds its value, if it yields one. */
  lemma FilterMapSnoc<A, B>(xs: seq<A>, i: nat, pick: A -> Option<B>)
    requires i < |xs|
    ensures FilterMap(xs[..i + 1], pick)
      == FilterMap(xs[..i], pick) + (if pick(xs[i]).Some? then [pick(xs[i]).value] else [])
  {
    assert xs[..i + 1][..i] == xs[..i];
  }

  /** Two picks that agree on every element collect the same values. */
  lemma {:induction false} FilterMapAgree<A, B>(xs: seq<A>, pick: A -> Option<B>, other: A -> Option<B>)
    requires forall i :: 0 <= i < |xs| ==> pick(xs[i]) == other(xs[i])
    ensures FilterMap(xs, pick) == FilterMap(xs, other)
    decreases |xs|
  {
    if xs != [] {
      FilterMapAgree(xs[..|xs| - 1], pick, other);
    }
  }

  /** `ix` lists, in increasing order, exactly the indices of the elements `pick` makes something
      of, and `r` holds what it makes of them. */
  ghost predicate Picks<A, B>(xs: seq<A>, pick: A -> Option<B>, r: seq<B>, ix: seq<nat>)
  {
    && |ix| == |r|
    && (forall k :: 0 <= k < |ix| ==> ix[k] < |xs| && pick(xs[ix[k]]) == Some(r[k]))
    && (forall k, l :: 0 <= k < l < |ix| ==> ix[k] < ix[l])
    && (forall j :: 0 <= j < |xs| && pick(xs[j]).Some? ==> j in ix)
  }

  /** The filter keeps every element that yields a value, drops every other, and keeps the order. */
  lemma {:induction false} FilterMapPicks<A, B>(xs: seq<A>, pick: A -> Option<B>) returns (ix: seq<nat>)
    ensures Picks(xs, pick, FilterMap(xs, pick), ix)
    decreases |xs|
  {
    if xs == [] {
      ix := [];
    } else {
      var init := xs[..|xs| - 1];
      var ix0 := FilterMapPicks(init, pick);
      ix := PicksSnoc(xs, pick, FilterMap(init, pick), ix0);
    }
  }

  /** The step of `FilterMapPicks`: the last element is picked after all the others. */
  lemma PicksSnoc<A, B>(xs: seq<A>, pick: A -> Option<B>, r: seq<B>, ix0: seq<nat>) returns (ix: seq<nat>)
    requires xs != [] && Picks(xs[..|xs| - 1], pick, r, ix0)
    ensures var last := xs[|xs| - 1];
      Picks(xs, pick, r + (if pick(last).Some? then [pick(last).value] else []), ix)
  {
    var n := |xs| - 1;
    var init := xs[..n];
    var last := xs[n];
    var r1 := r + (if pick(last).Some? then [pick(last).value] else []);
    ix := if pick(last).Some? then ix0 + [n] else ix0;
    forall k | 0 <= k < |ix| ensures ix[k] < |xs| && pick(xs[ix[k]]) == Some(r1[k]) {
      if k < |ix0| {
        assert ix[k] == ix0[k] && r1[k] == r[k] && init[ix0[k]] == xs[ix0[k]];
      }
    }
    forall j | 0 <= j < |xs| && pick(xs[j]).Some? ensures j in ix {
      if j < n {
        assert init[j] == xs[j];
      }
    }
  }

  /** A text stripped, when anything is left of it. */
  function StripPick(x: String): (r: Option<String>)
    ensures r.Some? ==> r.value != [] && r.value == Strip(x)
    ensures r.None? <==> Strip(x) == []
  {
    if Strip(x) == [] then None else Some(Strip(x))
  }

  // ---------------------------------------------------------------- mapping

  /** `f` applied to each element, in order. */
  function MapSeq<A, B>(xs: seq<A>, f: A -> B): (r: seq<B>)
    ensures |r| == |xs|
  {
    seq(|xs|, i requires 0 <= i < |xs| => f(xs[i]))
  }

  /** The i-th result is `f` of the i-th element. */
  lemma MapSeqAt<A, B>(xs: seq<A>, f: A -> B, i: nat)
    requires i < |xs|
    ensures MapSeq(xs, f)[i] == f(xs[i])
  {
  }

  /** One more element of a prefix. */
  lemma TakeSnoc<A>(s: seq<A>, k: nat)
    requires k < |s|
    ensures s[..k + 1] == s[..k] + [s[k]]
  {
  }

  /** `f(0), ..., f(n - 1)`, built one element at a time. */
  function Tabulate<T>(f: nat -> T, n: nat): (r: seq<T>)
    ensures |r| == n
  {
    if n == 0 then [] else Tabulate(f, n - 1) + [f(n - 1)]
  }

  /** The p-th element of a tabulation is `f(p)`. */
  lemma {:induction false} TabulateAt<T>(f: nat -> T, n: nat, p: nat)
    requires p < n
    ensures Tabulate(f, n)[p] == f(p)
  {
    if p < n - 1 {
      TabulateAt(f, n - 1, p);
    }
  }

  /** Every element of a tabulation is `f` of its position. */
  lemma TabulateAll<T>(f: nat -> T, n: nat)
    ensures forall p :: 0 <= p < n ==> Tabulate(f, n)[p] == f(p)
  {
    forall p | 0 <= p < n ensures Tabulate(f, n)[p] == f(p) {
      TabulateAt(f, n, p);
    }
  }

  /** Mapping one more element appends its image. */
  lemma MapSeqSnoc<A, B>(xs: seq<A>, i: nat, f: A -> B)
    requires i < |xs|
    ensures MapSeq(xs[..i + 1], f) == MapSeq(xs[..i], f) + [f(xs[i])]
  {
    assert xs[..i + 1][..i] == xs[..i];
  }

}
