/** The text the post generators produce from a record: the feature sentence of the intro, the
    lines of the main content, and the template's placeholder chain. */
module Render {
  import opened Text
  import opened Markdown

  // ---------------------------------------------------------------- the intro

  /** `[f['name'] for f in features[:3]]`. */
  function ShownNames(fs: seq<Feature>): (names: seq<String>)
    ensures |names| == if |fs| < 3 then |fs| else 3
    ensures forall i :: 0 <= i < |names| ==> names[i] == fs[i].name
  {
    var n := if |fs| < 3 then |fs| else 3;
    seq(n, i requires 0 <= i < n => fs[i].name)
  }

  /** `f" and {n - 3} more"` when there are more than three features, nothing otherwise. */
  function MoreClause(n: nat): (r: String)
    ensures r == [] <==> n <= 3
    ensures n > 3 ==> exists d :: AllDigits(d) && DigitsValue(d) == n - 3 && r == " and " + d + " more"
  {
    if n > 3 then
      var d := NatToString(n - 3);
      NatToStringValue(n - 3);
      " and " + d + " more"
    else []
  }

  const CountLead: String := "This release introduces "
  const NamesLead: String := " major new features, including "

  /** The feature sentence of the intro: the count, the first three names joined by ", " and the
      number of the others; absent when there are no features. */
  function FeatureSentence(fs: seq<Feature>): (r: String)
    ensures r == [] <==> fs == []
  {
    if fs == [] then []
    else CountLead + NatToString(|fs|) + NamesLead + JoinWith(", ", ShownNames(fs)) + MoreClause(|fs|) + ". "
  }

  /** The count the feature sentence states is the number of features, and the names follow it. */
  lemma FeatureCountStated(fs: seq<Feature>)
    requires fs != []
    ensures exists d :: AllDigits(d) && DigitsValue(d) == |fs|
              && |CountLead| + |d| + |NamesLead| <= |FeatureSentence(fs)|
              && FeatureSentence(fs)[..|CountLead| + |d| + |NamesLead|] == CountLead + d + NamesLead
              && FeatureSentence(fs)[|CountLead| + |d| + |NamesLead|..] ==
                   JoinWith(", ", ShownNames(fs)) + MoreClause(|fs|) + ". "
  {
    var d := NatToString(|fs|);
    NatToStringValue(|fs|);
    SplitAfter(CountLead + d + NamesLead, JoinWith(", ", ShownNames(fs)), MoreClause(|fs|), ". ");
  }

  /** A text of four parts splits after the first into it and the other three. */
  lemma SplitAfter(pre: String, x: String, y: String, z: String)
    ensures (pre + x + y + z)[..|pre|] == pre && (pre + x + y + z)[|pre|..] == x + y + z
  {
    assert pre + x + y + z == pre + (x + y + z);
  }

  const IntroMiddle: String :=
    " brings significant updates and " +
    "improvements to the operating " +
    "system. "
  const IntroClosing: String :=
    "The update demonstrates EYN-OS's " +
    "continued commitment to building " +
    "everything from scratch while " +
    "maintaining educational value and " +
    "system performance."

  /** The `intro +=` chain of the release posts, after its lead (`EYN-OS 14`, `EYN-OS Release 14`). */
  function ReleaseIntro(lead: String, fs: seq<Feature>): String
  {
    lead + IntroMiddle + FeatureSentence(fs) + IntroClosing
  }

  // ---------------------------------------------------------------- the main content

  /** An `<h2>` heading line. */
  function H2(t: String): String { "<h2>" + t + "</h2>" }

  /** A `<p>` paragraph line. */
  function Para(t: String): String { "<p>" + t + "</p>" }

  function FeatureLine(f: Feature): String
  {
    "<li><strong>" + f.name + ":</strong> " + f.description + "</li>"
  }

  function ChangeLine(c: String): String
  {
    "<li>" + c + "</li>"
  }

  function FeaturesHeading(): String { H2("New Features") }
  function FeaturesLead(): String { Para("EYN-OS introduces several major new features:") }
  function ChangesHeading(): String { H2("Key Changes") }

  /** One list item per feature, in order. */
  function FeatureItems(fs: seq<Feature>): (items: seq<String>)
    ensures |items| == |fs| && forall i :: 0 <= i < |fs| ==> items[i] == FeatureLine(fs[i])
  {
    seq(|fs|, i requires 0 <= i < |fs| => FeatureLine(fs[i]))
  }

  /** One list item per change, in order. */
  function ChangeItemLines(cs: seq<String>): (items: seq<String>)
    ensures |items| == |cs| && forall i :: 0 <= i < |cs| ==> items[i] == ChangeLine(cs[i])
  {
    seq(|cs|, i requires 0 <= i < |cs| => ChangeLine(cs[i]))
  }

  /** The "New Features" section: a heading, a lead paragraph and one list item per feature, in
      order; no lines at all without features. */
  function FeatureBlock(fs: seq<Feature>): (b: seq<String>)
    ensures b == [] <==> fs == []
    ensures fs != [] ==> |b| == |fs| + 4 && b[0] == FeaturesHeading() && b[2] == "<ul>" && b[|b| - 1] == "</ul>"
    ensures fs != [] ==> forall i :: 0 <= i < |fs| ==> b[i + 3] == FeatureLine(fs[i])
  {
    if fs == [] then [] else [FeaturesHeading(), FeaturesLead(), "<ul>"] + FeatureItems(fs) + ["</ul>"]
  }

  /** The "Key Changes" section: a heading and one list item per change, in order; no lines at all
      without changes. */
  function ChangeBlock(cs: seq<String>): (b: seq<String>)
    ensures b == [] <==> cs == []
    ensures cs != [] ==> |b| == |cs| + 3 && b[0] == ChangesHeading() && b[1] == "<ul>" && b[|b| - 1] == "</ul>"
    ensures cs != [] ==> forall i :: 0 <= i < |cs| ==> b[i + 2] == ChangeLine(cs[i])
  {
    if cs == [] then [] else [ChangesHeading(), "<ul>"] + ChangeItemLines(cs) + ["</ul>"]
  }

  /** The lines of the main content: the fixed opening, the two optional sections, the fixed close. */
  function MainLines(head: seq<String>, fs: seq<Feature>, cs: seq<String>, tail: seq<String>): seq<String>
  {
    head + FeatureBlock(fs) + ChangeBlock(cs) + tail
  }

  /** The loop appending one list item per feature. */
  method AppendFeatureItems(lines: seq<String>, fs: seq<Feature>) returns (out: seq<String>)
    ensures out == lines + FeatureItems(fs)
  {
    out := lines;
    for i := 0 to |fs|
      invariant out == lines + FeatureItems(fs[..i])
    {
      assert fs[..i + 1] == fs[..i] + [fs[i]];
      assert FeatureItems(fs[..i + 1]) == FeatureItems(fs[..i]) + [FeatureLine(fs[i])];
      out := out + [FeatureLine(fs[i])];
    }
    assert fs[..|fs|] == fs;
  }

  /** The loop appending one list item per change. */
  method AppendChangeItems(lines: seq<String>, cs: seq<String>) returns (out: seq<String>)
    ensures out == lines + ChangeItemLines(cs)
  {
    out := lines;
    for i := 0 to |cs|
      invariant out == lines + ChangeItemLines(cs[..i])
    {
      assert cs[..i + 1] == cs[..i] + [cs[i]];
      assert ChangeItemLines(cs[..i + 1]) == ChangeItemLines(cs[..i]) + [ChangeLine(cs[i])];
      out := out + [ChangeLine(cs[i])];
    }
    assert cs[..|cs|] == cs;
  }

  /** The "New Features" lines as the source appends them. */
  method BuildFeatureBlock(fs: seq<Feature>) returns (block: seq<String>)
    ensures block == FeatureBlock(fs)
  {
    block := [];
    if fs != [] {
      block := AppendFeatureItems([FeaturesHeading(), FeaturesLead(), "<ul>"], fs);
      block := block + ["</ul>"];
    }
  }

  /** The "Key Changes" lines as the source appends them. */
  method BuildChangeBlock(cs: seq<String>) returns (block: seq<String>)
    ensures block == ChangeBlock(cs)
  {
    block := [];
    if cs != [] {
      block := AppendChangeItems([ChangesHeading(), "<ul>"], cs);
      block := block + ["</ul>"];
    }
  }

  /** `generate_main_content`: the list of lines built by appends, joined by newlines. */
  method BuildMainContent(head: seq<String>, fs: seq<Feature>, cs: seq<String>, tail: seq<String>) returns (html: String)
    ensures html == JoinWith("\n", MainLines(head, fs, cs, tail))
  {
    var features := BuildFeatureBlock(fs);
    var changes := BuildChangeBlock(cs);
    html := JoinWith("\n", head + features + changes + tail);
  }

  /** A list item line is never a section heading, and the two headings differ. */
  lemma LinesDiffer(f: Feature, c: String)
    ensures FeatureLine(f)[1] == 'l' && ChangeLine(c)[1] == 'l'
    ensures FeaturesHeading()[1] == 'h' && ChangesHeading()[1] == 'h' && FeaturesLead()[1] == 'p'
    ensures FeaturesHeading() != ChangesHeading()
  {
    assert FeaturesHeading()[4] == 'N' && ChangesHeading()[4] == 'K';
  }

  /** The "New Features" heading is among the lines exactly when there are features, and the
      "Key Changes" heading exactly when there are changes, whatever the fixed lines around them. */
  lemma SectionsPresentIff(head: seq<String>, fs: seq<Feature>, cs: seq<String>, tail: seq<String>)
    requires FeaturesHeading() !in head + tail && ChangesHeading() !in head + tail
    ensures FeaturesHeading() in MainLines(head, fs, cs, tail) <==> fs != []
    ensures ChangesHeading() in MainLines(head, fs, cs, tail) <==> cs != []
  {
    FeatureBlockHeadings(fs);
    ChangeBlockHeadings(cs);
    var f, c := FeatureBlock(fs), ChangeBlock(cs);
    assert forall x :: x in MainLines(head, fs, cs, tail) <==> x in head + tail || x in f || x in c;
  }

  /** The features section names its own heading (when it has features) and never the other one. */
  lemma FeatureBlockHeadings(fs: seq<Feature>)
    ensures ChangesHeading() !in FeatureBlock(fs)
    ensures FeaturesHeading() in FeatureBlock(fs) <==> fs != []
  {
    LinesDiffer(Feature([], []), []);
    forall i | 0 <= i < |FeatureBlock(fs)| ensures FeatureBlock(fs)[i] != ChangesHeading() {
      if 3 <= i < |fs| + 3 { LinesDiffer(fs[i - 3], []); }
    }
  }

  /** The changes section names its own heading (when it has changes) and never the other one. */
  lemma ChangeBlockHeadings(cs: seq<String>)
    ensures FeaturesHeading() !in ChangeBlock(cs)
    ensures ChangesHeading() in ChangeBlock(cs) <==> cs != []
  {
    LinesDiffer(Feature([], []), []);
    forall i | 0 <= i < |ChangeBlock(cs)| ensures ChangeBlock(cs)[i] != FeaturesHeading() {
      if 2 <= i < |cs| + 2 { LinesDiffer(Feature([], []), cs[i - 2]); }
    }
  }

  // ---------------------------------------------------------------- the template

  const TitlePlaceholder: String := "BLOG_TITLE"
  const DatePlaceholder: String := "MONTH YEAR"
  const TagsPlaceholder: String := "Tag1, Tag2, Tag3"
  const IntroPlaceholder: String := "INTRODUCTION_PARAGRAPH"
  const ContentPlaceholder: String := "<!-- CONTENT_PLACEHOLDER -->"

  /** The five `template.replace` calls, in the order the generators make them. */
  function FillTemplate(template: String, title: String, date: String, tags: String, intro: String, main: String): String
  {
    var t1 := ReplaceAll(template, TitlePlaceholder, title);
    var t2 := ReplaceAll(t1, DatePlaceholder, date);
    var t3 := ReplaceAll(t2, TagsPlaceholder, tags);
    var t4 := ReplaceAll(t3, IntroPlaceholder, intro);
    ReplaceAll(t4, ContentPlaceholder, main)
  }

  /** A template without any placeholder comes out unchanged. */
  lemma FillWithoutPlaceholders(template: String, title: String, date: String, tags: String, intro: String, main: String)
    requires !Contains(template, TitlePlaceholder) && !Contains(template, DatePlaceholder)
    requires !Contains(template, TagsPlaceholder) && !Contains(template, IntroPlaceholder)
    requires !Contains(template, ContentPlaceholder)
    ensures FillTemplate(template, title, date, tags, intro, main) == template
  {
    ReplaceAbsent(template, TitlePlaceholder, title);
    ReplaceAbsent(template, DatePlaceholder, date);
    ReplaceAbsent(template, TagsPlaceholder, tags);
    ReplaceAbsent(template, IntroPlaceholder, intro);
    ReplaceAbsent(template, ContentPlaceholder, main);
  }

  /** The last step puts the main content between the pieces the content placeholder cuts the
      text into, so no content placeholder is left unless the content itself brings one. */
  lemma FillLastStep(template: String, title: String, date: String, tags: String, intro: String, main: String)
    ensures var t4 := ReplaceAll(ReplaceAll(ReplaceAll(ReplaceAll(template, TitlePlaceholder, title), DatePlaceholder, date),
                                            TagsPlaceholder, tags), IntroPlaceholder, intro);
      var pieces := Split(t4, ContentPlaceholder, -1);
      && JoinWith(ContentPlaceholder, pieces) == t4
      && (forall k :: 0 <= k < |pieces| ==> !Contains(pieces[k], ContentPlaceholder))
      && FillTemplate(template, title, date, tags, intro, main) == JoinWith(main, pieces)
  {
    var t4 := ReplaceAll(ReplaceAll(ReplaceAll(ReplaceAll(template, TitlePlaceholder, title), DatePlaceholder, date),
                                    TagsPlaceholder, tags), IntroPlaceholder, intro);
    ReplaceAllMeaning(t4, ContentPlaceholder, main);
  }

  // ---------------------------------------------------------------- the page

  /** A post page: the template with its five placeholders filled, the main content last. */
  function Page(template: String, title: String, date: String, tags: String, intro: String,
                head: seq<String>, fs: seq<Feature>, cs: seq<String>, tail: seq<String>): String
  {
    FillTemplate(template, title, date, tags, intro, JoinWith("\n", MainLines(head, fs, cs, tail)))
  }

  /** The replace chain every generator runs on the template, in this order. */
  method Fill(template: String, title: String, date: String, tags: String, intro: String, main: String)
    returns (html: String)
    ensures html == FillTemplate(template, title, date, tags, intro, main)
  {
    html := ReplaceAll(template, TitlePlaceholder, title);
    html := ReplaceAll(html, DatePlaceholder, date);
    html := ReplaceAll(html, TagsPlaceholder, tags);
    html := ReplaceAll(html, IntroPlaceholder, intro);
    html := ReplaceAll(html, ContentPlaceholder, main);
  }

  /** The replace chain of `generate_blog_post`, with the main content built line by line. */
  method BuildPage(template: String, title: String, date: String, tags: String, intro: String,
                   head: seq<String>, fs: seq<Feature>, cs: seq<String>, tail: seq<String>)
    returns (html: String)
    ensures html == Page(template, title, date, tags, intro, head, fs, cs, tail)
  {
    var main := BuildMainContent(head, fs, cs, tail);
    html := Fill(template, title, date, tags, intro, main);
  }
}
