/** The `<article>` entry every generator writes into the blog index for one post: the same
    template in advanced-blog-generator.py, blog-generator.py and dynamic-blog-index.py, filled
    with different dates, tags and excerpts. */
module IndexEntry {
  import opened Text

  /** The five values an index entry shows. */
  datatype Entry = Entry(filename: String, title: String, date: String, tags: String, excerpt: String)

  /** An f-string: the literal pieces with one value after each piece but the last. */
  function Interleave(pieces: seq<String>, values: seq<String>): String
  {
    if pieces == [] then []
    else if |pieces| == 1 || values == [] then pieces[0]
    else pieces[0] + values[0] + Interleave(pieces[1..], values[1..])
  }

  /** The literal text of the entry template, between its six values. */
  const EntryPieces: seq<String> := [
    "<article class=\"blog-post\">\n" +
    "            <header class=\"post-header\">\n" +
    "                <h2><a href=\"blog/",
    "\">",
    "</a></h2>\n" +
    "                <div class=\"post-meta\">\n" +
    "                    <span class=\"post-date\">",
    "</span>\n" +
    "                    <span class=\"post-tags\">",
    "</span>\n" +
    "                </div>\n" +
    "            </header>\n" +
    "            <div class=\"post-excerpt\">\n" +
    "                <p>",
    "</p>\n" +
    "                <p><a href=\"blog/",
    "\" class=\"read-more\">Read Full Post \U{2192}</a></p>\n" +
    "            </div>\n" +
    "        </article>"]

  /** The rendered `<article class="blog-post">` block; the post is linked twice, by its title and
      by the "Read Full Post" link. */
  function EntryHtml(e: Entry): String
  {
    Interleave(EntryPieces, [e.filename, e.title, e.date, e.tags, e.excerpt, e.filename])
  }
}
