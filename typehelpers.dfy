/** The names the whole project agrees on, and the article record that becomes a
    `WikiData` node. */
module TypeHelpers {
  import opened Values

  /** Label of Wikipedia article nodes. */
  const WikiDataLabel: string := "WikiData"
  /** Label of the edges between article nodes. */
  const HyperlinksLabel: string := "HYPERLINKS"
  /** Name of the full-text index over article content. */
  const FullTextIndex: string := "ArticleContentIndex"

  /** `ArticleData`: one article as fetched from Wikipedia. */
  datatype ArticleData = ArticleData(
    title: string, url: string, content: string, links: seq<string>, html: string, topic: string)

  /** The constructor: the five fetched fields, and a topic that starts as the empty string
      (never null, since the store refuses null properties). */
  function NewArticle(title: string, url: string, content: string, links: seq<string>, html: string)
    : (a: ArticleData)
    ensures a.topic == ""
    ensures Fields(a)[5] == ("topic", Str(""))
  {
    ArticleData(title, url, content, links, html, "")
  }

  /** The object's `__dict__`, which is what gets pushed as the node's properties: its
      attributes in the order the constructor assigns them. */
  function Fields(a: ArticleData): (b: Bag)
    ensures Keys(b) == ["title", "url", "content", "links", "html", "topic"]
  {
    [("title", Str(a.title)), ("url", Str(a.url)), ("content", Str(a.content)),
     ("links", StrList(a.links)), ("html", Str(a.html)), ("topic", Str(a.topic))]
  }

  /** Reads an article back from a node's property map: every field present, with the type
      the constructor gives it. */
  function FromProps(m: map<string, Value>): (r: Option<ArticleData>)
    ensures r.Some? ==> "title" in m && m["title"] == Str(r.value.title)
    ensures r.Some? ==> "topic" in m && m["topic"] == Str(r.value.topic)
  {
    if "title" in m && m["title"].Str? && "url" in m && m["url"].Str?
      && "content" in m && m["content"].Str? && "links" in m && m["links"].StrList?
      && "html" in m && m["html"].Str? && "topic" in m && m["topic"].Str?
    then Some(ArticleData(m["title"].s, m["url"].s, m["content"].s, m["links"].items,
                          m["html"].s, m["topic"].s))
    else None
  }

  /** The `__dict__` is a props dict the client accepts (six distinct identifier keys), and
      the node it becomes holds the whole article: reading the node back gives the article. */
  lemma FieldsRoundTrip(a: ArticleData)
    ensures ValidBag(Fields(a))
    ensures FromProps(ToMap(Fields(a))) == Some(a)
  {
    FieldsValid(a);
    var b := Fields(a);
    ToMapAt(b, 0); ToMapAt(b, 1); ToMapAt(b, 2);
    ToMapAt(b, 3); ToMapAt(b, 4); ToMapAt(b, 5);
  }

  lemma FieldsValid(a: ArticleData)
    ensures ValidBag(Fields(a))
  {
    FieldNames();
  }

  /** The six attribute names are identifiers. */
  lemma FieldNames()
    ensures IsName("title") && IsName("url") && IsName("content")
    ensures IsName("links") && IsName("html") && IsName("topic")
  {
  }
}
