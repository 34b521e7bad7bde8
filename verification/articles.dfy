/** The article record that flows through the pipeline. In the source it is
    one mutable dictionary per search hit, to which the scraper adds
    `full_content` and the request handler adds `relevance_score`; here it is
    an immutable value and each stage returns an updated copy.
 */
module Articles {
  import opened Results

  /** A search hit. An absent dictionary key is None. `content` is the
      scraped `full_content` (None when the key is absent or holds None) and
      `score` the classifier's `relevance_score`. */
  datatype Article = Article(
    link: Option<string>,
    title: Option<string>,
    source: Option<string>,
    content: Option<string>,
    score: Option<real>)

  /** `article.get('link')` is truthy: present and non-empty. */
  predicate HasLink(a: Article) {
    a.link.Some? && a.link.value != ""
  }

  /** `article.get('full_content')` is truthy: present, not None, non-empty. */
  predicate HasContent(a: Article) {
    a.content.Some? && a.content.value != ""
  }

  /** `article.get('full_content', '')`. */
  function Content(a: Article): string {
    a.content.GetOr("")
  }

  /** `article.get('relevance_score', 0)`, the sort key. */
  function Score(a: Article): real {
    a.score.GetOr(0.0)
  }

  /** The set of non-empty links among `xs`. */
  function LinkSet(xs: seq<Article>): set<string> {
    set a | a in xs && HasLink(a) :: a.link.value
  }

  /** No two records of `xs` share a link. */
  predicate LinksDistinct(xs: seq<Article>) {
    forall i, j :: 0 <= i < j < |xs| ==> xs[i].link != xs[j].link
  }
}
