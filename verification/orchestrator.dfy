/** The request handler of backend/main.py (`process_request_endpoint`):
    collect articles, score each with the relevance classifier, rank them,
    write the report from the top seven, and shape the response. Any
    exception raised by the classifier or the summary generator becomes an
    error response carrying the exception's text.
 */
module Orchestrator {
  import opened Results
  import opened Text
  import opened TextLemmas
  import opened Articles
  import opened Collection
  import opened Ranking
  import opened Report

  datatype Request = Request(recipientEmail: string, keywords: seq<string>, dateFilter: string)

  /** The response dictionary; `status` is "success" or "error". */
  datatype Response = Response(status: string, articles: seq<Article>, reportContent: string, message: string)

  /** The external collaborators. `classify(content, context)` and
      `summarise(content)` either answer or raise with a message. */
  datatype Services = Services(
    search: SearchRequest -> SearchReply,
    fetch: string -> FetchReply,
    classify: (string, string) -> Result<real, string>,
    summarise: string -> Result<Summary, string>)

  const NoArticlesMessage: string := "No new articles were found for your selected keywords."

  const ContextIntro: string :=
    "A relevant article discusses federal activities like new grants, programs, or policy "
    + "affecting universities and innovation ecosystems related to "

  /** The response when collection finds nothing: a success, not an error. */
  const NoArticles: Response := Response("success", [], "", NoArticlesMessage)

  function ErrorResponse(message: string): Response {
    Response("error", [], "", message)
  }

  function SuccessMessage(n: nat): string {
    "Success! Generated a report from " + NatToString(n) + " articles."
  }

  /** The classifier's relevance context: a fixed sentence ending in the
      keywords joined by ", " and a full stop. */
  function RelevanceContext(keywords: seq<string>): string {
    ContextIntro + Join(keywords, ", ") + "."
  }

  /** The keywords can be read back from the end of the context when none
      contains a comma. */
  lemma RelevanceContextNamesKeywords(keywords: seq<string>)
    requires |keywords| > 0
    requires forall i :: 0 <= i < |keywords| ==> ',' !in keywords[i]
    ensures var c := RelevanceContext(keywords);
            StartsWith(c, ContextIntro) && c[|c| - 1] == '.'
            && Split(c[|ContextIntro|..|c| - 1], ", ") == keywords
  {
    var c := RelevanceContext(keywords);
    StartsWithPrefix(ContextIntro, Join(keywords, ", ") + ".");
    assert c == ContextIntro + (Join(keywords, ", ") + ".");
    assert c[|ContextIntro|..|c| - 1] == Join(keywords, ", ");
    forall i | 0 <= i < |keywords|
      ensures Clean(keywords[i], ", ")
    {
      CleanByFirstChar(keywords[i], ", ");
    }
    SplitJoin(keywords, ", ");
  }

  /** The classifier answers for every article. */
  predicate AllScored(xs: seq<Article>, context: string, classify: (string, string) -> Result<real, string>) {
    forall i :: 0 <= i < |xs| ==> classify(Content(xs[i]), context).Success?
  }

  /** The sequential scoring loop: every article gets the classifier's score
      for its content; the first exception aborts the loop. */
  function ScoreAll(xs: seq<Article>, context: string, classify: (string, string) -> Result<real, string>)
    : (r: Result<seq<Article>, string>)
    ensures r.Success? <==> AllScored(xs, context, classify)
    ensures r.Success? ==> |r.value| == |xs| && forall i :: 0 <= i < |xs| ==>
              r.value[i] == xs[i].(score := Some(classify(Content(xs[i]), context).value))
    ensures r.Failure? ==> (exists i :: 0 <= i < |xs| && classify(Content(xs[i]), context) == Failure(r.error)
                                && forall j :: 0 <= j < i ==> classify(Content(xs[j]), context).Success?)
  {
    if |xs| == 0 then Success([])
    else match classify(Content(xs[0]), context)
      case Failure(e) => Failure(e)
      case Success(s) =>
        match ScoreAll(xs[1..], context, classify)
        case Failure(e) =>
          ghost var i :| 0 <= i < |xs[1..]| && classify(Content(xs[1..][i]), context) == Failure(e)
              && forall j :: 0 <= j < i ==> classify(Content(xs[1..][j]), context).Success?;
          assert classify(Content(xs[i + 1]), context) == Failure(e);
          Failure(e)
        case Success(rest) => Success([xs[0].(score := Some(s))] + rest)
  }

  /** The summary generator answers for every article. */
  predicate AllSummarised(xs: seq<Article>, summarise: string -> Result<Summary, string>) {
    forall i :: 0 <= i < |xs| ==> summarise(Content(xs[i])).Success?
  }

  /** The report loop: one summary per article, in ranked order; the first
      exception aborts the loop and discards the partial report. */
  function SummariseAll(xs: seq<Article>, summarise: string -> Result<Summary, string>)
    : (r: Result<seq<SectionFields>, string>)
    ensures r.Success? <==> AllSummarised(xs, summarise)
    ensures r.Success? ==> |r.value| == |xs| && forall i :: 0 <= i < |xs| ==>
              r.value[i] == FieldsOf(xs[i], summarise(Content(xs[i])).value)
    ensures r.Failure? ==> (exists i :: 0 <= i < |xs| && summarise(Content(xs[i])) == Failure(r.error)
                                && forall j :: 0 <= j < i ==> summarise(Content(xs[j])).Success?)
  {
    if |xs| == 0 then Success([])
    else match summarise(Content(xs[0]))
      case Failure(e) => Failure(e)
      case Success(s) =>
        match SummariseAll(xs[1..], summarise)
        case Failure(e) =>
          ghost var i :| 0 <= i < |xs[1..]| && summarise(Content(xs[1..][i])) == Failure(e)
              && forall j :: 0 <= j < i ==> summarise(Content(xs[1..][j])).Success?;
          assert summarise(Content(xs[i + 1])) == Failure(e);
          Failure(e)
        case Success(rest) => Success([FieldsOf(xs[0], s)] + rest)
  }

  /** Writing the report from the ranked articles and answering. */
  function Answer(ranked: seq<Article>, summarise: string -> Result<Summary, string>): (r: Response)
    ensures r.status == "success" || r.status == "error"
    ensures r.status == "error" ==> r.articles == [] && r.reportContent == ""
    ensures r.status == "success" <==> AllSummarised(Take(ranked, ReportLimit), summarise)
    ensures r.status == "success" ==> r.articles == ranked && r.message == SuccessMessage(|ranked|)
    ensures r.status == "success" ==>
              r.reportContent == ReportText(SummariseAll(Take(ranked, ReportLimit), summarise).value)
    ensures r.status == "error" ==> r.message == SummariseAll(Take(ranked, ReportLimit), summarise).error
  {
    match SummariseAll(Take(ranked, ReportLimit), summarise)
    case Failure(e) => ErrorResponse(e)
    case Success(fields) => Response("success", ranked, ReportText(fields), SuccessMessage(|ranked|))
  }

  /** Every scored article keeps its content and link and carries a score. */
  predicate Ready(xs: seq<Article>) {
    forall i :: 0 <= i < |xs| ==> xs[i].score.Some? && HasContent(xs[i]) && HasLink(xs[i])
  }

  /** The ranking of the collected articles once every one is scored. */
  function Ranked(found: seq<Article>, keywords: seq<string>,
                  classify: (string, string) -> Result<real, string>): seq<Article>
    requires AllScored(found, RelevanceContext(keywords), classify)
  {
    SortByScore(ScoreAll(found, RelevanceContext(keywords), classify).value)
  }

  /** Every classifier call returns, and so does every summary call for the
      first seven of the ranking: the handler gets through without an
      exception. */
  predicate Completes(found: seq<Article>, keywords: seq<string>,
                      classify: (string, string) -> Result<real, string>,
                      summarise: string -> Result<Summary, string>) {
    && AllScored(found, RelevanceContext(keywords), classify)
    && AllSummarised(Take(Ranked(found, keywords, classify), ReportLimit), summarise)
  }

  /** What the handler does with the collected articles: score, rank,
      summarise the top seven and answer. The answer is a success exactly
      when no call raises; otherwise its message is the first exception's
      text. */
  function Respond(found: seq<Article>, keywords: seq<string>,
                   classify: (string, string) -> Result<real, string>,
                   summarise: string -> Result<Summary, string>): (r: Response)
    requires forall i :: 0 <= i < |found| ==> HasContent(found[i]) && HasLink(found[i])
    ensures r.status == "success" || r.status == "error"
    ensures r.status == "error" ==> r.articles == [] && r.reportContent == ""
    ensures |found| == 0 ==> r == NoArticles
    ensures r.status == "success" <==> Completes(found, keywords, classify, summarise)
    ensures !AllScored(found, RelevanceContext(keywords), classify) ==>
              r.message == ScoreAll(found, RelevanceContext(keywords), classify).error
    ensures AllScored(found, RelevanceContext(keywords), classify) && !Completes(found, keywords, classify, summarise) ==>
              r.message == SummariseAll(Take(Ranked(found, keywords, classify), ReportLimit), summarise).error
    ensures r.status == "success" && |found| > 0 ==>
              |r.articles| == |found| && r.message == SuccessMessage(|found|)
    ensures r.status == "success" ==> SortedDesc(r.articles)
    ensures r.status == "success" && |found| > 0 ==> r.articles == Ranked(found, keywords, classify)
    ensures r.status == "success" && |found| > 0 ==>
              && AllSummarised(Take(r.articles, ReportLimit), summarise)
              && r.reportContent == ReportText(SummariseAll(Take(r.articles, ReportLimit), summarise).value)
    ensures Ready(r.articles)
  {
    if |found| == 0 then NoArticles
    else match ScoreAll(found, RelevanceContext(keywords), classify)
      case Failure(e) => ErrorResponse(e)
      case Success(scored) =>
        assert Ready(scored) by {
          forall i | 0 <= i < |scored|
            ensures scored[i].score.Some? && HasContent(scored[i]) && HasLink(scored[i])
          {
            assert HasContent(found[i]) && HasLink(found[i]);
            assert scored[i] == found[i].(score := Some(classify(Content(found[i]), RelevanceContext(keywords)).value));
          }
        }
        var ranked := SortByScore(scored);
        RankedReady(scored, ranked);
        Answer(ranked, summarise)
  }

  /** The articles the collection step hands to the handler. */
  function Found(req: Request, svc: Services): (found: seq<Article>)
    ensures |req.keywords| == 0 ==> found == []
    ensures |found| <= ScrapeLimit
    ensures forall i :: 0 <= i < |found| ==> HasContent(found[i]) && HasLink(found[i])
  {
    Collect(req.keywords, req.dateFilter, svc.search, svc.fetch).articles
  }

  /** `process_request_endpoint`: collection, then Respond. The answer is a
      success exactly when no classifier or summary call raises, and an
      error carries the first exception's text. A success with articles
      lists the collected articles scored and ranked, and its report is the
      one written from the first seven of them. */
  function ProcessRequest(req: Request, svc: Services): (r: Response)
    ensures r.status == "success" || r.status == "error"
    ensures r.status == "error" ==> r.articles == [] && r.reportContent == ""
    ensures |req.keywords| == 0 ==> r == NoArticles
    ensures r.status == "success" ==> SortedDesc(r.articles) && |r.articles| <= ScrapeLimit
    ensures r.status == "success" && |r.articles| == 0 ==> r == NoArticles
    ensures r.status == "success" <==> Completes(Found(req, svc), req.keywords, svc.classify, svc.summarise)
    ensures !AllScored(Found(req, svc), RelevanceContext(req.keywords), svc.classify) ==>
              r.message == ScoreAll(Found(req, svc), RelevanceContext(req.keywords), svc.classify).error
    ensures && AllScored(Found(req, svc), RelevanceContext(req.keywords), svc.classify)
            && !Completes(Found(req, svc), req.keywords, svc.classify, svc.summarise) ==>
              r.message == SummariseAll(Take(Ranked(Found(req, svc), req.keywords, svc.classify), ReportLimit), svc.summarise).error
    ensures r.status == "success" && |r.articles| > 0 ==>
              r.articles == Ranked(Found(req, svc), req.keywords, svc.classify)
    ensures r.status == "success" && |r.articles| > 0 ==>
              && AllSummarised(Take(r.articles, ReportLimit), svc.summarise)
              && r.reportContent == ReportText(SummariseAll(Take(r.articles, ReportLimit), svc.summarise).value)
    ensures Ready(r.articles)
  {
    var found := Found(req, svc);
    var r := Respond(found, req.keywords, svc.classify, svc.summarise);
    assert |found| == 0 ==> r == NoArticles;
    assert r.status == "success" && |found| > 0 ==> |r.articles| == |found|;
    r
  }

  /** A search that yields nothing to scrape is answered like an empty
      keyword list: a success with no articles, no report and the
      explanatory message. */
  lemma NoResultsAnswersNoArticles(req: Request, svc: Services)
    requires |req.keywords| > 0
    requires |ToScrape(svc.search(RequestFor(req.keywords, req.dateFilter)))| == 0
    ensures ProcessRequest(req, svc) == NoArticles
  {
    assert Found(req, svc) == [];
  }

  /** Ranking moves articles but does not change them. */
  lemma RankedReady(scored: seq<Article>, ranked: seq<Article>)
    requires multiset(ranked) == multiset(scored) && Ready(scored)
    ensures Ready(ranked)
  {
    forall i | 0 <= i < |ranked|
      ensures ranked[i].score.Some? && HasContent(ranked[i]) && HasLink(ranked[i])
    {
      assert ranked[i] in multiset(ranked);
      var k :| 0 <= k < |scored| && scored[k] == ranked[i];
    }
  }
}
