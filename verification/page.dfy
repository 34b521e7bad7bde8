/* What the page shows for an answer of the handler: the report the
   back end writes (main.py) read back by the front end's renderReport
   (App.jsx). */
module Page {
  import opened Results
  import opened Articles
  import opened Collection
  import opened Report
  import opened ReportView
  import opened RoundTrip
  import opened ReadBack
  import opened Orchestrator

  /** Each of the first seven ranked articles is summarised, and the
      section written for it can be read back. */
  predicate TopRenderable(ranked: seq<Article>, summarise: string -> Result<Summary, string>) {
    forall k :: 0 <= k < |ranked| && k < ReportLimit ==>
      summarise(Content(ranked[k])).Success?
      && Renderable(FieldsOf(ranked[k], summarise(Content(ranked[k])).value))
  }

  /** The report written from the first seven ranked articles shows one
      section per article, in ranked order, each the view of the fields
      written for it. */
  lemma ReportShows(ranked: seq<Article>, summarise: string -> Result<Summary, string>)
    requires TopRenderable(ranked, summarise)
    ensures AllSummarised(Take(ranked, ReportLimit), summarise)
    ensures var content := ReportText(SummariseAll(Take(ranked, ReportLimit), summarise).value);
            && RenderReport(content).Some?
            && |RenderReport(content).value| == (if |ranked| <= ReportLimit then |ranked| else ReportLimit)
            && forall k :: 0 <= k < |RenderReport(content).value| ==>
                 RenderReport(content).value[k] == ViewFor(FieldsOf(ranked[k], summarise(Content(ranked[k])).value))
  {
    TopSummarised(ranked, summarise);
    var fs := TopFields(ranked, summarise);
    RenderWrittenReport(fs);
    ViewsMatch(ParseSections(Pieces(fs)), fs, ranked, summarise);
  }

  /** Articles whose sections can be read back were all summarised. */
  lemma TopSummarised(ranked: seq<Article>, summarise: string -> Result<Summary, string>)
    requires TopRenderable(ranked, summarise)
    ensures AllSummarised(Take(ranked, ReportLimit), summarise)
  {
    var top := Take(ranked, ReportLimit);
    forall i | 0 <= i < |top| ensures summarise(Content(top[i])).Success? {
      assert top[i] == ranked[i];
    }
  }

  /** Views of the written fields are views of the ranked articles' fields. */
  lemma ViewsMatch(views: seq<ViewSection>, fs: seq<SectionFields>, ranked: seq<Article>,
                   summarise: string -> Result<Summary, string>)
    requires |views| == |fs| <= |ranked|
    requires forall k :: 0 <= k < |fs| ==> views[k] == ViewFor(fs[k])
    requires forall k :: 0 <= k < |fs| ==>
               summarise(Content(ranked[k])).Success?
               && fs[k] == FieldsOf(ranked[k], summarise(Content(ranked[k])).value)
    ensures forall k :: 0 <= k < |views| ==>
              views[k] == ViewFor(FieldsOf(ranked[k], summarise(Content(ranked[k])).value))
  {
    forall k | 0 <= k < |views|
      ensures views[k] == ViewFor(FieldsOf(ranked[k], summarise(Content(ranked[k])).value))
    {
      assert views[k] == ViewFor(fs[k]);
    }
  }

  /** The fields written for the first seven ranked articles: each can be
      read back and is the fields of the article at its rank. */
  function TopFields(ranked: seq<Article>, summarise: string -> Result<Summary, string>)
    : (fs: seq<SectionFields>)
    requires TopRenderable(ranked, summarise)
    requires AllSummarised(Take(ranked, ReportLimit), summarise)
    ensures fs == SummariseAll(Take(ranked, ReportLimit), summarise).value
    ensures |fs| == if |ranked| <= ReportLimit then |ranked| else ReportLimit
    ensures forall k :: 0 <= k < |fs| ==> Renderable(fs[k])
    ensures forall k :: 0 <= k < |fs| ==>
              summarise(Content(ranked[k])).Success?
              && fs[k] == FieldsOf(ranked[k], summarise(Content(ranked[k])).value)
  {
    var top := Take(ranked, ReportLimit);
    var fs := SummariseAll(top, summarise).value;
    assert forall k :: 0 <= k < |fs| ==> top[k] == ranked[k];
    fs
  }

  /** End to end: a successful answer without articles shows no report; one
      with articles shows min(n, 7) sections, the k-th being the view of
      the k-th ranked article with its summary. */
  lemma PageShowsAnswer(req: Request, svc: Services)
    requires ProcessRequest(req, svc).status == "success"
    requires TopRenderable(ProcessRequest(req, svc).articles, svc.summarise)
    ensures var r := ProcessRequest(req, svc);
            |r.articles| == 0 ==> RenderReport(r.reportContent).None?
    ensures var r := ProcessRequest(req, svc);
            |r.articles| > 0 ==>
              && RenderReport(r.reportContent).Some?
              && |RenderReport(r.reportContent).value|
                 == (if |r.articles| <= ReportLimit then |r.articles| else ReportLimit)
              && forall k :: 0 <= k < |RenderReport(r.reportContent).value| ==>
                   RenderReport(r.reportContent).value[k]
                   == ViewFor(FieldsOf(r.articles[k], svc.summarise(Content(r.articles[k])).value))
  {
    var r := ProcessRequest(req, svc);
    if |r.articles| > 0 {
      ReportShows(r.articles, svc.summarise);
    }
  }
}
