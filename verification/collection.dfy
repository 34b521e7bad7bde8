/** The collection pipeline of backend/data_collection.py: one boolean news
    query built from the keywords, one call to the search service, first-seen
    de-duplication by link, a cap of seven records, one scrape per record and
    a filter that keeps the records whose scrape produced text.

    The search service and the page fetcher are parameters. A run returns,
    next to the articles, the requests it issued, so that "no call was made"
    is a statement about the result.
 */
module Collection {
  import opened Results
  import opened Text
  import opened TextLemmas
  import opened Articles

  const FundingTerms: string :=
    "\"university research funding\" OR \"federal grant\" OR \"innovation ecosystem\" OR \"R&D policy\""
  const SiteTerms: string := "site:.gov OR site:.edu OR site:.org"
  const Exclusions: string := "-jobs -admissions -curriculum"

  /** Everything of the query that follows the keyword disjunction. */
  const QueryTail: string := ") AND (" + FundingTerms + ") AND (" + SiteTerms + ") " + Exclusions

  /** At most this many de-duplicated records are scraped. */
  const ScrapeLimit: nat := 7

  /** Paragraph text shorter than this is replaced by the whole body text. */
  const MinParagraphText: nat := 200

  // ---------------------------------------------------------------- query

  function Quote(k: string): string {
    "\"" + k + "\""
  }

  function QuoteAll(ks: seq<string>): (r: seq<string>)
    ensures |r| == |ks|
    ensures forall i :: 0 <= i < |ks| ==> r[i] == Quote(ks[i])
  {
    if |ks| == 0 then [] else [Quote(ks[0])] + QuoteAll(ks[1..])
  }

  /** The single union query: every keyword as an exact phrase, OR-ed in
      input order, AND-ed with the funding terms and the site scopes, then
      the excluded words. */
  function BuildQuery(keywords: seq<string>): (q: string)
    ensures |keywords| == 0 ==> q == "(" + QueryTail
    ensures |keywords| > 0 ==> q == "(\"" + Join(keywords, "\" OR \"") + "\"" + QueryTail
  {
    var q := "(" + Join(QuoteAll(keywords), " OR ") + QueryTail;
    assert |keywords| > 0 ==> q == "(\"" + Join(keywords, "\" OR \"") + "\"" + QueryTail by {
      if |keywords| > 0 {
        JoinQuoted(keywords);
      }
    }
    q
  }

  /** Reads the keyword list back out of a query built by BuildQuery. */
  function ParseQuery(q: string): Option<seq<string>> {
    if |q| >= 3 + |QueryTail| && q[..2] == "(\"" && q[|q| - |QueryTail| - 1..] == "\"" + QueryTail
    then Some(Split(q[2..|q| - |QueryTail| - 1], "\" OR \""))
    else None
  }

  lemma {:induction false} JoinQuoted(ks: seq<string>)
    requires |ks| > 0
    ensures Join(QuoteAll(ks), " OR ") == "\"" + Join(ks, "\" OR \"") + "\""
    decreases |ks|
  {
    if |ks| > 1 {
      var q, j := "\"", Join(ks[1..], "\" OR \"");
      JoinQuoted(ks[1..]);
      assert Join(QuoteAll(ks), " OR ") == Quote(ks[0]) + " OR " + (q + j + q) by {
        assert QuoteAll(ks)[1..] == QuoteAll(ks[1..]);
      }
      assert Join(ks, "\" OR \"") == ks[0] + "\" OR \"" + j;
      QuoteGlue(ks[0], j, q, " OR ", "\" OR \"");
    }
  }

  lemma QuoteGlue(a: string, j: string, q: string, o: string, qoq: string)
    requires q == "\"" && qoq == q + o + q
    ensures "\"" + a + "\"" + o + (q + j + q) == q + (a + qoq + j) + q
  {
  }

  /** The query names every keyword, in order, and nothing else: a keyword
      list without double quotes is recovered from the query exactly, and
      the empty list (which never reaches the search) gives no keyword list. */
  lemma QueryRoundTrip(ks: seq<string>)
    requires forall i :: 0 <= i < |ks| ==> '"' !in ks[i]
    ensures ParseQuery(BuildQuery(ks)) == if |ks| == 0 then None else Some(ks)
  {
    var q := BuildQuery(ks);
    if |ks| > 0 {
      var body := Join(ks, "\" OR \"");
      ConcatAssoc("(\"" + body, "\"", QueryTail);
      assert q == "(\"" + body + ("\"" + QueryTail);
      assert q[..2] == "(\"";
      assert q[|q| - |QueryTail| - 1..] == "\"" + QueryTail;
      assert q[2..|q| - |QueryTail| - 1] == body;
      forall i | 0 <= i < |ks|
        ensures Clean(ks[i], "\" OR \"")
      {
        CleanByFirstChar(ks[i], "\" OR \"");
      }
      SplitJoin(ks, "\" OR \"");
    } else {
      assert q[1] == ')';
    }
  }

  // --------------------------------------------------------------- search

  /** The request body sent to the news endpoint: the query and the date
      range code `qdr:<filter>`. */
  datatype SearchRequest = SearchRequest(query: string, tbs: string)

  /** What the search call produced: a decoded response (its `news` field,
      None when the field is absent) or a raised exception. */
  datatype SearchReply = Replied(news: Option<seq<Article>>) | SearchFailed(reason: string)

  function RequestFor(keywords: seq<string>, dateFilter: string): SearchRequest {
    SearchRequest(BuildQuery(keywords), "qdr:" + dateFilter)
  }

  /** The records `_run_single_search` returns: the `news` list, or nothing
      when the field is absent or the call failed. It never fails itself. */
  function SearchResults(reply: SearchReply): (news: seq<Article>)
    ensures reply.SearchFailed? ==> news == []
    ensures reply.Replied? && reply.news.None? ==> news == []
    ensures reply.Replied? && reply.news.Some? ==> news == reply.news.value
  {
    match reply
    case Replied(news) => news.GetOr([])
    case SearchFailed(_) => []
  }

  // ---------------------------------------------------------- dedup/limit

  lemma LinkSetCons(x: Article, rest: seq<Article>)
    ensures LinkSet([x] + rest) == LinkSet(rest) + (if HasLink(x) then {x.link.value} else {})
  {
    var xs := [x] + rest;
    forall l | l in LinkSet(xs)
      ensures l in LinkSet(rest) + (if HasLink(x) then {x.link.value} else {})
    {
      var a :| a in xs && HasLink(a) && a.link.value == l;
      if a != x {
        assert a in rest;
      }
    }
  }

  lemma LinkSetSnoc(xs: seq<Article>, x: Article)
    ensures LinkSet(xs + [x]) == LinkSet(xs) + (if HasLink(x) then {x.link.value} else {})
  {
    var ys := xs + [x];
    forall l | l in LinkSet(ys)
      ensures l in LinkSet(xs) + (if HasLink(x) then {x.link.value} else {})
    {
      var a :| a in ys && HasLink(a) && a.link.value == l;
      if a != x {
        assert a in xs;
      }
    }
  }

  /** The loop over search results that fills `combined_articles`: a record
      is kept when it has a link not yet in `seen`, and its link is added. */
  function DedupFrom(rs: seq<Article>, seen: set<string>): (r: seq<Article>)
    ensures forall k :: 0 <= k < |r| ==> HasLink(r[k]) && r[k].link.value !in seen
    ensures LinksDistinct(r)
    ensures LinkSet(r) == LinkSet(rs) - seen
    ensures forall k :: 0 <= k < |r| ==> r[k] in rs
    decreases |rs|
  {
    if |rs| == 0 then []
    else
      var x := rs[0];
      LinkSetCons(x, rs[1..]);
      assert rs == [x] + rs[1..];
      if HasLink(x) && x.link.value !in seen then
        var tail := DedupFrom(rs[1..], seen + {x.link.value});
        LinkSetCons(x, tail);
        [x] + tail
      else
        DedupFrom(rs[1..], seen)
  }

  /** `list(combined_articles.values())`: the records in first-seen order. */
  function Dedup(rs: seq<Article>): (r: seq<Article>)
    ensures forall k :: 0 <= k < |r| ==> HasLink(r[k])
    ensures LinksDistinct(r)
    ensures LinkSet(r) == LinkSet(rs)
  {
    DedupFrom(rs, {})
  }

  /** Record i is the first one carrying its (non-empty) link. */
  predicate IsFirstWithLink(rs: seq<Article>, i: nat)
    requires i < |rs|
  {
    HasLink(rs[i]) && forall j :: 0 <= j < i ==> rs[j].link != rs[i].link
  }

  /** Reference definition of de-duplication: the records, from index `from`
      on, that are the first with their link, in input order. */
  function FirstOccurrences(rs: seq<Article>, from: nat): seq<Article>
    requires from <= |rs|
    decreases |rs| - from
  {
    if from == |rs| then []
    else (if IsFirstWithLink(rs, from) then [rs[from]] else []) + FirstOccurrences(rs, from + 1)
  }

  lemma SeenIffEarlier(rs: seq<Article>, i: nat)
    requires i < |rs| && HasLink(rs[i])
    ensures rs[i].link.value in LinkSet(rs[..i]) <==> exists j :: 0 <= j < i && rs[j].link == rs[i].link
  {
    var l := rs[i].link.value;
    if l in LinkSet(rs[..i]) {
      var a :| a in rs[..i] && HasLink(a) && a.link.value == l;
      var j :| 0 <= j < i && rs[..i][j] == a;
      assert rs[j].link == rs[i].link;
    }
    if exists j :: 0 <= j < i && rs[j].link == rs[i].link {
      var j :| 0 <= j < i && rs[j].link == rs[i].link;
      assert rs[..i][j] == rs[j];
    }
  }

  lemma DedupFromCons(x: Article, rest: seq<Article>, seen: set<string>)
    ensures DedupFrom([x] + rest, seen) ==
      if HasLink(x) && x.link.value !in seen then [x] + DedupFrom(rest, seen + {x.link.value})
      else DedupFrom(rest, seen)
  {
    assert ([x] + rest)[0] == x;
    assert ([x] + rest)[1..] == rest;
  }

  /** One step of the loop: record i is first with its link exactly when its
      link is not yet seen, and the seen set grows by that link only then. */
  lemma SeenStep(rs: seq<Article>, i: nat)
    requires i < |rs|
    ensures IsFirstWithLink(rs, i) <==> HasLink(rs[i]) && rs[i].link.value !in LinkSet(rs[..i])
    ensures LinkSet(rs[..i + 1]) ==
              if IsFirstWithLink(rs, i) then LinkSet(rs[..i]) + {rs[i].link.value} else LinkSet(rs[..i])
  {
    var x := rs[i];
    assert rs[..i + 1] == rs[..i] + [x];
    LinkSetSnoc(rs[..i], x);
    if HasLink(x) {
      SeenIffEarlier(rs, i);
    }
  }

  lemma {:induction false} DedupFromSuffix(rs: seq<Article>, i: nat)
    requires i <= |rs|
    ensures DedupFrom(rs[i..], LinkSet(rs[..i])) == FirstOccurrences(rs, i)
    decreases |rs| - i
  {
    if i < |rs| {
      SeenStep(rs, i);
      DedupFromSuffix(rs, i + 1);
      assert rs[i..] == [rs[i]] + rs[i + 1..];
      DedupFromCons(rs[i], rs[i + 1..], LinkSet(rs[..i]));
    }
  }

  /** The dictionary-based loop keeps exactly the first record for each
      link, in the order those records appear. */
  lemma DedupIsFirstOccurrences(rs: seq<Article>)
    ensures Dedup(rs) == FirstOccurrences(rs, 0)
  {
    assert rs[0..] == rs;
    assert rs[..0] == [];
    assert LinkSet([]) == {};
    DedupFromSuffix(rs, 0);
  }

  /** Results linking A, B, A again (with other fields changed) and no link
      at all leave the first A record and the B record, in that order. */
  lemma DedupExample(a1: Article, b: Article, a2: Article, none: Article)
    requires a1.link == Some("A") && b.link == Some("B") && a2.link == Some("A") && none.link.None?
    ensures Dedup([a1, b, a2, none]) == [a1, b]
  {
    var seen: set<string> := {"A", "B"};
    DedupSkips(none, [], seen);
    DedupSkips(a2, [none], seen);
    assert {"A"} + {"B"} == seen;
    DedupKeeps(b, [a2] + [none], {"A"});
    assert {} + {"A"} == {"A"};
    DedupKeeps(a1, [b] + ([a2] + [none]), {});
    assert [a1, b, a2, none] == [a1] + ([b] + ([a2] + [none]));
  }

  /** A record without a link, or with a link already seen, is skipped. */
  lemma DedupSkips(x: Article, rest: seq<Article>, seen: set<string>)
    requires !HasLink(x) || x.link.value in seen
    ensures DedupFrom([x] + rest, seen) == DedupFrom(rest, seen)
  {
    DedupFromCons(x, rest, seen);
  }

  /** A record with a new link is kept and its link is remembered. */
  lemma DedupKeeps(x: Article, rest: seq<Article>, seen: set<string>)
    requires HasLink(x) && x.link.value !in seen
    ensures DedupFrom([x] + rest, seen) == [x] + DedupFrom(rest, seen + {x.link.value})
  {
    DedupFromCons(x, rest, seen);
  }

  /** Python's `xs[:n]`. */
  function Take(xs: seq<Article>, n: nat): (r: seq<Article>)
    ensures |r| == if |xs| <= n then |xs| else n
    ensures r == xs[..|r|]
  {
    if |xs| <= n then xs else xs[..n]
  }

  // --------------------------------------------------------------- scrape

  /** What fetching and parsing one page produced: the text of each `<p>`
      element and the text of `<body>` (None when the page has no body), or
      an exception (network error, non-2xx status). */
  datatype FetchReply = Fetched(paragraphs: seq<string>, body: Option<string>) | FetchFailed(reason: string)

  /** The content rule of `_scrape_content`: the paragraph texts joined by
      single spaces, unless that is under 200 characters, in which case the
      body text; a missing body raises, which is caught as no content. */
  function ChooseContent(paragraphs: seq<string>, body: Option<string>): (r: Option<string>)
    ensures |Join(paragraphs, " ")| >= MinParagraphText ==> r == Some(Join(paragraphs, " "))
    ensures |Join(paragraphs, " ")| < MinParagraphText ==> r == body
    ensures r.Some? && |r.value| < MinParagraphText ==> r == body
    ensures body.None? && r.Some? ==> |r.value| >= MinParagraphText
  {
    var text := Join(paragraphs, " ");
    if |text| < MinParagraphText then body else Some(text)
  }

  /** `_scrape_content`: sets the record's content and changes nothing else.
      A record without a link raises inside the guarded block and so also
      ends with no content. */
  function Scrape(a: Article, fetch: string -> FetchReply): (r: Article)
    ensures r == a.(content := r.content)
    ensures r.content.Some? ==> a.link.Some? && fetch(a.link.value).Fetched?
    ensures a.link.Some? && fetch(a.link.value).Fetched? ==>
              r.content == ChooseContent(fetch(a.link.value).paragraphs, fetch(a.link.value).body)
    ensures a.link.None? || fetch(a.link.value).FetchFailed? ==> r.content.None?
  {
    if a.link.None? then a.(content := None)
    else match fetch(a.link.value)
      case FetchFailed(_) => a.(content := None)
      case Fetched(ps, body) => a.(content := ChooseContent(ps, body))
  }

  /** `asyncio.gather` over the scrape tasks: results in input order. */
  function ScrapeAll(xs: seq<Article>, fetch: string -> FetchReply): (r: seq<Article>)
    ensures |r| == |xs|
    ensures forall i :: 0 <= i < |xs| ==> r[i] == Scrape(xs[i], fetch)
  {
    if |xs| == 0 then [] else [Scrape(xs[0], fetch)] + ScrapeAll(xs[1..], fetch)
  }

  /** `[art for art in full_articles if art.get('full_content')]`. */
  function WithContent(xs: seq<Article>): (r: seq<Article>)
    ensures |r| <= |xs|
    ensures forall x :: x in r <==> x in xs && HasContent(x)
    ensures |xs| == 1 ==> r == if HasContent(xs[0]) then xs else []
  {
    if |xs| == 0 then []
    else if HasContent(xs[0]) then [xs[0]] + WithContent(xs[1..])
    else WithContent(xs[1..])
  }

  /** The filter works record by record: filtering a concatenation filters
      each part. With the one-record case this fixes order and multiplicity. */
  lemma {:induction false} WithContentAppend(xs: seq<Article>, ys: seq<Article>)
    ensures WithContent(xs + ys) == WithContent(xs) + WithContent(ys)
    decreases |xs|
  {
    if |xs| > 0 {
      assert (xs + ys)[0] == xs[0];
      assert (xs + ys)[1..] == xs[1..] + ys;
      WithContentAppend(xs[1..], ys);
    } else {
      assert xs + ys == ys;
    }
  }

  function LinkValues(xs: seq<Article>): (r: seq<string>)
    ensures |r| == |xs|
    ensures forall i :: 0 <= i < |xs| ==> r[i] == xs[i].link.GetOr("")
  {
    if |xs| == 0 then [] else [xs[0].link.GetOr("")] + LinkValues(xs[1..])
  }

  // ------------------------------------------------------------ the round

  /** One collection round: the search requests issued, the links fetched
      and the articles returned. */
  datatype CollectionRun = CollectionRun(searches: seq<SearchRequest>, fetched: seq<string>, articles: seq<Article>)

  /** The records that are scraped: the first seven distinct-link results. */
  function ToScrape(reply: SearchReply): seq<Article> {
    Take(Dedup(SearchResults(reply)), ScrapeLimit)
  }

  /** `run_fed_landscape_search`. */
  function Collect(keywords: seq<string>, dateFilter: string,
                   search: SearchRequest -> SearchReply, fetch: string -> FetchReply): (run: CollectionRun)
    ensures |keywords| == 0 ==> run.searches == [] && run.fetched == [] && run.articles == []
    ensures |keywords| > 0 ==> run.searches == [RequestFor(keywords, dateFilter)]
    ensures |run.fetched| <= ScrapeLimit && |run.articles| <= |run.fetched|
    ensures forall i, j :: 0 <= i < j < |run.fetched| ==> run.fetched[i] != run.fetched[j]
    ensures forall i :: 0 <= i < |run.articles| ==> HasContent(run.articles[i]) && HasLink(run.articles[i])
    ensures LinksDistinct(run.articles)
    ensures |keywords| > 0 && |ToScrape(search(RequestFor(keywords, dateFilter)))| == 0
            ==> run.fetched == [] && run.articles == []
    ensures |keywords| > 0 ==>
              run.fetched == LinkValues(ToScrape(search(RequestFor(keywords, dateFilter))))
              && run.articles == WithContent(ScrapeAll(ToScrape(search(RequestFor(keywords, dateFilter))), fetch))
  {
    if |keywords| == 0 then CollectionRun([], [], [])
    else
      var request := RequestFor(keywords, dateFilter);
      var unique := ToScrape(search(request));
      if |unique| == 0 then CollectionRun([request], [], [])
      else
        var scraped := ScrapeAll(unique, fetch);
        var kept := WithContent(scraped);
        KeptAreDistinctScrapes(unique, fetch);
        CollectionRun([request], LinkValues(unique), kept)
  }

  lemma KeptAreDistinctScrapes(unique: seq<Article>, fetch: string -> FetchReply)
    requires forall k :: 0 <= k < |unique| ==> HasLink(unique[k])
    requires LinksDistinct(unique)
    ensures forall i :: 0 <= i < |WithContent(ScrapeAll(unique, fetch))| ==>
              HasLink(WithContent(ScrapeAll(unique, fetch))[i])
    ensures LinksDistinct(WithContent(ScrapeAll(unique, fetch)))
    ensures |WithContent(ScrapeAll(unique, fetch))| <= |unique|
  {
    var scraped := ScrapeAll(unique, fetch);
    assert LinksDistinct(scraped);
    SubsequenceKeepsDistinct(scraped);
  }

  lemma {:induction false} SubsequenceKeepsDistinct(xs: seq<Article>)
    requires forall k :: 0 <= k < |xs| ==> HasLink(xs[k])
    requires LinksDistinct(xs)
    ensures forall i :: 0 <= i < |WithContent(xs)| ==> HasLink(WithContent(xs)[i])
    ensures LinksDistinct(WithContent(xs))
    decreases |xs|
  {
    if |xs| > 0 {
      SubsequenceKeepsDistinct(xs[1..]);
      var rest := WithContent(xs[1..]);
      forall y | y in rest
        ensures y.link != xs[0].link
      {
        assert y in xs[1..];
      }
    }
  }

  // ---------------------------------------------------- failure isolation

  /** `xs` without the records whose link is `l`. */
  function WithoutLink(xs: seq<Article>, l: string): (r: seq<Article>)
    ensures forall x :: x in r <==> x in xs && x.link != Some(l)
  {
    if |xs| == 0 then []
    else if xs[0].link == Some(l) then WithoutLink(xs[1..], l)
    else [xs[0]] + WithoutLink(xs[1..], l)
  }

  /** A page whose fetch fails removes its own record from the result and
      nothing else: every other record is scraped and kept exactly as before. */
  lemma {:induction false} ScrapeFailureIsolated(xs: seq<Article>, fetch1: string -> FetchReply,
                                                 fetch2: string -> FetchReply, failed: string)
    requires forall l :: l != failed ==> fetch1(l) == fetch2(l)
    requires fetch2(failed).FetchFailed?
    ensures WithContent(ScrapeAll(xs, fetch2)) == WithoutLink(WithContent(ScrapeAll(xs, fetch1)), failed)
    decreases |xs|
  {
    if |xs| > 0 {
      ScrapeFailureIsolated(xs[1..], fetch1, fetch2, failed);
      var x := xs[0];
      var a1 := Scrape(x, fetch1);
      var a2 := Scrape(x, fetch2);
      assert ScrapeAll(xs, fetch1) == [a1] + ScrapeAll(xs[1..], fetch1);
      assert ScrapeAll(xs, fetch2) == [a2] + ScrapeAll(xs[1..], fetch2);
      assert ([a1] + ScrapeAll(xs[1..], fetch1))[1..] == ScrapeAll(xs[1..], fetch1);
      assert ([a2] + ScrapeAll(xs[1..], fetch2))[1..] == ScrapeAll(xs[1..], fetch2);
      var rest1 := WithContent(ScrapeAll(xs[1..], fetch1));
      if x.link == Some(failed) {
        assert !HasContent(a2);
        if HasContent(a1) {
          assert ([a1] + rest1)[1..] == rest1;
        }
      } else {
        assert a1 == a2;
        if HasContent(a1) {
          assert ([a1] + rest1)[1..] == rest1;
        }
      }
    }
  }

  /** Collection-level failure isolation: making one page fail changes the
      returned articles only by dropping that page's article. */
  lemma CollectFailureIsolated(keywords: seq<string>, dateFilter: string,
                               search: SearchRequest -> SearchReply,
                               fetch1: string -> FetchReply, fetch2: string -> FetchReply, failed: string)
    requires forall l :: l != failed ==> fetch1(l) == fetch2(l)
    requires fetch2(failed).FetchFailed?
    ensures Collect(keywords, dateFilter, search, fetch2).fetched == Collect(keywords, dateFilter, search, fetch1).fetched
    ensures Collect(keywords, dateFilter, search, fetch2).articles
            == WithoutLink(Collect(keywords, dateFilter, search, fetch1).articles, failed)
  {
    if |keywords| > 0 {
      var unique := ToScrape(search(RequestFor(keywords, dateFilter)));
      if |unique| > 0 {
        ScrapeFailureIsolated(unique, fetch1, fetch2, failed);
      }
    }
  }
}
