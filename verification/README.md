# Federal landscape digest — a Dafny model

This project models the core of the "fed landscape" digest in Dafny:

- **The collection pipeline** (`backend/data_collection.py`). It builds one
  boolean news query from the chosen keywords and calls the search service
  once. It de-duplicates the hits by link, keeping the first, and caps them
  at seven. It scrapes every remaining page, choosing the paragraph text or,
  when that is short, the body text. It keeps the pages that yielded text.
- **The request handler** (`backend/main.py`). An empty collection is
  answered as a success. Otherwise every article is scored by the relevance
  classifier, and the articles are ranked by a stable descending sort. The
  handler writes a Markdown report with one section for each of the top
  seven. It answers with a success or an error response.
- **The page** (`frontend/src/App.jsx`). The keyword picker has a
  "Select All Keywords" entry. A guard stops a request that would carry no
  keyword. `renderReport` cuts the Markdown report back into sections and
  reads each section's fields.

The search service, the page fetcher, the relevance classifier and the
summary generator are function-valued parameters (`Collection.Collect`,
`Orchestrator.Services`). A collection run returns the requests it issued and
the links it fetched next to its articles, so "no network call is made" is a
statement about the result. Records are immutable values. Each stage returns
an updated copy where the source mutates a dictionary.

Modules:

| module | models |
|---|---|
| `Results` | `Option` and `Result` |
| `Text`, `TextLemmas` | split, join, trim, `indexOf`, `slice`, `replace`, decimal notation and `int()`, with their laws |
| `Articles` | the search hit record |
| `Collection` | `data_collection.py` |
| `Ranking` | `sorted(..., reverse=True)` |
| `Report` | the report writer of `main.py` |
| `Orchestrator` | `process_request_endpoint` |
| `KeywordSelect` | the keyword picker and the submit guard of `App.jsx` |
| `ReportView` | `renderReport` |
| `RoundTrip`, `ReadBack` | the written report, as the page reads it back |
| `Page` | the handler's answer as the page shows it |

The central property is `ReadBack.RenderWrittenReport`. The page shows one
section for each written section, in order, and each section shows the
fields it was written from. The fields are normalised the way the page
normalises them, provided no field collides with the report's own syntax
(`RoundTrip.Renderable`). `Page.PageShowsAnswer` carries it to the handler's
answer: a success shows min(n, 7) sections, the k-th being the view of the
k-th ranked article with its summary. Proving it exposed the key-point
defect recorded under "## Findings". `ReportView.RenderReport` and the
lemmas built on it describe the page with that defect corrected;
`ReportView.RenderReportAsWritten` is the page as written, and
`ReportView.AsWrittenDiffersOnlyInPoints` relates the two.

## Model

| member | source | states |
|---|---|---|
| `Collection.QueryRoundTrip` | backend/data_collection.py:63-70 | The query names every keyword as a quoted phrase, OR-ed in input order, followed by the fixed funding, site and exclusion clauses. The keyword list is read back exactly from the query when no keyword holds a double quote. |
| `Collection.JoinQuoted` | backend/data_collection.py:63 | OR-joining the quoted keywords equals quoting the `" OR "`-join of the bare keywords. |
| `Collection.BuildQuery` | backend/data_collection.py:63-70 | The query is the keywords as double-quoted phrases joined by " OR " in input order, in parentheses, followed by the fixed funding, site and exclusion clauses. No keywords gives empty parentheses. |
| `Collection.SearchResults` | backend/data_collection.py:43-55 | The search helper returns the response's `news` list, an empty list when the field is absent, and an empty list when the call raised. |
| `Collection.DedupFrom` | backend/data_collection.py:76-79 | The de-duplication loop keeps only records with a link not seen before. The kept links are pairwise distinct and are exactly the input's links minus those already seen. Every kept record comes from the input. |
| `Collection.Dedup` | backend/data_collection.py:76-82 | Every kept record has a non-empty link, no link is kept twice, and every link of the input is kept. |
| `Collection.DedupIsFirstOccurrences` | backend/data_collection.py:76-82 | The dictionary loop equals an independent reference: the records that are the first with their link, in input order. |
| `Collection.DedupExample` | backend/data_collection.py:77-79 | Hits linking A, B, A again and none de-duplicate to the first A record and the B record, in that order. |
| `Collection.Take` | backend/data_collection.py:82 | `xs[:7]` keeps the first min(7, len) records, in order. |
| `Collection.ChooseContent` | backend/data_collection.py:31-34 | The content is the space-joined paragraph text when that has at least 200 characters, and otherwise the body text, present or not. Without a body, a short paragraph text yields no content. |
| `Collection.Scrape` | backend/data_collection.py:21-41 | Scraping changes only the record's content. With a link whose fetch succeeded, the content is the choice between that page's paragraph text and body text. Without a link, or when the fetch fails, there is no content. |
| `Collection.ScrapeAll` | backend/data_collection.py:89-90 | Gathering the scrapes gives one scraped record per input record, in input order. |
| `Collection.WithContent` | backend/data_collection.py:92 | The filter keeps exactly the records whose content is present and non-empty. A single record is kept exactly when it has content. |
| `Collection.WithContentAppend` | backend/data_collection.py:92 | Filtering a concatenation filters each part, in order. With the single-record case this fixes the order and the multiplicity of the kept records. |
| `Collection.KeptAreDistinctScrapes` | backend/data_collection.py:82-92 | The scraped and filtered records still carry distinct, non-empty links and are at most as many as were scraped. |
| `Collection.Collect` | backend/data_collection.py:57-94 | No keywords gives no search, no fetch and no articles. Otherwise exactly one search request is issued, carrying the query and `qdr:<filter>`. The links fetched are those of the de-duplicated hits capped at seven, in order. The articles are those hits' scrapes that yielded content, in the same order. At most seven distinct links are fetched, and no two articles share a link. Nothing to scrape gives no fetch and no articles. |
| `Collection.ScrapeFailureIsolated` | backend/data_collection.py:38-41 | Making one page's fetch fail removes that page's record from the kept records and changes nothing else. |
| `Collection.CollectFailureIsolated` | backend/data_collection.py:88-94 | The same holds for the whole collection round: the same links are fetched, and the failed link's article is the only one missing. |
| `Ranking.SortByScore` | backend/main.py:53 | The ranking is a permutation of its input, ordered by non-increasing score. |
| `Ranking.SortIsStable` | backend/main.py:53 | For every score, the articles with that score appear in the ranking in their input order. |
| `Ranking.StableSortUnique` | backend/main.py:53 | Two sequences sorted by descending score that agree on the order within every score are equal. |
| `Ranking.RankingIsTheStableSort` | backend/main.py:53 | Any sequence sorted by descending score that keeps the input order within every score equals the ranking. |
| `Ranking.InsertSorted` | backend/main.py:53 | Inserting an article into a sorted sequence keeps it sorted. |
| `Ranking.InsertWithScore` | backend/main.py:53 | Insertion puts the article in front of the others with the same score and leaves their order alone. |
| `Report.Percent` | backend/main.py:66 | `int(score * 100)` truncates toward zero: the percentage is the whole part of 100 × score, and lies in 0..100 for a score in [0, 1]. |
| `Report.FieldsOf` | backend/main.py:60-68 | A section shows the article's title, source and link, or "No Title", "N/A" and "#" when absent. It shows the summary's paragraph and points, or "Summary not available." and "Key points not available." when absent. The relevance is the percentage of the article's score, and 0 when there is no score. |
| `Report.ReportText` | backend/main.py:56-68 | The report starts with the title and introduction header, ending in a separator. With no sections the report is just the header. |
| `Report.ReportTextAppend` | backend/main.py:59-68 | Writing one more section appends that section's text to the report, as each pass of the loop does with `+=`. |
| `Orchestrator.RelevanceContextNamesKeywords` | backend/main.py:43-46 | The classifier's context is the fixed sentence, then the keywords joined by ", ", then a full stop. Keywords without commas are read back exactly from it. |
| `Orchestrator.ScoreAll` | backend/main.py:49-51 | The scoring loop succeeds exactly when the classifier answers for every article. Each article then carries the classifier's score for its own content. Otherwise the result is the first failing article's exception, all earlier ones having succeeded. |
| `Orchestrator.SummariseAll` | backend/main.py:59-68 | The report loop succeeds exactly when the summary generator answers for each of the ranked articles it is given. Each section then holds that article's fields and summary, in ranked order. Otherwise the result is the first exception. |
| `Orchestrator.Answer` | backend/main.py:59-82 | The answer is a success exactly when every one of the top seven is summarised. It then carries the whole ranking, the count message, and the report written from the top seven's summaries in ranked order. Otherwise it is an error whose message is the text of the first summariser exception, with no articles and no report. |
| `Orchestrator.Respond` | backend/main.py:33-82 | No articles gives the "No new articles" success. Otherwise the answer is a success exactly when every article is scored and every one of the top seven is summarised. A success lists the stable descending sort of the scored articles, with the count message, and the report written from the first seven of that ranking. An error carries no articles and no report; its message is the first classifier exception's text, or, when every article was scored, the first summariser exception's text. |
| `Orchestrator.ProcessRequest` | backend/main.py:28-82 | The status is "success" or "error". An error carries no articles and no report. An empty keyword list, or a success without articles, is the "No new articles" answer. For the collected articles, the answer is a success exactly when every one is scored and every one of the top seven is summarised; otherwise the message is the text of the first classifier exception, or of the first summariser exception when scoring succeeded. A success with articles lists the collected articles scored and stably ranked, at most seven, each with a link, content and a score. Its report is the one written from the first seven of that ranking. |
| `Page.TopFields` | backend/main.py:59-68 | The sections written for a ranking are one per article among the first seven. The k-th holds the fields of the k-th ranked article and its summary. |
| `Page.ReportShows` | backend/main.py:57-82 | The report written from a ranking renders as min(n, 7) sections, the k-th being the view of the k-th ranked article with its summary. |
| `Page.PageShowsAnswer` | backend/main.py:28-82 | A successful answer without articles shows no report. A successful answer with articles shows min(n, 7) sections on the corrected page, the k-th being the view of the k-th ranked article with its summary. |
| `Orchestrator.NoResultsAnswersNoArticles` | backend/main.py:33-40 | A search that leaves nothing to scrape is answered with the "No new articles" success. |
| `Orchestrator.RankedReady` | backend/main.py:53 | Ranking keeps every article's link, content and score, because it only moves articles. |
| `KeywordSelect.WithoutAllMembers` | frontend/src/App.jsx:35 | Filtering out "all" keeps exactly the options whose value is not "all". |
| `KeywordSelect.HandleKeywordChange` | frontend/src/App.jsx:27-42 | Choosing "Select All Keywords" selects the full option list; deselecting it or clearing empties the selection. After any other action, the widget's list without "all" is kept as it is, in order, unless it holds as many options as there are keywords: then, and only then, the state becomes the full option list. |
| `KeywordSelect.AllChosenIffFull` | frontend/src/App.jsx:27-42 | After any change, "Select All Keywords" is in the selection exactly when the selection is the full option list. |
| `KeywordSelect.SelectAllSendsEveryKeyword` | frontend/src/App.jsx:28-29 | Choosing "Select All Keywords" makes the form send all eighteen keywords, in list order, without "all". |
| `KeywordSelect.DeselectAllBlocksSubmit` | frontend/src/App.jsx:30-33 | Deselecting "Select All Keywords" or clearing empties the selection, so the next submit is blocked with the "Please select at least one keyword" status. |
| `KeywordSelect.ChangeKeepsKeywords` | frontend/src/App.jsx:34-40 | Any other change leaves the set of keywords that would be sent as the widget reported it. Collapsing to the full list happens only when every keyword is already chosen. |
| `KeywordSelect.RemovingAllChipReselectsAll` | frontend/src/App.jsx:34-37 | Removing the "Select All Keywords" chip from the full selection leaves eighteen keywords, which the handler turns back into the full selection. |
| `KeywordSelect.PopFromFullSelection` | frontend/src/App.jsx:34-40 | Backspacing the last keyword off the full selection leaves the other seventeen, without "Select All Keywords". |
| `KeywordSelect.KeywordsToSend` | frontend/src/App.jsx:46 | The values sent are exactly the values of the chosen options other than "all". A single chosen option sends its value, or nothing when it is "all". |
| `KeywordSelect.KeywordsToSendAppend` | frontend/src/App.jsx:46 | The keywords sent for a concatenation of selections are those of each part, in order. With the single-option case this fixes the order and the multiplicity of what is sent. |
| `KeywordSelect.Submit` | frontend/src/App.jsx:46-50 | Submitting is blocked, with the "Please select at least one keyword" status, exactly when no real keyword is chosen. Otherwise the non-empty list of keywords to send goes out. |
| `ReportView.FindIndex` | frontend/src/App.jsx:92 | `findIndex` returns the first line starting with the prefix, or none when no line does. |
| `ReportView.Find` | frontend/src/App.jsx:85 | `find` returns the line at the index `findIndex` gives, and is undefined exactly when that index is -1. |
| `ReportView.LabelledValue` | frontend/src/App.jsx:86-87 | The source or relevance value is never empty. It is "N/A" when no line carries the label. Otherwise it is the first labelled line with the first occurrence of the marker removed and trimmed, or "N/A" when that leaves nothing. |
| `ReportView.TitleOf` | frontend/src/App.jsx:85 | The title is never empty. It is "No Title" when no line starts with "## ". Otherwise it is the text after "## " on the first such line, or "No Title" when that is empty. |
| `ReportView.MatchLink` | frontend/src/App.jsx:88 | There is a result exactly when the link pattern matches somewhere in the line. The result is the match at the first '[': its groups end at the first "](" after it and at the first ")" after that, so the text holds no "](" and the URL no ")". |
| `ReportView.ParseLines` | frontend/src/App.jsx:83-94 | The corrected reader, whose key points run up to the link line (see "## Findings"). Title, source and relevance are never empty. A section without a "**Key Points:**" line shows no key points. |
| `ReportView.ParseLinesAsWritten` | frontend/src/App.jsx:92-94 | The reader with the key points sliced as the source slices them. Every other field equals the corrected reader's. Without a key-points line the two readers agree. |
| `ReportView.ParseSections` | frontend/src/App.jsx:82 | One view per piece, in order, each read by the corrected reader. |
| `ReportView.RenderReport` | frontend/src/App.jsx:78-80 | The corrected page. Nothing is shown exactly when the report is empty. Otherwise there is one view per non-blank piece after the first separator, each being that piece read by the corrected reader. |
| `ReportView.ParseSectionsAsWritten` | frontend/src/App.jsx:82-94 | One view per piece, in order, each read as the source reads it. |
| `ReportView.RenderReportAsWritten` | frontend/src/App.jsx:78-94 | The page as written. Nothing is shown exactly when the report is empty. Otherwise it shows one view per non-blank piece after the first separator, each read with the source's key-point slice. |
| `ReportView.AsWrittenDiffersOnlyInPoints` | frontend/src/App.jsx:78-94 | The page as written and the corrected page show the same number of sections, field for field the same except the key points. |
| `ReportView.NonBlankMembers` | frontend/src/App.jsx:80 | `filter(s => s.trim())` keeps exactly the entries that are not all white space. |
| `ReportView.NonBlankAppend` | frontend/src/App.jsx:83 | The filter distributes over concatenation. |
| `RoundTrip.SectionIsPiece` | backend/main.py:64-68 | A written section is its text followed by a "---" separator line. |
| `RoundTrip.PieceClean` | backend/main.py:64-68 | A section written from fields free of "---" holds no separator of its own. |
| `RoundTrip.SplitReport` | backend/main.py:57-68 | Cutting the report at "---" gives the header, one piece per section in order, and a blank tail. |
| `ReadBack.SectionLinesOf` | frontend/src/App.jsx:83 | The non-blank lines the page reads from a section are its title, source and relevance lines, the paragraph's non-blank lines, the key-points heading, the points' non-blank lines and the link line. |
| `ReadBack.TitleRead` | frontend/src/App.jsx:85 | The title read back is the title written, or "No Title" when it was empty. |
| `ReadBack.SourceRead` | frontend/src/App.jsx:86 | The source read back is the written source trimmed, or "N/A" when that is empty. |
| `ReadBack.RelevanceRead` | frontend/src/App.jsx:87 | The relevance read back is the written percentage followed by "%". |
| `ReadBack.KeyPointsAt` | frontend/src/App.jsx:92 | The key-points heading is found right after the paragraph's lines. |
| `ReadBack.ParagraphRead` | frontend/src/App.jsx:93 | The paragraph read back is the paragraph's non-blank lines, joined and trimmed. |
| `ReadBack.PointsRead` | frontend/src/App.jsx:94 | With the corrected slice, the key points read back are the written points' non-blank lines. With the slice as written, they are those lines without the last. |
| `ReadBack.LinkRead` | frontend/src/App.jsx:88-90 | The link read back is "Read Full Article" and the written URL. |
| `ReadBack.ParsePiece` | frontend/src/App.jsx:83-94 | On the corrected page, a written section reads back as the view of its fields: every field in place, normalised as the page normalises it. |
| `ReadBack.PiecesOfSplit` | frontend/src/App.jsx:80 | Dropping the header and the blank tail leaves exactly the section pieces. |
| `ReadBack.WrittenPieces` | frontend/src/App.jsx:78-80 | A written report is never empty, and the pieces the page cuts out of it are exactly the written sections. |
| `ReadBack.RenderWrittenReport` | frontend/src/App.jsx:78-94 | On the corrected page, rendering a written report shows one section per written section, in order. Each shows the view of the fields it was written from. |
| `ReadBack.AsWrittenDropsLastKeyPoint` | frontend/src/App.jsx:94 | As written, the page shows every section's key points without the last one, which differs from what was written. |
| `ReadBack.ParsePieceAsWritten` | frontend/src/App.jsx:83-94 | As written, the page reads a written section back as the view of its fields with the last key-point line missing. |
| `ReadBack.RenderWrittenReportAsWritten` | frontend/src/App.jsx:78-94 | As written, rendering a written report shows one section per written section, in order, each the view of its fields with the last key-point line missing. |
| `ReadBack.KeyPointExample` | frontend/src/App.jsx:94 | A section with key points "- a" and "- b" shows both with the corrected slice, and only "- a" as written. |
| `Text.IndexOf` | frontend/src/App.jsx:86 | The index found is the first occurrence of the pattern at or after the start, and there is none when it is absent. |
| `Text.Trunc` | backend/main.py:66 | Python's `int()` truncates toward zero. |
| `Text.ClampIndex` | frontend/src/App.jsx:94 | `slice` takes an index within the array as is, counts a negative index from the end, and clamps to 0 an index before the start and to the length an index past the end. |
| `Text.IntToString` | backend/main.py:66 | A percentage is written in decimal notation, with a leading "-" when negative. |
| `TextLemmas.SplitJoin` | frontend/src/App.jsx:80 | Splitting a join of parts that hold no separator gives the parts back. |
| `TextLemmas.JoinSplit` | frontend/src/App.jsx:83 | Joining the pieces of a split with the same separator restores the text. |
| `TextLemmas.SplitPartsFree` | frontend/src/App.jsx:80 | No piece of a split holds the separator. |
| `TextLemmas.TrimEmptyIffBlank` | frontend/src/App.jsx:83 | `trim()` gives the empty string exactly when the text is all white space. |
| `TextLemmas.ParseNatToString` | backend/main.py:77 | The number in decimal notation reads back to itself. |

## Left out

- The HTTP calls are left out: the search call, the page fetch with its
  headers, redirects and timeout, FastAPI, CORS and axios. Their results are
  parameters.
- HTML parsing with BeautifulSoup is left out. A fetch yields the texts of
  the paragraphs and of the body directly.
- Concurrency (`asyncio.gather`) is left out. The scrapes are independent and
  their results come back in input order, which is what the model states.
- Request defaults are left out: `Orchestrator.Request` always carries a
  keyword list and a date filter. The request model's defaults (an empty
  keyword list and "w", backend/main.py:22-25) and the search's default
  filter "w" (backend/data_collection.py:57) only fill in fields a request
  body omits; parsing the request body is outside this model.
- Logging (`print`) is left out, and so are environment loading, the API key
  check and the recipient e-mail, which nothing in the core reads.
- Floating point is modelled with real numbers. `Report.Percent`
  truncates the exact product, whereas `int(score * 100)` truncates the
  rounded float product.
- `Collection.SearchResults`: a decoded response whose `news` field holds
  null is read as no results. In the source, iterating over None raises
  outside the search helper's guard, and the handler answers with an error.
- Collection also omits a search hit that is not a dictionary, and a fetch
  that raises for a record without a `link` key. The latter cannot happen
  after de-duplication, which keeps only linked records.
- `Report.FieldsOf`: a key that is present but holds None is not modelled.
  The source prints "None" in that case; the model treats it as absent.
- `Report.FieldsOf`: the summary's `points` is modelled as text. The summary
  generator is not part of this model. When it returns a list, the report
  prints Python's list notation.
- `ReportView.MatchLink`: the pattern's `.` does not match line terminators.
  Split lines can still hold "\r", U+2028 or U+2029, which the model treats
  like any other character.
- The page's key points are cut one line too early in the source (see
  "## Findings"). `ReportView.ParseLines`, `ReportView.ParseSections`,
  `ReportView.RenderReport`, `ReadBack.ParsePiece`,
  `ReadBack.RenderWrittenReport` and the `Page` lemmas describe the
  corrected page. The page as written is
  `ReportView.RenderReportAsWritten`; it differs only in the key points, and
  `ReadBack.RenderWrittenReportAsWritten` says what it shows for a written
  report.
- The React rendering (`dangerouslySetInnerHTML`, `<br />`) is left out, and
  so is the article list.
- `handleSubmit` after the guard (lines 52-75) is left out: loading flags,
  the POST, and the status and message fallbacks.
- The classifier and the summary generator are not part of this model. They
  are functions that answer or raise. The model follows the code, which
  guards neither call: the first exception aborts the request with an error
  response, and no per-article default score or summary is applied.
- Running the collection twice on the same services gives the same result
  because every operation here is a pure function. No separate lemma states
  this.

## Findings

| source | as written | input that shows it | evidently intended | confidence | as-written member | corrected member |
|---|---|---|---|---|---|---|
| frontend/src/App.jsx:94 | `lines.slice(keyPointsIndex + 1, -2)` drops the last two lines of a section. The report was already cut at "---", so a section's last line is the link line, and the second-to-last is the last key point. | A section written with key points "- a\n- b" shows only "- a". | `slice(keyPointsIndex + 1, -1)`: every key-point line up to the link line. | high (proved in the model; not executed) | `ReadBack.AsWrittenDropsLastKeyPoint` | `ReadBack.RenderWrittenReport` |
