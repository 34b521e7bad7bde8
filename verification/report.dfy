/** The report writer of backend/main.py: a fixed header followed by one
    Markdown section per article, each built from the article's fields, its
    relevance percentage and the summary generator's paragraph and points,
    with a fixed default for every missing field.
 */
module Report {
  import opened Results
  import opened Text
  import opened TextLemmas
  import opened Articles

  const ReportTitle: string := "TUFF Fed Landscape Report"

  /** The sentence under the title. It is one literal in the source; it is
      spelt as two concatenated pieces here because a single literal of this
      length is too costly for the solver to scan for a dash. */
  const ReportIntro: string := "This report summarizes " + "recent federal activities."

  /** The text in front of the first section. */
  const HeaderIntro: string := "# " + ReportTitle + "\n\n" + ReportIntro + "\n\n"

  /** The report starts with the header, which ends in a separator line. */
  const Header: string := HeaderIntro + "---\n\n"

  /** Sections are written for at most this many of the ranked articles. */
  const ReportLimit: nat := 7

  /** The summary generator's answer: its `paragraph` and `points` keys,
      None when absent. */
  datatype Summary = Summary(paragraph: Option<string>, points: Option<string>)

  /** What one section shows, once the defaults are applied. */
  datatype SectionFields = SectionFields(
    title: string, source: string, relevance: int,
    paragraph: string, points: string, link: string)

  /** `int(score * 100)`: the score as a whole percentage, truncated. */
  function Percent(score: real): (p: int)
    ensures 0.0 <= score ==> p as real <= score * 100.0 < p as real + 1.0
    ensures 0.0 <= score <= 1.0 ==> 0 <= p <= 100
  {
    Trunc(score * 100.0)
  }

  /** The values the section for article `a` shows, with the defaults of the
      source: "No Title", "N/A", a score of 0, "Summary not available.",
      "Key points not available." and "#". */
  function FieldsOf(a: Article, s: Summary): (f: SectionFields)
    ensures a.title.None? ==> f.title == "No Title"
    ensures a.source.None? ==> f.source == "N/A"
    ensures a.link.None? ==> f.link == "#"
    ensures s.paragraph.None? ==> f.paragraph == "Summary not available."
    ensures s.points.None? ==> f.points == "Key points not available."
    ensures a.score.None? ==> f.relevance == 0
    ensures a.title.Some? ==> f.title == a.title.value
    ensures a.source.Some? ==> f.source == a.source.value
    ensures a.link.Some? ==> f.link == a.link.value
    ensures s.paragraph.Some? ==> f.paragraph == s.paragraph.value
    ensures s.points.Some? ==> f.points == s.points.value
    ensures a.score.Some? ==> f.relevance == Percent(a.score.value)
  {
    SectionFields(
      a.title.GetOr("No Title"),
      a.source.GetOr("N/A"),
      Percent(Score(a)),
      s.paragraph.GetOr("Summary not available."),
      s.points.GetOr("Key points not available."),
      a.link.GetOr("#"))
  }

  /** The five pieces appended to the report for one section, in order. */
  function SectionTitle(f: SectionFields): string {
    "## " + f.title + "\n"
  }

  function SectionSource(f: SectionFields): string {
    "**Source:** " + f.source + "\n"
  }

  function SectionRelevance(f: SectionFields): string {
    "**Relevance:** " + IntToString(f.relevance) + "%\n\n"
  }

  function SectionBody(f: SectionFields): string {
    f.paragraph + "\n\n**Key Points:**\n" + f.points + "\n\n"
  }

  /** The text of every section's link. */
  const LinkText: string := "Read Full Article"

  /** The link line; the separator after it closes the section. */
  function SectionLink(f: SectionFields): string {
    "[" + LinkText + "](" + f.link + ")" + "\n\n---\n\n"
  }

  /** One section. */
  function SectionText(f: SectionFields): string {
    SectionTitle(f) + SectionSource(f) + SectionRelevance(f) + SectionBody(f) + SectionLink(f)
  }

  function SectionsText(fs: seq<SectionFields>): string {
    if |fs| == 0 then "" else SectionText(fs[0]) + SectionsText(fs[1..])
  }

  /** The whole report for the given sections, in order. */
  function ReportText(fs: seq<SectionFields>): (r: string)
    ensures |fs| == 0 ==> r == Header
    ensures |r| >= |Header| && r[..|Header|] == Header
  {
    Header + SectionsText(fs)
  }

  /** Writing one more section appends its text to the report, as the
      writer's loop does. */
  lemma {:induction false} SectionsTextAppend(fs: seq<SectionFields>, f: SectionFields)
    ensures SectionsText(fs + [f]) == SectionsText(fs) + SectionText(f)
    decreases |fs|
  {
    if |fs| > 0 {
      assert (fs + [f])[1..] == fs[1..] + [f];
      SectionsTextAppend(fs[1..], f);
    } else {
      assert fs + [f] == [f];
    }
  }

  lemma ReportTextAppend(fs: seq<SectionFields>, f: SectionFields)
    ensures ReportText(fs + [f]) == ReportText(fs) + SectionText(f)
  {
    SectionsTextAppend(fs, f);
    ConcatAssoc(Header, SectionsText(fs), SectionText(f));
  }

  /** The header text holds no dash, so it cannot be mistaken for a
      separator. */
  lemma IntroNoDash()
    ensures '-' !in ReportIntro
  {
    assert '-' !in "This report summarizes ";
    assert '-' !in "recent federal activities.";
  }
}
