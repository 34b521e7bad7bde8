/** The report reader of frontend/src/App.jsx (`renderReport`): it cuts the
    Markdown report at every "---", drops the header, and reads each
    remaining non-blank piece back into the fields one section shows.
 */
module ReportView {
  import opened Results
  import opened Text
  import opened TextLemmas

  /** What the page shows for one section. */
  datatype ViewSection = ViewSection(
    title: string, source: string, relevance: string,
    paragraph: string, points: string, linkText: string, linkUrl: string)

  /** `xs.filter(l => l.trim())`: the entries that are not all white space. */
  function NonBlank(xs: seq<string>): (r: seq<string>)
    ensures |r| <= |xs|
  {
    if |xs| == 0 then []
    else (if Trim(xs[0]) != "" then [xs[0]] else []) + NonBlank(xs[1..])
  }

  /** `xs.findIndex(l => l.startsWith(prefix))`, None for -1. */
  function FindIndex(xs: seq<string>, prefix: string): (r: Option<nat>)
    ensures r.Some? ==> r.value < |xs| && StartsWith(xs[r.value], prefix)
    ensures forall k :: 0 <= k < |xs| && (r.None? || k < r.value) ==> !StartsWith(xs[k], prefix)
  {
    if |xs| == 0 then None
    else if StartsWith(xs[0], prefix) then Some(0)
    else match FindIndex(xs[1..], prefix)
      case None => None
      case Some(k) => Some(k + 1)
  }

  /** `xs.find(l => l.startsWith(prefix))`, None for undefined. */
  function Find(xs: seq<string>, prefix: string): (r: Option<string>)
    ensures r.Some? <==> FindIndex(xs, prefix).Some?
    ensures r.Some? ==> r.value == xs[FindIndex(xs, prefix).value]
  {
    match FindIndex(xs, prefix)
    case None => None
    case Some(k) => Some(xs[k])
  }

  /** `value || fallback` for a string value: the empty string is falsy. */
  function OrElse(value: string, fallback: string): (r: string)
    ensures r == value || r == fallback
    ensures fallback != "" ==> r != ""
  {
    if value == "" then fallback else value
  }

  /** The line starting with `prefix`, with the first occurrence of `marker`
      removed and the rest trimmed, or "N/A". */
  function LabelledValue(lines: seq<string>, prefix: string, marker: string): (r: string)
    ensures r != ""
    ensures Find(lines, prefix).None? ==> r == "N/A"
    ensures Find(lines, prefix).Some? && Trim(ReplaceFirst(Find(lines, prefix).value, marker, "")) != "" ==>
              r == Trim(ReplaceFirst(Find(lines, prefix).value, marker, ""))
    ensures Find(lines, prefix).Some? && Trim(ReplaceFirst(Find(lines, prefix).value, marker, "")) == "" ==>
              r == "N/A"
  {
    match Find(lines, prefix)
    case None => "N/A"
    case Some(l) => OrElse(Trim(ReplaceFirst(l, marker, "")), "N/A")
  }

  /** A match of the link pattern: a '[' at i, a "](" at j after it and a
      ')' at k after that. */
  predicate LinkMatchAt(line: string, i: nat, j: nat, k: nat) {
    && OccursAt(line, "[", i)
    && i + 1 <= j && OccursAt(line, "](", j)
    && j + 2 <= k && OccursAt(line, ")", k)
  }

  /** The two groups of the match (i, j, k): the bracketed text and the
      parenthesised address. */
  function LinkGroups(line: string, i: nat, j: nat, k: nat): (string, string)
    requires LinkMatchAt(line, i, j, k)
  {
    (line[i + 1..j], line[j + 2..k])
  }

  /** `line.match(/\[(.*?)\]\((.*?)\)/)` for a line without line terminators:
      there is a result exactly when the pattern matches somewhere; it is
      read at the first '[', and the lazy groups stop at the first "](" and
      the first ')' after it. */
  function MatchLink(line: string): (r: Option<(string, string)>)
    ensures r.None? <==> forall i: nat, j: nat, k: nat :: !LinkMatchAt(line, i, j, k)
    ensures r.Some? ==>
              exists i: nat, j: nat, k: nat ::
                && LinkMatchAt(line, i, j, k)
                && (forall q: nat :: q < i ==> !OccursAt(line, "[", q))
                && r.value == LinkGroups(line, i, j, k)
    ensures r.Some? ==> Free(r.value.0, "](") && ')' !in r.value.1
  {
    match IndexOf(line, "[", 0)
    case None => None
    case Some(i) =>
      match IndexOf(line, "](", i + 1)
      case None =>
        NoCloseNoMatch(line, i);
        None
      case Some(j) =>
        match IndexOf(line, ")", j + 2)
        case None =>
          NoParenNoMatch(line, i, j);
          None
        case Some(k) =>
          assert LinkMatchAt(line, i, j, k);
          var text := line[i + 1..j];
          var url := line[j + 2..k];
          assert Free(text, "](") by {
            forall q: nat | q <= |text| ensures !OccursAt(text, "](", q) {
              if q + 2 <= |text| {
                AbsentInSlice(line, i + 1, j, "](", q);
              }
            }
          }
          assert ')' !in url by {
            forall q | 0 <= q < |url| ensures url[q] != ')' {
              AbsentInSlice(line, j + 2, k, ")", q);
              OneCharAt(url, ")", q);
            }
          }
          Some((text, url))
  }

  /** Without a "](" after the first '[' nothing matches: every later '['
      has even fewer places to look. */
  lemma NoCloseNoMatch(line: string, i0: nat)
    requires IndexOf(line, "[", 0) == Some(i0) && IndexOf(line, "](", i0 + 1).None?
    ensures forall i: nat, j: nat, k: nat :: !LinkMatchAt(line, i, j, k)
  {
  }

  /** Without a ')' after the first "](" nothing matches either. */
  lemma NoParenNoMatch(line: string, i0: nat, j0: nat)
    requires IndexOf(line, "[", 0) == Some(i0) && IndexOf(line, "](", i0 + 1) == Some(j0)
    requires IndexOf(line, ")", j0 + 2).None?
    ensures forall i: nat, j: nat, k: nat :: !LinkMatchAt(line, i, j, k)
  {
    forall i: nat, j: nat, k: nat ensures !LinkMatchAt(line, i, j, k) {
      if OccursAt(line, "[", i) && i + 1 <= j && OccursAt(line, "](", j) && j + 2 <= k {
        assert i0 <= i;
        assert j0 <= j;
      }
    }
  }

  /** The key points as the page is evidently meant to read them (the
      corrected reader): the lines after the "**Key Points:**" line up to,
      and not including, the link line. frontend/src/App.jsx:94 cuts one
      line earlier; see KeyPointsAsWritten. */
  function KeyPoints(lines: seq<string>, kp: nat): string {
    Join(Slice(lines, kp + 1, -1), "\n")
  }

  /** The key points as frontend/src/App.jsx:94 reads them: the slice ends
      two lines before the end, which skips the link line and also the last
      key point. */
  function KeyPointsAsWritten(lines: seq<string>, kp: nat): string {
    Join(Slice(lines, kp + 1, -2), "\n")
  }

  /** The text after "## " on the first heading line, or "No Title". */
  function TitleOf(lines: seq<string>): (r: string)
    ensures r != ""
    ensures Find(lines, "## ").None? ==> r == "No Title"
    ensures Find(lines, "## ").Some? ==> |Find(lines, "## ").value| >= 3
    ensures Find(lines, "## ").Some? && |Find(lines, "## ").value| > 3 ==> r == Find(lines, "## ").value[3..]
    ensures Find(lines, "## ").Some? && |Find(lines, "## ").value| == 3 ==> r == "No Title"
  {
    match Find(lines, "## ")
    case None => "No Title"
    case Some(l) => OrElse(l[3..], "No Title")
  }

  /** The link on the first line starting with "[Read", if it matches. */
  function LinkOf(lines: seq<string>): Option<(string, string)> {
    match Find(lines, "[Read")
    case None => None
    case Some(l) => MatchLink(l)
  }

  /** The lines from the fourth up to the key-points line (or the end),
      joined and trimmed. */
  function ParagraphOf(lines: seq<string>, kp: Option<nat>): string {
    Trim(Join(Slice(lines, 3, if kp.Some? then kp.value else |lines|), "\n"))
  }

  /** One section of the page, read from its non-blank lines by the
      corrected reader (key points cut by KeyPoints); ParseLinesAsWritten is
      the reader as frontend/src/App.jsx:94 is written. */
  function ParseLines(lines: seq<string>): (v: ViewSection)
    ensures v.title != "" && v.source != "" && v.relevance != ""
    ensures FindIndex(lines, "**Key Points:**").None? ==> v.points == ""
  {
    var link := LinkOf(lines);
    var kp := FindIndex(lines, "**Key Points:**");
    ViewSection(
      TitleOf(lines),
      LabelledValue(lines, "**Source:", "**Source:**"),
      LabelledValue(lines, "**Relevance:", "**Relevance:**"),
      ParagraphOf(lines, kp),
      if kp.Some? then KeyPoints(lines, kp.value) else "",
      if link.Some? then link.value.0 else "Read Full Article",
      if link.Some? then link.value.1 else "#")
  }

  /** The same, with the key points cut as frontend/src/App.jsx:94 cuts
      them; every other field is read as by the corrected reader. */
  function ParseLinesAsWritten(lines: seq<string>): (v: ViewSection)
    ensures v == ParseLines(lines).(points := v.points)
    ensures FindIndex(lines, "**Key Points:**").None? ==> v == ParseLines(lines)
  {
    var kp := FindIndex(lines, "**Key Points:**");
    ParseLines(lines).(points := if kp.Some? then KeyPointsAsWritten(lines, kp.value) else "")
  }

  /** One section of the page, read from one piece of the report by the
      corrected reader. */
  function ParseSection(section: string): ViewSection {
    ParseLines(SectionLines(section))
  }

  /** `section.trim().split('\n').filter(l => l.trim())`. */
  function SectionLines(section: string): seq<string> {
    NonBlank(Split(Trim(section), "\n"))
  }

  /** `sections.map(...)`: one view per piece, in order. */
  function ParseSections(pieces: seq<string>): (r: seq<ViewSection>)
    ensures |r| == |pieces|
    ensures forall k :: 0 <= k < |pieces| ==> r[k] == ParseSection(pieces[k])
  {
    if |pieces| == 0 then [] else [ParseSection(pieces[0])] + ParseSections(pieces[1..])
  }

  /** The pieces of the report between "---" separators after the first,
      without the blank ones. */
  function ReportPieces(content: string): seq<string> {
    var parts := Split(content, "---");
    NonBlank(parts[1..])
  }

  /** `renderReport` with the corrected key-points cut: nothing for an
      empty report, otherwise one view per non-blank piece after the
      header. */
  function RenderReport(content: string): (r: Option<seq<ViewSection>>)
    ensures r.None? <==> content == ""
    ensures r.Some? ==> |r.value| == |ReportPieces(content)|
    ensures r.Some? ==> r.value == ParseSections(ReportPieces(content))
  {
    if content == "" then None else Some(ParseSections(ReportPieces(content)))
  }

  /** `sections.map(...)` as frontend/src/App.jsx is written. */
  function ParseSectionsAsWritten(pieces: seq<string>): (r: seq<ViewSection>)
    ensures |r| == |pieces|
    ensures forall k :: 0 <= k < |pieces| ==> r[k] == ParseLinesAsWritten(SectionLines(pieces[k]))
  {
    if |pieces| == 0 then []
    else [ParseLinesAsWritten(SectionLines(pieces[0]))] + ParseSectionsAsWritten(pieces[1..])
  }

  /** `renderReport` as frontend/src/App.jsx is written. */
  function RenderReportAsWritten(content: string): (r: Option<seq<ViewSection>>)
    ensures r.None? <==> content == ""
    ensures r.Some? ==> |r.value| == |ReportPieces(content)|
    ensures r.Some? ==> r.value == ParseSectionsAsWritten(ReportPieces(content))
  {
    if content == "" then None else Some(ParseSectionsAsWritten(ReportPieces(content)))
  }

  /** The page as written and the corrected page show the same sections
      with the same fields except the key points. */
  lemma AsWrittenDiffersOnlyInPoints(content: string)
    ensures RenderReportAsWritten(content).None? <==> RenderReport(content).None?
    ensures RenderReport(content).Some? ==>
              var w, c := RenderReportAsWritten(content).value, RenderReport(content).value;
              |w| == |c| && forall k :: 0 <= k < |c| ==> w[k] == c[k].(points := w[k].points)
  {
    if content != "" {
      var pieces := ReportPieces(content);
      var w, c := ParseSectionsAsWritten(pieces), ParseSections(pieces);
      forall k | 0 <= k < |c| ensures w[k] == c[k].(points := w[k].points) {
        assert w[k] == ParseLinesAsWritten(SectionLines(pieces[k]));
        assert c[k] == ParseLines(SectionLines(pieces[k]));
      }
    }
  }

  /** Dropping blank entries looks at one entry at a time. */
  lemma NonBlankCons(x: string, rest: seq<string>)
    ensures NonBlank([x] + rest) == (if Trim(x) != "" then [x] else []) + NonBlank(rest)
  {
    assert ([x] + rest)[0] == x;
    assert ([x] + rest)[1..] == rest;
  }

  /** Dropping blank entries distributes over concatenation. */
  lemma {:induction false} NonBlankAppend(xs: seq<string>, ys: seq<string>)
    ensures NonBlank(xs + ys) == NonBlank(xs) + NonBlank(ys)
    decreases |xs|
  {
    if |xs| > 0 {
      var x, rest := xs[0], xs[1..];
      var head := if Trim(x) != "" then [x] else [];
      assert NonBlank(xs + ys) == head + NonBlank(rest + ys) by {
        assert xs + ys == [x] + (rest + ys);
        NonBlankCons(x, rest + ys);
      }
      assert NonBlank(xs) == head + NonBlank(rest) by {
        assert xs == [x] + rest;
        NonBlankCons(x, rest);
      }
      NonBlankAppend(rest, ys);
      ConcatAssoc(head, NonBlank(rest), NonBlank(ys));
    } else {
      assert xs + ys == ys;
    }
  }

  /** The kept entries are exactly the non-blank ones. */
  lemma {:induction false} NonBlankMembers(xs: seq<string>)
    ensures forall x :: x in NonBlank(xs) <==> x in xs && Trim(x) != ""
    decreases |xs|
  {
    if |xs| > 0 {
      NonBlankMembers(xs[1..]);
      assert xs == [xs[0]] + xs[1..];
    }
  }
}
