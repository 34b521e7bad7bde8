/** Reading a written section back: the lines the page sees for the piece
    of the report that holds one section, and what it makes of each of them.
 */
module ReadBack {
  import opened Results
  import opened Text
  import opened TextLemmas
  import opened Report
  import opened ReportView
  import opened RoundTrip

  /** The non-blank lines of the paragraph and of the key points. */
  function ParagraphLines(f: SectionFields): seq<string> {
    NonBlank(Split(f.paragraph, "\n"))
  }

  function PointLines(f: SectionFields): seq<string> {
    NonBlank(Split(f.points, "\n"))
  }

  /** The lines of a written section, in the order the page sees them. */
  function LinesFor(f: SectionFields): seq<string> {
    [TitleLine(f), SourceLine(f), RelevanceLine(f)] + ParagraphLines(f)
      + [KeyPointsLine] + PointLines(f) + [LinkLine(f)]
  }

  lemma LastChar(a: string, b: string)
    requires |b| > 0
    ensures (a + b)[|a + b| - 1] == b[|b| - 1]
  {
  }

  /** Trimming a piece gives back the section. */
  lemma PieceTrim(f: SectionFields)
    ensures Trim(Piece(f)) == Core(f)
  {
    var t, so, r, b, l := SectionTitle(f), SectionSource(f), SectionRelevance(f), SectionBody(f), LinkLine(f);
    assert l[|l| - 1] == ')';
    LastChar(b, l);
    LastChar(r, b + l);
    LastChar(so, r + (b + l));
    LastChar(t, so + (r + (b + l)));
    assert Core(f)[0] == '#';
    TrimAround("\n\n", Core(f), "\n\n");
  }

  lemma NotBlank(x: string)
    requires |x| > 0 && !IsSpace(x[0])
    ensures Trim(x) != ""
  {
    TrimEmptyIffBlank(x);
  }

  lemma NonBlankHead(t: string, so: string, r: string)
    requires Trim(t) != "" && Trim(so) != "" && Trim(r) != ""
    ensures NonBlank([t, so, r, ""]) == [t, so, r]
  {
    NonBlankLast(r);
    NonBlankKeep(so, [r, ""]);
    NonBlankKeep(t, [so] + [r, ""]);
    Display4(t, so, r, "");
  }

  lemma NonBlankKeep(x: string, rest: seq<string>)
    requires Trim(x) != ""
    ensures NonBlank([x] + rest) == [x] + NonBlank(rest)
  {
    NonBlankCons(x, rest);
  }

  lemma Display4<T>(a: T, b: T, c: T, d: T)
    ensures [a, b, c, d] == [a] + ([b] + [c, d])
    ensures [a] + ([b] + [c]) == [a, b, c]
  {
  }

  lemma NonBlankLast(r: string)
    requires Trim(r) != ""
    ensures NonBlank([r, ""]) == [r]
  {
    assert Trim("") == "";
    assert NonBlank([""]) == [] by {
      NonBlankCons("", []);
      assert [""] + [] == [""];
    }
    assert [r, ""] == [r] + [""];
    NonBlankCons(r, [""]);
  }

  lemma NonBlankPair(x: string)
    requires Trim(x) != ""
    ensures NonBlank(["", x]) == [x]
  {
    assert ["", x] == [""] + ([x] + []);
    assert Trim("") == "";
    NonBlankCons(x, []);
    NonBlankCons("", [x] + []);
  }

  lemma NonBlank5(a: seq<string>, b: seq<string>, c: seq<string>, d: seq<string>, e: seq<string>)
    ensures NonBlank(a + b + c + d + e)
         == NonBlank(a) + NonBlank(b) + NonBlank(c) + NonBlank(d) + NonBlank(e)
  {
    NonBlankAppend(a + b + c + d, e);
    NonBlankAppend(a + b + c, d);
    NonBlankAppend(a + b, c);
    NonBlankAppend(a, b);
  }

  lemma HeadLines(f: SectionFields)
    ensures NonBlank([TitleLine(f), SourceLine(f), RelevanceLine(f), ""])
         == [TitleLine(f), SourceLine(f), RelevanceLine(f)]
  {
    NotBlank(TitleLine(f));
    NotBlank(SourceLine(f));
    NotBlank(RelevanceLine(f));
    NonBlankHead(TitleLine(f), SourceLine(f), RelevanceLine(f));
  }

  lemma TailLines(f: SectionFields)
    ensures NonBlank(["", KeyPointsLine]) == [KeyPointsLine]
    ensures NonBlank(["", LinkLine(f)]) == [LinkLine(f)]
  {
    NotBlank(KeyPointsLine);
    NonBlankPair(KeyPointsLine);
    NotBlank(LinkLine(f));
    NonBlankPair(LinkLine(f));
  }

  /** The lines the page reads from the piece holding a section. */
  lemma SectionLinesOf(f: SectionFields)
    requires '\n' !in f.title && '\n' !in f.source && '\n' !in f.link
    ensures SectionLines(Piece(f)) == LinesFor(f)
  {
    PieceTrim(f);
    SplitCore(f);
    HeadLines(f);
    TailLines(f);
    NonBlank5([TitleLine(f), SourceLine(f), RelevanceLine(f), ""], Split(f.paragraph, "\n"),
              ["", KeyPointsLine], Split(f.points, "\n"), ["", LinkLine(f)]);
  }

  /** Where the lines of a written section sit. */
  lemma LinesAt(f: SectionFields)
    ensures var lines, p, k := LinesFor(f), ParagraphLines(f), PointLines(f);
            && |lines| == 5 + |p| + |k|
            && lines[0] == TitleLine(f) && lines[1] == SourceLine(f) && lines[2] == RelevanceLine(f)
            && lines[3..3 + |p|] == p && lines[3 + |p|] == KeyPointsLine
            && lines[4 + |p|..|lines| - 1] == k && lines[|lines| - 1] == LinkLine(f)
  {
    Layout(TitleLine(f), SourceLine(f), RelevanceLine(f), ParagraphLines(f), KeyPointsLine,
           PointLines(f), LinkLine(f));
  }

  lemma Layout(a: string, b: string, c: string, p: seq<string>, m: string, k: seq<string>, z: string)
    ensures var lines := [a, b, c] + p + [m] + k + [z];
            && |lines| == 5 + |p| + |k|
            && lines[0] == a && lines[1] == b && lines[2] == c
            && lines[3..3 + |p|] == p && lines[3 + |p|] == m
            && lines[4 + |p|..|lines| - 1] == k && lines[|lines| - 1] == z
  {
    var lines := [a, b, c] + p + [m] + k + [z];
    assert lines[3..3 + |p|] == p;
    assert lines[4 + |p|..|lines| - 1] == k;
  }

  /** The first entry starting with `prefix` is the one at `i`. */
  lemma FindFirst(xs: seq<string>, prefix: string, i: nat)
    requires i < |xs| && StartsWith(xs[i], prefix)
    requires forall k :: 0 <= k < i ==> !StartsWith(xs[k], prefix)
    ensures FindIndex(xs, prefix) == Some(i) && Find(xs, prefix) == Some(xs[i])
  {
  }

  lemma DiffersAt(s: string, prefix: string, j: nat)
    requires j < |s| && j < |prefix| && s[j] != prefix[j]
    ensures !StartsWith(s, prefix)
  {
  }

  lemma StartsWithLonger(a: string, b: string, prefix: string)
    requires StartsWith(a, prefix)
    ensures StartsWith(a + b, prefix)
  {
    assert (a + b)[..|prefix|] == a[..|prefix|];
  }

  lemma TrimSpaceFront(v: string)
    ensures Trim(" " + v) == Trim(v)
  {
    assert (" " + v)[1..] == v;
  }

  /** A line made of a marker, a space and a value is read back as the
      trimmed value, when no earlier line starts like it. */
  lemma LabelledAt(lines: seq<string>, i: nat, prefix: string, marker: string, v: string)
    requires i < |lines| && lines[i] == marker + (" " + v)
    requires StartsWith(marker, prefix)
    requires forall k :: 0 <= k < i ==> !StartsWith(lines[k], prefix)
    ensures LabelledValue(lines, prefix, marker) == OrElse(Trim(v), "N/A")
  {
    StartsWithLonger(marker, " " + v, prefix);
    FindFirst(lines, prefix, i);
    StartsWithPrefix(marker, " " + v);
    ReplaceFirstPrefix(lines[i], marker, "");
    assert lines[i][|marker|..] == " " + v;
    assert "" + (" " + v) == " " + v;
    TrimSpaceFront(v);
  }

  lemma TitleRead(f: SectionFields)
    ensures TitleOf(LinesFor(f)) == OrElse(f.title, "No Title")
  {
    LinesAt(f);
    StartsWithPrefix("## ", f.title);
    FindFirst(LinesFor(f), "## ", 0);
    assert TitleLine(f)[3..] == f.title;
  }

  lemma SourceGlue(f: SectionFields)
    ensures SourceLine(f) == "**Source:**" + (" " + f.source)
    ensures StartsWith("**Source:**", "**Source:")
  {
  }

  lemma SourceRead(f: SectionFields)
    ensures LabelledValue(LinesFor(f), "**Source:", "**Source:**") == OrElse(Trim(f.source), "N/A")
  {
    LinesAt(f);
    SourceReadAt(LinesFor(f), f);
  }

  lemma SourceReadAt(lines: seq<string>, f: SectionFields)
    requires 1 < |lines| && lines[0] == TitleLine(f) && lines[1] == SourceLine(f)
    ensures LabelledValue(lines, "**Source:", "**Source:**") == OrElse(Trim(f.source), "N/A")
  {
    SourceGlue(f);
    DiffersAt(TitleLine(f), "**Source:", 0);
    LabelledAt(lines, 1, "**Source:", "**Source:**", f.source);
  }

  lemma RelevanceGlue(f: SectionFields)
    ensures RelevanceLine(f) == "**Relevance:**" + (" " + (IntToString(f.relevance) + "%"))
    ensures StartsWith("**Relevance:**", "**Relevance:")
  {
  }

  /** A percentage has no white space at either end. */
  lemma PercentTrimmed(n: int)
    ensures Trim(IntToString(n) + "%") == IntToString(n) + "%"
  {
    var v := IntToString(n) + "%";
    assert v[0] == IntToString(n)[0];
    assert n >= 0 ==> IsDigit(NatToString(n)[0]);
    TrimNoSpaceEnds(v);
  }

  /** Neither the title line nor the source line starts like the
      relevance line. */
  lemma RelevanceIsThird(f: SectionFields)
    ensures !StartsWith(TitleLine(f), "**Relevance:") && !StartsWith(SourceLine(f), "**Relevance:")
  {
    DiffersAt(TitleLine(f), "**Relevance:", 0);
    assert SourceLine(f)[2] == 'S';
    DiffersAt(SourceLine(f), "**Relevance:", 2);
  }

  lemma RelevanceRead(f: SectionFields)
    ensures LabelledValue(LinesFor(f), "**Relevance:", "**Relevance:**") == IntToString(f.relevance) + "%"
  {
    LinesAt(f);
    RelevanceReadAt(LinesFor(f), f);
  }

  lemma RelevanceReadAt(lines: seq<string>, f: SectionFields)
    requires 2 < |lines| && lines[0] == TitleLine(f) && lines[1] == SourceLine(f)
    requires lines[2] == RelevanceLine(f)
    ensures LabelledValue(lines, "**Relevance:", "**Relevance:**") == IntToString(f.relevance) + "%"
  {
    RelevanceGlue(f);
    RelevanceIsThird(f);
    LabelledAt(lines, 2, "**Relevance:", "**Relevance:**", IntToString(f.relevance) + "%");
    PercentTrimmed(f.relevance);
  }

  /** No line of the paragraph is taken for the key-points heading or the
      link line, and no line of the key points for the link line. */
  lemma BodyLinesPlain(f: SectionFields)
    requires Renderable(f)
    ensures forall line | line in ParagraphLines(f) ::
              !StartsWith(line, "[Read") && !StartsWith(line, KeyPointsLine)
    ensures forall line | line in PointLines(f) :: !StartsWith(line, "[Read")
  {
    NonBlankMembers(Split(f.paragraph, "\n"));
    NonBlankMembers(Split(f.points, "\n"));
  }

  /** None of the three head lines starts like the key-points heading. */
  lemma KeyPointsNotInHead(f: SectionFields)
    ensures !StartsWith(TitleLine(f), KeyPointsLine)
    ensures !StartsWith(SourceLine(f), KeyPointsLine) && !StartsWith(RelevanceLine(f), KeyPointsLine)
  {
    DiffersAt(TitleLine(f), KeyPointsLine, 0);
    assert SourceLine(f)[2] == 'S' && RelevanceLine(f)[2] == 'R';
    DiffersAt(SourceLine(f), KeyPointsLine, 2);
    DiffersAt(RelevanceLine(f), KeyPointsLine, 2);
  }

  /** The first line starting with `prefix` is the one right after the
      three head lines and the lines `p`. */
  lemma FirstAfter(lines: seq<string>, p: seq<string>, prefix: string)
    requires 3 + |p| < |lines| && lines[3..3 + |p|] == p
    requires !StartsWith(lines[0], prefix) && !StartsWith(lines[1], prefix) && !StartsWith(lines[2], prefix)
    requires forall line | line in p :: !StartsWith(line, prefix)
    requires StartsWith(lines[3 + |p|], prefix)
    ensures FindIndex(lines, prefix) == Some(3 + |p|)
  {
    forall j | 3 <= j < 3 + |p| ensures !StartsWith(lines[j], prefix) {
      assert lines[j] == p[j - 3];
    }
    FindFirst(lines, prefix, 3 + |p|);
  }

  lemma KeyPointsAt(f: SectionFields)
    requires Renderable(f)
    ensures FindIndex(LinesFor(f), KeyPointsLine) == Some(3 + |ParagraphLines(f)|)
  {
    LinesAt(f);
    BodyLinesPlain(f);
    KeyPointsNotInHead(f);
    FirstAfter(LinesFor(f), ParagraphLines(f), KeyPointsLine);
  }

  lemma ParagraphRead(f: SectionFields)
    ensures ParagraphOf(LinesFor(f), Some(3 + |ParagraphLines(f)|)) == Trim(Join(ParagraphLines(f), "\n"))
  {
    LinesAt(f);
  }

  /** The JavaScript slices from `i` to -1 and to -2 of lines whose entries
      from `i` to the last one are `k`. */
  lemma SliceTail(lines: seq<string>, i: nat, k: seq<string>)
    requires i + |k| + 1 == |lines| && lines[i..|lines| - 1] == k
    ensures Slice(lines, i, -1) == k
    ensures Slice(lines, i, -2) == if |k| == 0 then [] else k[..|k| - 1]
  {
    if |k| > 0 {
      assert lines[i..|lines| - 2] == k[..|k| - 1];
    }
  }

  lemma PointsRead(f: SectionFields)
    ensures var k := PointLines(f);
            && KeyPoints(LinesFor(f), 3 + |ParagraphLines(f)|) == Join(k, "\n")
            && KeyPointsAsWritten(LinesFor(f), 3 + |ParagraphLines(f)|)
               == if |k| == 0 then "" else Join(k[..|k| - 1], "\n")
  {
    LinesAt(f);
    SliceTail(LinesFor(f), 4 + |ParagraphLines(f)|, PointLines(f));
  }

  /** The first line starting with `prefix` is the last line. */
  lemma FirstIsLast(lines: seq<string>, p: seq<string>, k: seq<string>, prefix: string)
    requires |lines| == 5 + |p| + |k| && lines[3..3 + |p|] == p && lines[4 + |p|..|lines| - 1] == k
    requires !StartsWith(lines[0], prefix) && !StartsWith(lines[1], prefix) && !StartsWith(lines[2], prefix)
    requires !StartsWith(lines[3 + |p|], prefix)
    requires forall line | line in p :: !StartsWith(line, prefix)
    requires forall line | line in k :: !StartsWith(line, prefix)
    requires StartsWith(lines[|lines| - 1], prefix)
    ensures Find(lines, prefix) == Some(lines[|lines| - 1])
  {
    forall j | 0 <= j < |lines| - 1 ensures !StartsWith(lines[j], prefix) {
      if 3 <= j < 3 + |p| {
        assert lines[j] == p[j - 3];
      } else if 4 + |p| <= j {
        assert lines[j] == k[j - 4 - |p|];
      }
    }
    FindFirst(lines, prefix, |lines| - 1);
  }

  /** Only the link line starts like a link among the lines the writer
      puts around the body. */
  lemma LinkNotElsewhere(f: SectionFields)
    ensures !StartsWith(TitleLine(f), "[Read") && !StartsWith(SourceLine(f), "[Read")
    ensures !StartsWith(RelevanceLine(f), "[Read") && !StartsWith(KeyPointsLine, "[Read")
  {
    DiffersAt(TitleLine(f), "[Read", 0);
    DiffersAt(SourceLine(f), "[Read", 0);
    DiffersAt(RelevanceLine(f), "[Read", 0);
    DiffersAt(KeyPointsLine, "[Read", 0);
  }

  lemma LinkLineStart(f: SectionFields)
    ensures StartsWith(LinkLine(f), "[Read")
  {
    LinkTextPlain();
    assert LinkLine(f) == "[Read" + (" Full Article" + "](" + f.link + ")");
    StartsWithPrefix("[Read", " Full Article" + "](" + f.link + ")");
  }

  /** The link pattern reads a bracketed text without ']' and a
      parenthesised address without ')' back. */
  lemma MatchLinkReads(text: string, url: string)
    requires ']' !in text && ')' !in url
    ensures MatchLink("[" + text + "](" + url + ")") == Some((text, url))
  {
    var line := "[" + text + "](" + url + ")";
    var j := 1 + |text|;
    var e := j + 2 + |url|;
    assert IndexOf(line, "[", 0) == Some(0) by {
      assert OccursAt(line, "[", 0);
    }
    assert IndexOf(line, "](", 1) == Some(j) by {
      BracketAt(text, url);
    }
    assert IndexOf(line, ")", j + 2) == Some(e) by {
      ParenAt("[" + text + "](", url);
    }
    assert line[1..j] == text;
    assert line[j + 2..e] == url;
  }

  /** The first index at or after `from` where `pat` occurs is `i`. */
  lemma FirstFrom(s: string, pat: string, from: nat, i: nat)
    requires from <= i && OccursAt(s, pat, i)
    requires forall q: nat :: from <= q < i ==> !OccursAt(s, pat, q)
    ensures IndexOf(s, pat, from) == Some(i)
  {
  }

  lemma BracketAt(text: string, url: string)
    requires ']' !in text
    ensures IndexOf("[" + text + "](" + url + ")", "](", 1) == Some(1 + |text|)
  {
    var line := "[" + text + "](" + url + ")";
    var j := 1 + |text|;
    assert OccursAt(line, "](", j);
    forall q: nat | 1 <= q < j ensures !OccursAt(line, "](", q) {
      assert line[q] == text[q - 1];
      assert line[q..q + 2][0] == line[q];
    }
    FirstFrom(line, "](", 1, j);
  }

  lemma ParenAt(a: string, url: string)
    requires ')' !in url
    ensures IndexOf(a + url + ")", ")", |a|) == Some(|a| + |url|)
  {
    var line := a + url + ")";
    var e := |a| + |url|;
    assert OccursAt(line, ")", e) by {
      OneCharAt(line, ")", e);
    }
    forall q: nat | |a| <= q < e ensures !OccursAt(line, ")", q) {
      OneCharAt(line, ")", q);
      assert line[q] == url[q - |a|];
    }
    FirstFrom(line, ")", |a|, e);
  }

  lemma LinkRead(f: SectionFields)
    requires Renderable(f)
    ensures LinkOf(LinesFor(f)) == Some((LinkText, f.link))
  {
    LinesAt(f);
    BodyLinesPlain(f);
    LinkNotElsewhere(f);
    LinkLineStart(f);
    LinkTextPlain();
    FirstIsLast(LinesFor(f), ParagraphLines(f), PointLines(f), "[Read");
    MatchLinkReads(LinkText, f.link);
  }

  /** What the page shows for a section written from `f`: the title and
      the trimmed source with the reader's placeholders for empty values,
      the percentage, the paragraph's and the key points' non-blank lines,
      and the link. */
  function ViewFor(f: SectionFields): ViewSection {
    ViewSection(
      OrElse(f.title, "No Title"),
      OrElse(Trim(f.source), "N/A"),
      IntToString(f.relevance) + "%",
      Trim(Join(ParagraphLines(f), "\n")),
      Join(PointLines(f), "\n"),
      LinkText,
      f.link)
  }

  /** The page reads one written section back field by field. */
  lemma ParsePiece(f: SectionFields)
    requires Renderable(f)
    ensures ParseSection(Piece(f)) == ViewFor(f)
  {
    SectionLinesOf(f);
    TitleRead(f);
    SourceRead(f);
    RelevanceRead(f);
    KeyPointsAt(f);
    ParagraphRead(f);
    PointsRead(f);
    LinkRead(f);
  }

  /** A filter that finds nothing blank keeps everything. */
  lemma {:induction false} NonBlankKeepsAll(xs: seq<string>)
    requires forall k :: 0 <= k < |xs| ==> Trim(xs[k]) != ""
    ensures NonBlank(xs) == xs
    decreases |xs|
  {
    if |xs| > 0 {
      NonBlankKeepsAll(xs[1..]);
    }
  }

  lemma PieceNotBlank(f: SectionFields)
    ensures Trim(Piece(f)) != ""
  {
    PieceTrim(f);
    assert Core(f)[0] == '#';
  }

  /** Every piece of a written report is free of separators of its own and
      not blank. */
  lemma PiecesClean(fs: seq<SectionFields>)
    requires forall k :: 0 <= k < |fs| ==> Renderable(fs[k])
    ensures forall k :: 0 <= k < |Pieces(fs)| ==> Clean(Pieces(fs)[k], "---")
  {
    forall k | 0 <= k < |Pieces(fs)| ensures Clean(Pieces(fs)[k], "---") {
      PieceClean(fs[k]);
    }
  }

  lemma PiecesNotBlank(fs: seq<SectionFields>)
    ensures forall k :: 0 <= k < |Pieces(fs)| ==> Trim(Pieces(fs)[k]) != ""
  {
    forall k | 0 <= k < |Pieces(fs)| ensures Trim(Pieces(fs)[k]) != "" {
      PieceNotBlank(fs[k]);
    }
  }

  /** Dropping the header and the blank tail leaves the pieces. */
  lemma InnerParts(h: string, ps: seq<string>)
    requires forall k :: 0 <= k < |ps| ==> Trim(ps[k]) != ""
    ensures NonBlank(([h] + ps + ["\n\n"])[1..]) == ps
  {
    assert ([h] + ps + ["\n\n"])[1..] == ps + ["\n\n"];
    NonBlankAppend(ps, ["\n\n"]);
    NonBlankKeepsAll(ps);
    assert NonBlank(["\n\n"]) == [] by {
      TrimEmptyIffBlank("\n\n");
    }
  }

  /** The pieces the page cuts out of a text that splits into a head,
      non-blank pieces and a blank tail. */
  lemma PiecesOfSplit(content: string, h: string, ps: seq<string>)
    requires Split(content, "---") == [h] + ps + ["\n\n"]
    requires forall k :: 0 <= k < |ps| ==> Trim(ps[k]) != ""
    ensures ReportPieces(content) == ps
  {
    InnerParts(h, ps);
  }

  /** Each written section reads back as its view. */
  lemma EachPieceParses(fs: seq<SectionFields>)
    requires forall k :: 0 <= k < |fs| ==> Renderable(fs[k])
    ensures forall k :: 0 <= k < |fs| ==> ParseSection(Piece(fs[k])) == ViewFor(fs[k])
  {
    forall k | 0 <= k < |fs| ensures ParseSection(Piece(fs[k])) == ViewFor(fs[k]) {
      ParsePiece(fs[k]);
    }
  }

  lemma ParsedPieces(fs: seq<SectionFields>)
    requires forall k :: 0 <= k < |fs| ==> Renderable(fs[k])
    ensures |ParseSections(Pieces(fs))| == |fs|
    ensures forall k :: 0 <= k < |fs| ==> ParseSections(Pieces(fs))[k] == ViewFor(fs[k])
  {
    EachPieceParses(fs);
  }

  lemma RenderNonEmpty(content: string)
    requires content != ""
    ensures RenderReport(content) == Some(ParseSections(ReportPieces(content)))
  {
  }

  /** A written report is not empty, and the pieces the page cuts out of it
      are the written sections. */
  lemma WrittenPieces(fs: seq<SectionFields>)
    requires forall k :: 0 <= k < |fs| ==> Renderable(fs[k])
    ensures ReportText(fs) != ""
    ensures ReportPieces(ReportText(fs)) == Pieces(fs)
  {
    assert ReportText(fs) != "" by {
      assert |Header| > 0;
    }
    assert Split(ReportText(fs), "---") == [HeaderIntro] + Pieces(fs) + ["\n\n"] by {
      PiecesClean(fs);
      SplitReport(fs);
    }
    PiecesNotBlank(fs);
    PiecesOfSplit(ReportText(fs), HeaderIntro, Pieces(fs));
  }

  /** Rendering a written report reads back exactly the written pieces,
      and each piece shows the view of the section it was written from. */
  lemma RenderWrittenReport(fs: seq<SectionFields>)
    requires forall k :: 0 <= k < |fs| ==> Renderable(fs[k])
    ensures RenderReport(ReportText(fs)) == Some(ParseSections(Pieces(fs)))
    ensures |ParseSections(Pieces(fs))| == |fs|
    ensures forall k :: 0 <= k < |fs| ==> ParseSections(Pieces(fs))[k] == ViewFor(fs[k])
  {
    WrittenPieces(fs);
    RenderNonEmpty(ReportText(fs));
    ParsedPieces(fs);
  }

  /** The key points as the page as written shows them: the points'
      non-blank lines without the last one. */
  function PointsAsWritten(f: SectionFields): string {
    var k := PointLines(f);
    if |k| == 0 then "" else Join(k[..|k| - 1], "\n")
  }

  /** What the page as written shows for a section written from `f`: the
      view of `f` with the last key-point line missing. */
  function ViewAsWritten(f: SectionFields): ViewSection {
    ViewFor(f).(points := PointsAsWritten(f))
  }

  /** The page as written reads one written section back field by field,
      except for the last key point. */
  lemma ParsePieceAsWritten(f: SectionFields)
    requires Renderable(f)
    ensures ParseLinesAsWritten(SectionLines(Piece(f))) == ViewAsWritten(f)
  {
    SectionLinesOf(f);
    KeyPointsAt(f);
    PointsRead(f);
    ParsePiece(f);
  }

  /** Rendering a written report on the page as written shows one section
      per written section, in order, each the view of its fields without
      the last key-point line. */
  lemma RenderWrittenReportAsWritten(fs: seq<SectionFields>)
    requires forall k :: 0 <= k < |fs| ==> Renderable(fs[k])
    ensures RenderReportAsWritten(ReportText(fs)) == Some(ParseSectionsAsWritten(Pieces(fs)))
    ensures |ParseSectionsAsWritten(Pieces(fs))| == |fs|
    ensures forall k :: 0 <= k < |fs| ==> ParseSectionsAsWritten(Pieces(fs))[k] == ViewAsWritten(fs[k])
  {
    WrittenPieces(fs);
    forall k | 0 <= k < |fs| ensures ParseSectionsAsWritten(Pieces(fs))[k] == ViewAsWritten(fs[k]) {
      ParsePieceAsWritten(fs[k]);
    }
  }

  /** As frontend/src/App.jsx:94 is written, the page drops the last key
      point of every section that has any: it shows the key points' lines
      without the last one, which differs from what the writer wrote. */
  lemma AsWrittenDropsLastKeyPoint(f: SectionFields)
    requires Renderable(f) && |PointLines(f)| > 0
    ensures var k := PointLines(f);
            ParseLinesAsWritten(SectionLines(Piece(f))).points == Join(k[..|k| - 1], "\n")
    ensures ParseLinesAsWritten(SectionLines(Piece(f))).points != ParseSection(Piece(f)).points
  {
    SectionLinesOf(f);
    KeyPointsAt(f);
    PointsRead(f);
    ParsePiece(f);
    PointLinesNotEmpty(f);
    JoinDropLast(PointLines(f));
  }

  lemma PointLinesNotEmpty(f: SectionFields)
    ensures forall i :: 0 <= i < |PointLines(f)| ==> PointLines(f)[i] != ""
  {
    NonBlankMembers(Split(f.points, "\n"));
    assert Trim("") == "";
    forall i | 0 <= i < |PointLines(f)| ensures PointLines(f)[i] != "" {
      assert PointLines(f)[i] in PointLines(f);
    }
  }

  /** Joining all but the last of some non-empty lines gives a shorter
      text than joining them all. */
  lemma JoinDropLast(k: seq<string>)
    requires |k| > 0 && forall i :: 0 <= i < |k| ==> k[i] != ""
    ensures Join(k[..|k| - 1], "\n") != Join(k, "\n")
  {
    var n := |k|;
    if n == 1 {
      assert k[..0] == [];
      assert Join(k, "\n") == k[0];
    } else {
      var a, x := k[..n - 1], k[n - 1];
      assert Join(k, "\n") == Join(a, "\n") + "\n" + x by {
        DropLast(k);
        JoinAppend(a, [x], "\n");
      }
      Longer(Join(a, "\n"), Join(k, "\n"));
    }
  }

  lemma DropLast<T>(k: seq<T>)
    requires |k| > 0
    ensures k == k[..|k| - 1] + [k[|k| - 1]]
  {
  }

  lemma Longer(a: string, b: string)
    requires |a| < |b|
    ensures a != b
  {
  }

  /** A section whose key points are "- a" and "- b" shows only "- a". */
  lemma KeyPointExample(f: SectionFields)
    requires Renderable(f) && f.points == "- a\n- b"
    ensures ParseSection(Piece(f)).points == "- a\n- b"
    ensures ParseLinesAsWritten(SectionLines(Piece(f))).points == "- a"
  {
    TwoPoints(f.points);
    AsWrittenDropsLastKeyPoint(f);
    ParsePiece(f);
    TwoPointsJoin();
  }

  lemma TwoPointsJoin()
    ensures Join(["- a", "- b"], "\n") == "- a\n- b"
    ensures ["- a", "- b"][..1] == ["- a"] && Join(["- a"], "\n") == "- a"
  {
  }

  lemma TwoPoints(points: string)
    requires points == "- a\n- b"
    ensures NonBlank(Split(points, "\n")) == ["- a", "- b"]
  {
    assert Split(points, "\n") == ["- a"] + (["- b"] + []) by {
      assert points == "- a" + "\n" + "- b";
      SplitLineAt("- a", "- b", "\n");
      SplitWithoutOne("- b", "\n");
    }
    NotBlank("- a");
    NotBlank("- b");
    NonBlankCons("- a", ["- b"] + []);
    NonBlankCons("- b", []);
  }
}
