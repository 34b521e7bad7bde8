/** The report written by backend/main.py and read by frontend/src/App.jsx
    agree: rendering the written report shows, for every section in order,
    the fields the writer put in, normalised the way the reader normalises
    them (blank lines dropped, surrounding white space trimmed, empty values
    replaced by the reader's placeholders).

    The writer does not escape anything, so the reader can only recover
    fields that do not collide with the report's own syntax; Renderable
    states those conditions.
 */
module RoundTrip {
  import opened Results
  import opened Text
  import opened TextLemmas
  import opened Report
  import opened ReportView

  const KeyPointsLine: string := "**Key Points:**"

  function TitleLine(f: SectionFields): string {
    "## " + f.title
  }

  function SourceLine(f: SectionFields): string {
    "**Source:** " + f.source
  }

  function RelevanceLine(f: SectionFields): string {
    "**Relevance:** " + IntToString(f.relevance) + "%"
  }

  function LinkLine(f: SectionFields): string {
    "[" + LinkText + "](" + f.link + ")"
  }

  /** A section without the separator and blank lines after it. */
  function Core(f: SectionFields): string {
    SectionTitle(f) + (SectionSource(f) + (SectionRelevance(f) + (SectionBody(f) + LinkLine(f))))
  }

  /** The piece of the report between two "---" separators that holds the
      section for `f`. */
  function Piece(f: SectionFields): string {
    "\n\n" + Core(f) + "\n\n"
  }

  function Pieces(fs: seq<SectionFields>): (r: seq<string>)
    ensures |r| == |fs|
    ensures forall k :: 0 <= k < |fs| ==> r[k] == Piece(fs[k])
  {
    if |fs| == 0 then [] else [Piece(fs[0])] + Pieces(fs[1..])
  }

  lemma SectionIsPiece(f: SectionFields)
    ensures SectionText(f) == Core(f) + "\n\n---\n\n"
  {
    var t, so, r, b := SectionTitle(f), SectionSource(f), SectionRelevance(f), SectionBody(f);
    Assoc5(t, so, r, b, LinkLine(f), "\n\n---\n\n");
  }

  /** The link text is a plain word sequence starting with "Read". */
  lemma LinkTextPlain()
    ensures LinkText == "Read" + " Full Article"
    ensures '-' !in LinkText && ']' !in LinkText && '\n' !in LinkText
  {
  }

  lemma PieceGlue(c: string, rest: string)
    ensures "\n\n" + (c + "\n\n---\n\n" + rest) == ("\n\n" + c + "\n\n") + "---" + ("\n\n" + rest)
  {
  }

  lemma HeaderGlue(rest: string)
    ensures Header + rest == HeaderIntro + "---" + ("\n\n" + rest)
  {
  }

  lemma Assoc5(a: string, b: string, c: string, d: string, e: string, z: string)
    ensures a + b + c + d + (e + z) == a + (b + (c + (d + e))) + z
  {
  }

  /** The report is the header text, the section pieces and a final blank
      piece, joined by "---". */
  lemma {:induction false} SectionsAsJoin(fs: seq<SectionFields>)
    ensures "\n\n" + SectionsText(fs) == Join(Pieces(fs) + ["\n\n"], "---")
    decreases |fs|
  {
    if |fs| > 0 {
      var rest := Pieces(fs[1..]) + ["\n\n"];
      assert Join(Pieces(fs) + ["\n\n"], "---") == Piece(fs[0]) + "---" + Join(rest, "---") by {
        assert Pieces(fs) == [Piece(fs[0])] + Pieces(fs[1..]);
        ConcatAssoc([Piece(fs[0])], Pieces(fs[1..]), ["\n\n"]);
        JoinCons(Piece(fs[0]), rest, "---");
      }
      assert "\n\n" + SectionsText(fs) == Piece(fs[0]) + "---" + ("\n\n" + SectionsText(fs[1..])) by {
        SectionIsPiece(fs[0]);
        PieceGlue(Core(fs[0]), SectionsText(fs[1..]));
      }
      SectionsAsJoin(fs[1..]);
    } else {
      assert Pieces(fs) + ["\n\n"] == ["\n\n"];
    }
  }

  lemma ReportAsJoin(fs: seq<SectionFields>)
    ensures ReportText(fs) == Join([HeaderIntro] + Pieces(fs) + ["\n\n"], "---")
  {
    var rest := Pieces(fs) + ["\n\n"];
    assert Join([HeaderIntro] + Pieces(fs) + ["\n\n"], "---") == HeaderIntro + "---" + Join(rest, "---") by {
      ConcatAssoc([HeaderIntro], Pieces(fs), ["\n\n"]);
      JoinCons(HeaderIntro, rest, "---");
    }
    HeaderGlue(SectionsText(fs));
    SectionsAsJoin(fs);
  }

  lemma JoinCons(x: string, rest: seq<string>, sep: string)
    requires |rest| > 0
    ensures Join([x] + rest, sep) == x + sep + Join(rest, sep)
  {
    assert ([x] + rest)[1..] == rest;
  }

  /** The conditions under which the reader recovers a section: no field
      holds the separator "---", the one-line fields hold no line break, the
      link holds no ')', and no line of the paragraph or the key points can
      be mistaken for the link line or the key-points heading. */
  predicate Renderable(f: SectionFields) {
    && Free(f.title, "---") && Free(f.source, "---") && Free(f.paragraph, "---")
    && Free(f.points, "---") && Free(f.link, "---")
    && '\n' !in f.title && '\n' !in f.source && '\n' !in f.link
    && ')' !in f.link
    && (forall line | line in Split(f.paragraph, "\n") ::
          !StartsWith(line, "[Read") && !StartsWith(line, KeyPointsLine))
    && (forall line | line in Split(f.points, "\n") :: !StartsWith(line, "[Read"))
  }

  /** A field between two dash-free, non-empty literals stays free of "---". */
  lemma FreeWrap(pre: string, x: string, post: string)
    requires '-' !in pre && '-' !in post && |pre| > 0 && |post| > 0
    requires Free(x, "---")
    ensures Free(pre + x + post, "---")
  {
    DashFree(pre);
    DashFree(post);
    assert pre[|pre| - 1] in pre;
    DashFreeAppend(pre, x);
    assert post[0] in post;
    DashFreeAppend(pre + x, post);
  }

  lemma IntFree(n: int)
    ensures Free(IntToString(n), "---")
  {
    var s := IntToString(n);
    forall q: nat | q <= |s| ensures !OccursAt(s, "---", q) {
      DashRun(s, q);
      if q + 3 <= |s| {
        if n < 0 {
          assert s[q + 1] == s[1..][q] && IsDigit(s[1..][q]);
        } else {
          assert IsDigit(s[q]);
        }
      }
    }
  }

  /** Five blocks each free of "---", the first four ending in a line break,
      joined. */
  lemma FreeBlocks(a: string, b: string, c: string, d: string, e: string)
    requires Free(a, "---") && Free(b, "---") && Free(c, "---") && Free(d, "---") && Free(e, "---")
    requires |a| > 0 && |b| > 0 && |c| > 0 && |d| > 0
    requires a[|a| - 1] == '\n' && b[|b| - 1] == '\n' && c[|c| - 1] == '\n' && d[|d| - 1] == '\n'
    ensures Free(a + (b + (c + (d + e))), "---")
  {
    DashFreeAppend(d, e);
    DashFreeAppend(c, d + e);
    DashFreeAppend(b, c + (d + e));
    DashFreeAppend(a, b + (c + (d + e)));
  }

  lemma BodyFree(p: string, k: string)
    requires Free(p, "---") && Free(k, "---")
    ensures Free(p + "\n\n**Key Points:**\n" + k + "\n\n", "---")
  {
    var mid := "\n\n**Key Points:**\n";
    DashFree(mid);
    DashFree("\n\n");
    DashFreeAppend(p, mid);
    DashFreeAppend(p + mid, k);
    DashFreeAppend(p + mid + k, "\n\n");
  }

  lemma CoreFree(f: SectionFields)
    requires Renderable(f)
    ensures Free(Core(f), "---")
  {
    FreeWrap("## ", f.title, "\n");
    FreeWrap("**Source:** ", f.source, "\n");
    IntFree(f.relevance);
    FreeWrap("**Relevance:** ", IntToString(f.relevance), "%\n\n");
    BodyFree(f.paragraph, f.points);
    LinkTextPlain();
    FreeWrap("[" + LinkText + "](", f.link, ")");
    FreeBlocks(SectionTitle(f), SectionSource(f), SectionRelevance(f), SectionBody(f), LinkLine(f));
  }

  lemma PieceClean(f: SectionFields)
    requires Renderable(f)
    ensures Clean(Piece(f), "---")
  {
    CoreFree(f);
    FreeWrap("\n\n", Core(f), "\n\n");
    DashClean(Piece(f));
  }

  /** Cutting the report at "---" yields the header, one piece per section
      and a blank tail, when no piece holds a separator of its own. */
  lemma SplitReport(fs: seq<SectionFields>)
    requires forall k :: 0 <= k < |Pieces(fs)| ==> Clean(Pieces(fs)[k], "---")
    ensures Split(ReportText(fs), "---") == [HeaderIntro] + Pieces(fs) + ["\n\n"]
  {
    HeaderClean();
    BlankTailClean();
    SplitFramed(HeaderIntro, Pieces(fs), "\n\n", "---");
    ReportAsJoin(fs);
  }

  /** Parts framed by a head and a tail, none holding a separator of its
      own, are recovered from their join. */
  lemma SplitFramed(h: string, ps: seq<string>, t: string, sep: string)
    requires |sep| > 0 && Clean(h, sep) && Clean(t, sep)
    requires forall k :: 0 <= k < |ps| ==> Clean(ps[k], sep)
    ensures Split(Join([h] + ps + [t], sep), sep) == [h] + ps + [t]
  {
    var parts := [h] + ps + [t];
    forall k | 0 <= k < |parts| ensures Clean(parts[k], sep) {
      Framed(h, ps, t, k);
    }
    SplitJoin(parts, sep);
  }

  lemma Framed<T>(h: T, ps: seq<T>, t: T, k: nat)
    requires k < |ps| + 2
    ensures var parts := [h] + ps + [t];
            |parts| == |ps| + 2
            && parts[k] == if k == 0 then h else if k == |ps| + 1 then t else ps[k - 1]
  {
  }

  lemma BlankTailClean()
    ensures Clean("\n\n", "---")
  {
    DashFree("\n\n");
    DashClean("\n\n");
  }

  lemma HeaderClean()
    ensures Clean(HeaderIntro, "---")
  {
    IntroNoDash();
    assert '-' !in ReportTitle;
    DashFree(HeaderIntro);
    DashClean(HeaderIntro);
  }

  /** The body and link with every line break spelt out. */
  lemma GlueBody(f: SectionFields)
    ensures SectionBody(f) + LinkLine(f)
         == f.paragraph + "\n" + ("\n" + (KeyPointsLine + "\n" + (f.points + "\n" + ("\n" + LinkLine(f)))))
  {
    assert "\n\n**Key Points:**\n" == "\n" + "\n" + KeyPointsLine + "\n";
    assert "\n\n" == "\n" + "\n";
    BodyGlue(f.paragraph, f.points, LinkLine(f), "\n\n**Key Points:**\n", KeyPointsLine, "\n", "\n\n");
  }

  lemma BodyGlue(p: string, k: string, l: string, g: string, h: string, n: string, t: string)
    requires g == n + n + h + n && t == n + n
    ensures p + g + k + t + l == p + n + (n + (h + n + (k + n + (n + l))))
  {
  }

  /** The lines of the body and link: the paragraph's lines, a blank line,
      the heading, the key points' lines, a blank line, the link line. */
  lemma {:induction false} SplitBody(p: string, h: string, k: string, l: string)
    requires '\n' !in h && '\n' !in l
    ensures Split(p + "\n" + ("\n" + (h + "\n" + (k + "\n" + ("\n" + l)))), "\n")
         == Split(p, "\n") + ["", h] + Split(k, "\n") + ["", l]
  {
    SplitBodyAt(p, h, k, l, "\n");
    SeqAssoc4(Split(p, "\n"), ["", h], Split(k, "\n"), ["", l]);
  }

  lemma {:induction false} SplitBodyAt(p: string, h: string, k: string, l: string, sep: string)
    requires |sep| == 1 && sep[0] !in h && sep[0] !in l
    ensures Split(p + sep + (sep + (h + sep + (k + sep + (sep + l)))), sep)
         == Split(p, sep) + (["", h] + (Split(k, sep) + ["", l]))
  {
    var r4 := sep + l;
    var r3 := k + sep + r4;
    var r2 := h + sep + r3;
    var r1 := sep + r2;
    assert Split(r4, sep) == ["", l] by {
      SplitAfterEmpty(l, sep);
      SplitWithoutOne(l, sep);
    }
    assert Split(r3, sep) == Split(k, sep) + ["", l] by {
      SplitAppendOne(k, r4, sep);
    }
    assert Split(r2, sep) == [h] + (Split(k, sep) + ["", l]) by {
      SplitAppendOne(h, r3, sep);
      SplitWithoutOne(h, sep);
    }
    assert Split(r1, sep) == ["", h] + (Split(k, sep) + ["", l]) by {
      SplitAfterEmpty(r2, sep);
      ConsPair("", h, Split(k, sep) + ["", l]);
    }
    SplitAppendOne(p, r1, sep);
  }

  lemma ConsPair<T>(a: T, b: T, xs: seq<T>)
    ensures [a] + ([b] + xs) == [a, b] + xs
  {
  }

  lemma SeqAssoc4(a: seq<string>, b: seq<string>, c: seq<string>, d: seq<string>)
    ensures a + (b + (c + d)) == a + b + c + d
  {
  }

  /** A string that starts with the separator splits into an empty first
      part and the parts of the rest. */
  lemma SplitAfterEmpty(s: string, sep: string)
    requires |sep| == 1
    ensures Split(sep + s, sep) == [""] + Split(s, sep)
  {
    assert sep + s == [] + sep + s;
    SplitAppendOne([], s, sep);
    SplitWithoutOne([], sep);
  }

  /** The lines of a section. */
  lemma SplitCore(f: SectionFields)
    requires '\n' !in f.title && '\n' !in f.source && '\n' !in f.link
    ensures Split(Core(f), "\n")
         == [TitleLine(f), SourceLine(f), RelevanceLine(f), ""] + Split(f.paragraph, "\n")
            + ["", KeyPointsLine] + Split(f.points, "\n") + ["", LinkLine(f)]
  {
    var body := SectionBody(f) + LinkLine(f);
    GlueCore(f);
    LinesWithoutBreak(f);
    SplitHeadAt(TitleLine(f), SourceLine(f), RelevanceLine(f), body, "\n");
    GlueBody(f);
    SplitBody(f.paragraph, KeyPointsLine, f.points, LinkLine(f));
    SeqAssoc5([TitleLine(f), SourceLine(f), RelevanceLine(f), ""], Split(f.paragraph, "\n"),
              ["", KeyPointsLine], Split(f.points, "\n"), ["", LinkLine(f)]);
  }

  lemma SeqAssoc5(a: seq<string>, b: seq<string>, c: seq<string>, d: seq<string>, e: seq<string>)
    ensures a + (b + c + d + e) == a + b + c + d + e
  {
  }

  /** A section with every line break before the body spelt out. */
  lemma GlueCore(f: SectionFields)
    ensures Core(f) == TitleLine(f) + "\n" + (SourceLine(f) + "\n" + (RelevanceLine(f) + "\n"
                         + ("\n" + (SectionBody(f) + LinkLine(f)))))
  {
  }

  /** The title, source, relevance and link lines hold no line break. */
  lemma LinesWithoutBreak(f: SectionFields)
    requires '\n' !in f.title && '\n' !in f.source && '\n' !in f.link
    ensures '\n' !in TitleLine(f) && '\n' !in SourceLine(f)
    ensures '\n' !in RelevanceLine(f) && '\n' !in LinkLine(f)
  {
    IntWithoutBreak(f.relevance);
  }

  lemma IntWithoutBreak(n: int)
    ensures '\n' !in IntToString(n)
  {
    var s := IntToString(n);
    forall k | 0 <= k < |s| ensures s[k] != '\n' {
      if n < 0 && k > 0 {
        assert s[k] == s[1..][k - 1];
      }
    }
  }

  /** Three separator-free lines and an empty one in front of the rest. */
  lemma SplitHeadAt(t: string, so: string, r: string, rest: string, sep: string)
    requires |sep| == 1 && sep[0] !in t && sep[0] !in so && sep[0] !in r
    ensures Split(t + sep + (so + sep + (r + sep + (sep + rest))), sep)
         == [t, so, r, ""] + Split(rest, sep)
  {
    var r3 := sep + rest;
    var r2 := r + sep + r3;
    var r1 := so + sep + r2;
    var x := Split(rest, sep);
    assert Split(r3, sep) == [""] + x by {
      SplitAfterEmpty(rest, sep);
    }
    assert Split(r2, sep) == [r] + ([""] + x) by {
      SplitLineAt(r, r3, sep);
    }
    assert Split(r1, sep) == [so] + ([r] + ([""] + x)) by {
      SplitLineAt(so, r2, sep);
    }
    SplitLineAt(t, r1, sep);
    Cons4(t, so, r, "", x);
  }

  /** A separator-free line in front of the rest. */
  lemma SplitLineAt(line: string, rest: string, sep: string)
    requires |sep| == 1 && sep[0] !in line
    ensures Split(line + sep + rest, sep) == [line] + Split(rest, sep)
  {
    SplitAppendOne(line, rest, sep);
    SplitWithoutOne(line, sep);
  }

  lemma Cons4(a: string, b: string, c: string, d: string, x: seq<string>)
    ensures [a] + ([b] + ([c] + ([d] + x))) == [a, b, c, d] + x
  {
  }
}
