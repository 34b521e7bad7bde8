/** Facts about the string operations of module Text: split and join are
    inverse to each other, trimming removes exactly the surrounding white
    space, and decimal notation reads back to the number it was written from.
 */
module TextLemmas {
  import opened Results
  import opened Text

  /** The first occurrence found by IndexOf is the least index where the
      pattern occurs. */
  lemma IndexOfFirst(s: string, pat: string, i: nat)
    requires OccursAt(s, pat, i)
    requires forall j: nat :: j < i ==> !OccursAt(s, pat, j)
    ensures IndexOf(s, pat, 0) == Some(i)
  {
  }

  /** Splitting a string that holds no separator yields the string alone. */
  lemma SplitOfFree(s: string, sep: string)
    requires |sep| > 0 && Free(s, sep)
    ensures Split(s, sep) == [s]
  {
  }

  lemma CleanIsFree(a: string, sep: string)
    requires |sep| > 0 && Clean(a, sep)
    ensures Free(a, sep)
  {
    forall i: nat | i <= |a|
      ensures !OccursAt(a, sep, i)
    {
      if i + |sep| <= |a| {
        assert (a + sep)[i..i + |sep|] == a[i..i + |sep|];
        assert !OccursAt(a + sep, sep, i);
      }
    }
  }

  /** A clean first part is split off at the separator that follows it. */
  lemma SplitCons(a: string, b: string, sep: string)
    requires |sep| > 0 && Clean(a, sep)
    ensures Split(a + sep + b, sep) == [a] + Split(b, sep)
  {
    var s := a + sep + b;
    assert s[..|a| + |sep|] == a + sep;
    assert s[|a|..|a| + |sep|] == sep;
    assert OccursAt(s, sep, |a|);
    forall j: nat | j < |a|
      ensures !OccursAt(s, sep, j)
    {
      assert s[j..j + |sep|] == (a + sep)[j..j + |sep|];
      assert !OccursAt(a + sep, sep, j);
    }
    IndexOfFirst(s, sep, |a|);
    assert s[..|a|] == a;
    assert s[|a| + |sep|..] == b;
  }

  /** Splitting a join of clean parts gives the parts back. */
  lemma {:induction false} SplitJoin(parts: seq<string>, sep: string)
    requires |sep| > 0 && |parts| > 0
    requires forall k :: 0 <= k < |parts| ==> Clean(parts[k], sep)
    ensures Split(Join(parts, sep), sep) == parts
    decreases |parts|
  {
    if |parts| == 1 {
      CleanIsFree(parts[0], sep);
      SplitOfFree(parts[0], sep);
    } else {
      SplitCons(parts[0], Join(parts[1..], sep), sep);
      SplitJoin(parts[1..], sep);
      assert [parts[0]] + parts[1..] == parts;
    }
  }

  /** Joining the pieces of a split with the same separator restores the
      string. */
  lemma {:induction false} JoinSplit(s: string, sep: string)
    requires |sep| > 0
    ensures Join(Split(s, sep), sep) == s
    decreases |s|
  {
    match IndexOf(s, sep, 0)
    case None =>
    case Some(i) =>
      var rest := s[i + |sep|..];
      var tail := Split(rest, sep);
      JoinSplit(rest, sep);
      assert Split(s, sep) == [s[..i]] + tail;
      assert ([s[..i]] + tail)[1..] == tail;
      assert s[i..i + |sep|] == sep;
      assert s == s[..i] + s[i..i + |sep|] + rest;
  }

  /** No piece of a split contains the separator. */
  lemma {:induction false} SplitPartsFree(s: string, sep: string)
    requires |sep| > 0
    ensures forall k :: 0 <= k < |Split(s, sep)| ==> Free(Split(s, sep)[k], sep)
    decreases |s|
  {
    match IndexOf(s, sep, 0)
    case None =>
      assert Split(s, sep) == [s];
    case Some(i) =>
      var rest := s[i + |sep|..];
      SplitPartsFree(rest, sep);
      var head := s[..i];
      forall q: nat | q <= |head|
        ensures !OccursAt(head, sep, q)
      {
        if q + |sep| <= |head| {
          assert head[q..q + |sep|] == s[q..q + |sep|];
          assert !OccursAt(s, sep, q);
        }
      }
      assert Split(s, sep) == [head] + Split(rest, sep);
  }

  /** A part that lacks the separator's first character is clean. */
  lemma CleanByFirstChar(p: string, sep: string)
    requires |sep| > 0 && sep[0] !in p
    ensures Clean(p, sep)
  {
    forall q: nat | q < |p|
      ensures !OccursAt(p + sep, sep, q)
    {
      if q + |sep| <= |p + sep| {
        assert (p + sep)[q..q + |sep|][0] == p[q];
      }
    }
  }

  lemma NewlineFree(s: string)
    requires Free(s, "\n")
    ensures '\n' !in s
  {
    forall k | 0 <= k < |s|
      ensures s[k] != '\n'
    {
      assert s[k..k + 1] == [s[k]];
      assert !OccursAt(s, "\n", k);
    }
  }

  /** The separator "---" occurs at q exactly when three dashes stand there. */
  lemma DashRun(s: string, q: nat)
    ensures OccursAt(s, "---", q) <==> q + 3 <= |s| && s[q] == '-' && s[q + 1] == '-' && s[q + 2] == '-'
  {
    if q + 3 <= |s| && s[q] == '-' && s[q + 1] == '-' && s[q + 2] == '-' {
      assert s[q..q + 3] == "---";
    }
  }

  lemma DashFree(s: string)
    requires '-' !in s
    ensures Free(s, "---")
  {
    forall q: nat | q <= |s|
      ensures !OccursAt(s, "---", q)
    {
      DashRun(s, q);
    }
  }

  /** Two strings free of "---" stay free when joined at a point that is not
      dash against dash. */
  lemma DashFreeAppend(a: string, b: string)
    requires Free(a, "---") && Free(b, "---")
    requires |a| == 0 || |b| == 0 || a[|a| - 1] != '-' || b[0] != '-'
    ensures Free(a + b, "---")
  {
    var s := a + b;
    forall q: nat | q <= |s|
      ensures !OccursAt(s, "---", q)
    {
      DashRun(s, q);
      if q + 3 <= |a| {
        DashRun(a, q);
      } else if q >= |a| {
        DashRun(b, q - |a|);
      }
    }
  }

  /** A piece free of "---" that does not end in a dash is clean for "---". */
  lemma DashClean(p: string)
    requires Free(p, "---")
    requires |p| == 0 || p[|p| - 1] != '-'
    ensures Clean(p, "---")
  {
    var s := p + "---";
    forall q: nat | q < |p|
      ensures !OccursAt(s, "---", q)
    {
      DashRun(s, q);
      if q + 3 <= |p| {
        DashRun(p, q);
      }
    }
  }

  lemma {:induction false} TrimStartBlank(w: string, x: string)
    requires IsBlank(w)
    requires |x| == 0 || !IsSpace(x[0])
    ensures TrimStart(w + x) == x
    decreases |w|
  {
    if |w| > 0 {
      assert (w + x)[1..] == w[1..] + x;
      TrimStartBlank(w[1..], x);
    } else {
      assert w + x == x;
    }
  }

  lemma {:induction false} TrimEndBlank(x: string, w: string)
    requires IsBlank(w)
    requires |x| == 0 || !IsSpace(x[|x| - 1])
    ensures TrimEnd(x + w) == x
    decreases |w|
  {
    if |w| > 0 {
      assert (x + w)[..|x + w| - 1] == x + w[..|w| - 1];
      TrimEndBlank(x, w[..|w| - 1]);
    } else {
      assert x + w == x;
    }
  }

  /** Trimming white space around a word that starts and ends with visible
      characters yields the word. */
  lemma TrimAround(w1: string, x: string, w2: string)
    requires IsBlank(w1) && IsBlank(w2)
    requires |x| > 0 && !IsSpace(x[0]) && !IsSpace(x[|x| - 1])
    ensures Trim(w1 + x + w2) == x
  {
    assert w1 + x + w2 == w1 + (x + w2);
    TrimStartBlank(w1, x + w2);
    TrimEndBlank(x, w2);
  }

  lemma TrimNoSpaceEnds(x: string)
    requires |x| == 0 || (!IsSpace(x[0]) && !IsSpace(x[|x| - 1]))
    ensures Trim(x) == x
  {
    if |x| > 0 {
      TrimAround("", x, "");
      assert "" + x + "" == x;
    }
  }

  /** `s.trim()` is empty exactly when `s` is all white space, which is when
      JavaScript's `filter(l => l.trim())` drops `s`. */
  lemma TrimEmptyIffBlank(s: string)
    ensures Trim(s) == "" <==> IsBlank(s)
  {
    var t := TrimStart(s);
    if |t| > 0 {
      assert !IsSpace(t[0]);
      assert t[0] == s[|s| - |t|];
    }
  }

  lemma {:induction false} JoinAppend(a: seq<string>, b: seq<string>, sep: string)
    requires |a| > 0 && |b| > 0
    ensures Join(a + b, sep) == Join(a, sep) + sep + Join(b, sep)
    decreases |a|
  {
    if |a| == 1 {
      assert (a + b)[1..] == b;
    } else {
      assert (a + b)[1..] == a[1..] + b;
      JoinAppend(a[1..], b, sep);
    }
  }

  lemma StartsWithPrefix(p: string, x: string)
    ensures StartsWith(p + x, p)
  {
    assert (p + x)[..|p|] == p;
  }

  /** Replacing a pattern the string starts with removes that prefix. */
  lemma ReplaceFirstPrefix(s: string, p: string, rep: string)
    requires StartsWith(s, p)
    ensures ReplaceFirst(s, p, rep) == rep + s[|p|..]
  {
    assert OccursAt(s, p, 0);
    IndexOfFirst(s, p, 0);
  }

  /** Decimal notation reads back to the number written. */
  lemma {:induction false} ParseNatToString(n: nat)
    ensures ParseNat(NatToString(n)) == n
    decreases n
  {
    var s := NatToString(n);
    if n >= 10 {
      ParseNatToString(n / 10);
      assert s[..|s| - 1] == NatToString(n / 10);
    }
  }

  /** A one-character separator occurs at `k` exactly when that character
      stands there. */
  lemma OneCharAt(s: string, sep: string, k: nat)
    requires |sep| == 1
    ensures OccursAt(s, sep, k) <==> k < |s| && s[k] == sep[0]
  {
    if k < |s| {
      assert s[k..k + 1] == [s[k]];
    }
  }

  /** With a one-character separator, splitting distributes over a join
      of two strings at that separator. */
  lemma {:induction false} SplitAppendOne(a: string, b: string, sep: string)
    requires |sep| == 1
    ensures Split(a + sep + b, sep) == Split(a, sep) + Split(b, sep)
    decreases |a|
  {
    match IndexOf(a, sep, 0)
    case None =>
      forall k | 0 <= k < |a| ensures a[k] != sep[0] {
        OneCharAt(a, sep, k);
      }
      CleanByFirstChar(a, sep);
      SplitCons(a, b, sep);
    case Some(i) =>
      var head := a[..i];
      var rest := a[i + 1..];
      assert Clean(head, sep) by {
        forall k | 0 <= k < |head| ensures head[k] != sep[0] {
          OneCharAt(a, sep, k);
        }
        CleanByFirstChar(head, sep);
      }
      assert a == head + sep + rest by {
        assert a[i..i + 1] == sep;
      }
      assert Split(a, sep) == [head] + Split(rest, sep) by {
        SplitCons(head, rest, sep);
      }
      assert Split(a + sep + b, sep) == [head] + Split(rest + sep + b, sep) by {
        assert a + sep + b == head + sep + (rest + sep + b);
        SplitCons(head, rest + sep + b, sep);
      }
      SplitAppendOne(rest, b, sep);
      ConcatAssoc([head], Split(rest, sep), Split(b, sep));
  }

  lemma ConcatAssoc<T>(a: seq<T>, b: seq<T>, c: seq<T>)
    ensures a + (b + c) == a + b + c
  {
  }

  /** A string without the separator character splits into itself. */
  lemma SplitWithoutOne(s: string, sep: string)
    requires |sep| == 1 && sep[0] !in s
    ensures Split(s, sep) == [s]
  {
    forall k: nat | k <= |s| ensures !OccursAt(s, sep, k) {
      OneCharAt(s, sep, k);
    }
  }

  /** A pattern absent at an index of a string is absent at the matching
      index of any slice of it. */
  lemma AbsentInSlice(s: string, a: nat, b: nat, pat: string, q: nat)
    requires a <= b <= |s| && !OccursAt(s, pat, a + q)
    ensures !OccursAt(s[a..b], pat, q)
  {
    if q + |pat| <= b - a {
      var u, v := s[a..b][q..q + |pat|], s[a + q..a + q + |pat|];
      assert forall i :: 0 <= i < |pat| ==> u[i] == v[i];
      assert u == v;
    }
  }
}
