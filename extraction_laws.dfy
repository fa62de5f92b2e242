/**
 * Laws of the reply extraction that hold for every reply: whitespace splits
 * the reply into independent parts, text without an `h` in front of the
 * reply changes nothing, a match ends at the last `.jpg` of its run, and
 * URLs joined without whitespace form a single match.
 */
module ExtractionLaws {
  import opened Extraction

  /** The spans of a part of the reply that starts at offset `d`, as spans of the whole reply. */
  function Shift(spans: seq<Span>, d: nat): seq<Span> {
    seq(|spans|, k requires 0 <= k < |spans| => Span(spans[k].start + d, spans[k].end + d))
  }

  lemma ShiftCons(b: seq<Span>, d: nat)
    requires b != []
    ensures Shift(b, d) == [Span(b[0].start + d, b[0].end + d)] + Shift(b[1..], d)
  {
    var x := [Span(b[0].start + d, b[0].end + d)] + Shift(b[1..], d);
    assert forall k :: 1 <= k < |b| ==> x[k] == Shift(b[1..], d)[k - 1];
  }

  /** A stretch of the suffix `t` of `pre + t`, read in `pre + t`. */
  lemma SliceOfSuffix(pre: string, t: string, i: nat, j: nat)
    requires i <= j <= |t|
    ensures (pre + t)[i + |pre|..j + |pre|] == t[i..j]
  {
  }

  /** A stretch of the prefix `u` of `u + t`, read in `u + t`. */
  lemma SliceOfPrefix(u: string, t: string, i: nat, j: nat)
    requires i <= j <= |u|
    ensures (u + t)[i..j] == u[i..j]
  {
  }

  /** A match that starts inside the suffix `t` of `pre + t` is a match of `t`. */
  lemma MatchInSuffix(pre: string, t: string, j: nat, m: nat)
    requires |pre| <= j
    ensures IsMatchAt(pre + t, j, m) <==> |pre| <= m && IsMatchAt(t, j - |pre|, m - |pre|)
  {
    if j <= m <= |pre + t| {
      assert (pre + t)[j..m] == t[j - |pre|..m - |pre|];
    }
  }

  lemma NoMatchShift(pre: string, t: string, lo: nat, hi: nat)
    requires NoMatchIn(t, lo, hi)
    ensures NoMatchIn(pre + t, lo + |pre|, hi + |pre|)
  {
    forall j: nat, m: nat | lo + |pre| <= j < hi + |pre| && j <= m <= |pre + t|
      ensures !IsMatchAt(pre + t, j, m)
    {
      MatchInSuffix(pre, t, j, m);
    }
  }

  lemma LongestShift(pre: string, t: string, i: nat, e: nat)
    requires IsLongestMatchAt(t, i, e)
    ensures IsLongestMatchAt(pre + t, i + |pre|, e + |pre|)
  {
    var w, i' := pre + t, i + |pre|;
    MatchInSuffix(pre, t, i', e + |pre|);
    forall m: nat | e + |pre| < m <= |w|
      ensures !IsMatchAt(w, i', m)
    {
      MatchInSuffix(pre, t, i', m);
    }
  }

  /** Scanning the suffix `t` of `pre + t` reports the matches of `t`, moved by `|pre|`. */
  lemma {:induction false} ShiftFindall(pre: string, t: string, from: nat, b: seq<Span>)
    requires IsFindallFrom(t, from, b)
    ensures IsFindallFrom(pre + t, from + |pre|, Shift(b, |pre|))
    decreases |b|
  {
    if b == [] {
      NoMatchShift(pre, t, from, |t| + 1);
      assert Shift(b, |pre|) == [];
    } else {
      ShiftFindall(pre, t, b[0].end, b[1..]);
      ShiftHead(pre, t, from, b[0].start, b[0].end, Shift(b[1..], |pre|));
      ShiftCons(b, |pre|);
    }
  }

  /** A longest match of `t`, moved by `|pre|`, in front of a scan of `pre + t` from its end. */
  lemma ShiftHead(pre: string, t: string, from: nat, start: nat, end: nat, rest: seq<Span>)
    requires from <= start && NoMatchIn(t, from, start)
    requires IsLongestMatchAt(t, start, end)
    requires IsFindallFrom(pre + t, end + |pre|, rest)
    ensures IsFindallFrom(pre + t, from + |pre|, [Span(start + |pre|, end + |pre|)] + rest)
  {
    NoMatchShift(pre, t, from, start);
    LongestShift(pre, t, start, end);
    FindallCons(pre + t, from + |pre|, start + |pre|, end + |pre|, rest);
  }

  /** A stretch without matches in front of a scan can be scanned over. */
  lemma GapThenFindall(s: string, from: nat, g: nat, x: seq<Span>)
    requires from <= g
    requires NoMatchIn(s, from, g)
    requires IsFindallFrom(s, g, x)
    ensures IsFindallFrom(s, from, x)
  {
  }

  /** A match contains no whitespace character. */
  lemma MatchHasNoSpace(s: string, j: nat, m: nat, k: nat)
    requires k < |s|
    ensures IsMatchAt(s, j, m) && j <= k < m ==> !IsSpace(s[k])
  {
  }

  /** Before a whitespace character `c`, the matches of `u + [c] + t` are those of `u`. */
  lemma MatchBeforeSpace(u: string, c: char, t: string, j: nat, m: nat)
    requires IsSpace(c)
    requires j <= |u|
    ensures IsMatchAt(u + [c] + t, j, m) <==> IsMatchAt(u, j, m)
  {
    var w := u + [c] + t;
    MatchHasNoSpace(w, j, m, |u|);
    if j <= m <= |u| {
      assert w[j..m] == u[j..m];
    }
  }

  lemma NoMatchBeforeSpace(u: string, c: char, t: string, lo: nat, hi: nat)
    requires IsSpace(c)
    requires hi <= |u| + 1
    requires NoMatchIn(u, lo, hi)
    ensures NoMatchIn(u + [c] + t, lo, hi)
  {
    forall j: nat, m: nat | lo <= j < hi && j <= m <= |u + [c] + t|
      ensures !IsMatchAt(u + [c] + t, j, m)
    {
      MatchBeforeSpace(u, c, t, j, m);
    }
  }

  lemma LongestBeforeSpace(u: string, c: char, t: string, i: nat, e: nat)
    requires IsSpace(c)
    requires IsLongestMatchAt(u, i, e)
    ensures IsLongestMatchAt(u + [c] + t, i, e)
  {
    MatchBeforeSpace(u, c, t, i, e);
    forall m: nat | e < m <= |u + [c] + t|
      ensures !IsMatchAt(u + [c] + t, i, m)
    {
      MatchBeforeSpace(u, c, t, i, m);
    }
  }

  /** Scanning `u + [c] + t` from inside `u` reports the rest of `u`'s matches, then `t`'s. */
  lemma {:induction false} SplitFindall(u: string, c: char, t: string, from: nat, a: seq<Span>, b: seq<Span>)
    requires IsSpace(c)
    requires from <= |u|
    requires IsFindallFrom(u, from, a)
    requires IsFindallFrom(t, 0, b)
    ensures IsFindallFrom(u + [c] + t, from, a + Shift(b, |u| + 1))
    decreases |a|
  {
    var w := u + [c] + t;
    var tail := Shift(b, |u| + 1);
    if a == [] {
      NoMatchBeforeSpace(u, c, t, from, |u| + 1);
      ShiftFindall(u + [c], t, 0, b);
      GapThenFindall(w, from, |u| + 1, tail);
      assert a + tail == tail;
    } else {
      SplitFindall(u, c, t, a[0].end, a[1..], b);
      SplitHead(u, c, t, from, a[0].start, a[0].end, a[1..] + tail);
      assert a + tail == [Span(a[0].start, a[0].end)] + (a[1..] + tail);
    }
  }

  /** A longest match of `u`, read in `u + [c] + t`, in front of a scan from its end. */
  lemma SplitHead(u: string, c: char, t: string, from: nat, start: nat, end: nat, rest: seq<Span>)
    requires IsSpace(c)
    requires from <= start && NoMatchIn(u, from, start)
    requires IsLongestMatchAt(u, start, end)
    requires IsFindallFrom(u + [c] + t, end, rest)
    ensures IsFindallFrom(u + [c] + t, from, [Span(start, end)] + rest)
  {
    NoMatchBeforeSpace(u, c, t, from, start);
    LongestBeforeSpace(u, c, t, start, end);
    FindallCons(u + [c] + t, from, start, end, rest);
  }

  /** Substrings at spans of `t`, read in `pre + t` at the shifted spans. */
  lemma SubstringsShift(pre: string, t: string, b: seq<Span>)
    requires forall k :: 0 <= k < |b| ==> b[k].start <= b[k].end <= |t|
    ensures Substrings(pre + t, Shift(b, |pre|)) == Substrings(t, b)
  {
    forall k | 0 <= k < |b|
      ensures Substrings(pre + t, Shift(b, |pre|))[k] == Substrings(t, b)[k]
    {
      SliceOfSuffix(pre, t, b[k].start, b[k].end);
    }
  }

  /** The substrings at the spans of the part before the whitespace character. */
  lemma SubstringsSplitFront(u: string, c: char, t: string, a: seq<Span>, b: seq<Span>)
    requires forall k :: 0 <= k < |a| ==> a[k].start <= a[k].end <= |u|
    requires forall k :: 0 <= k < |b| ==> b[k].start <= b[k].end <= |t|
    ensures forall k :: 0 <= k < |a| ==>
      Substrings(u + [c] + t, a + Shift(b, |u| + 1))[k] == Substrings(u, a)[k]
  {
    var w := u + [c] + t;
    var x := a + Shift(b, |u| + 1);
    forall k | 0 <= k < |a|
      ensures Substrings(w, x)[k] == Substrings(u, a)[k]
    {
      assert x[k] == a[k];
      SliceOfPrefix(u, [c] + t, a[k].start, a[k].end);
    }
  }

  /** The substrings at the spans of the part after the whitespace character. */
  lemma SubstringsSplitBack(u: string, c: char, t: string, a: seq<Span>, b: seq<Span>)
    requires forall k :: 0 <= k < |a| ==> a[k].start <= a[k].end <= |u|
    requires forall k :: 0 <= k < |b| ==> b[k].start <= b[k].end <= |t|
    ensures forall k :: 0 <= k < |b| ==>
      Substrings(u + [c] + t, a + Shift(b, |u| + 1))[|a| + k] == Substrings(t, b)[k]
  {
    var w := u + [c] + t;
    var x := a + Shift(b, |u| + 1);
    SubstringsShift(u + [c], t, b);
    forall k | 0 <= k < |b|
      ensures Substrings(w, x)[|a| + k] == Substrings(t, b)[k]
    {
      assert x[|a| + k] == Shift(b, |u| + 1)[k];
      assert Substrings(w, x)[|a| + k] == Substrings(w, Shift(b, |u| + 1))[k];
    }
  }

  /** Substrings at spans of `u` and, shifted past `u + [c]`, of `t`, read in `u + [c] + t`. */
  lemma SubstringsSplit(u: string, c: char, t: string, a: seq<Span>, b: seq<Span>)
    requires forall k :: 0 <= k < |a| ==> a[k].start <= a[k].end <= |u|
    requires forall k :: 0 <= k < |b| ==> b[k].start <= b[k].end <= |t|
    ensures Substrings(u + [c] + t, a + Shift(b, |u| + 1)) == Substrings(u, a) + Substrings(t, b)
  {
    SubstringsSplitFront(u, c, t, a, b);
    SubstringsSplitBack(u, c, t, a, b);
  }

  /**
   * A whitespace character splits the reply into two parts that are scanned
   * independently: the URLs of the whole are those of the part before it,
   * followed by those of the part after it.
   */
  lemma SpaceSplits(u: string, c: char, t: string)
    requires IsSpace(c)
    ensures ExtractJpgUrls(u + [c] + t) == ExtractJpgUrls(u) + ExtractJpgUrls(t)
  {
    var w := u + [c] + t;
    var a, b := FindallSpans(u), FindallSpans(t);
    SplitFindall(u, c, t, 0, a, b);
    FindallUnique(w, 0, FindallSpans(w), a + Shift(b, |u| + 1));
    SubstringsSplit(u, c, t, a, b);
  }

  /** A match starts with `h`. */
  lemma MatchStartsWithH(s: string, j: nat, m: nat)
    ensures IsMatchAt(s, j, m) ==> s[j] == 'h'
  {
    if IsMatchAt(s, j, m) {
      assert s[j] == s[j..m][..7][0];
    }
  }

  /** Text without an `h` in front of the reply never starts a match, so it changes nothing. */
  lemma LeadingTextWithoutH(pre: string, t: string)
    requires 'h' !in pre
    ensures ExtractJpgUrls(pre + t) == ExtractJpgUrls(t)
  {
    var w := pre + t;
    var b := FindallSpans(t);
    ShiftFindall(pre, t, 0, b);
    forall j: nat, m: nat | 0 <= j < |pre| && j <= m <= |w|
      ensures !IsMatchAt(w, j, m)
    {
      assert w[j] == pre[j];
      MatchStartsWithH(w, j, m);
    }
    GapThenFindall(w, 0, |pre|, Shift(b, |pre|));
    FindallUnique(w, 0, FindallSpans(w), Shift(b, |pre|));
    SubstringsShift(pre, t, b);
  }

  /** A reply that is exactly one URL of the pattern yields that URL. */
  lemma WholeReplyUrl(s: string)
    requires IsJpgUrl(s)
    ensures ExtractJpgUrls(s) == [s]
  {
    assert s[0..|s|] == s;
    assert IsLongestMatchAt(s, 0, |s|);
    forall j: nat, m: nat | |s| <= j < |s| + 1 && j <= m <= |s|
      ensures !IsMatchAt(s, j, m)
    {
      assert |s[j..m]| == 0;
    }
    assert IsFindallFrom(s, |s|, []);
    FindallUnique(s, 0, FindallSpans(s), [Span(0, |s|)]);
  }

  /** A match contains a lower-case `j` three characters before its end. */
  lemma MatchHasJ(s: string, j: nat, m: nat)
    ensures IsMatchAt(s, j, m) ==> 3 <= m && s[m - 3] == 'j'
  {
  }

  /** A reply without a lower-case `j` yields nothing: in particular `.JPG` and `.png` are never matched. */
  lemma NoUrlsWithoutJ(s: string)
    requires 'j' !in s
    ensures ExtractJpgUrls(s) == []
  {
    forall j: nat, m: nat | 0 <= j < |s| + 1 && j <= m <= |s|
      ensures !IsMatchAt(s, j, m)
    {
      MatchHasJ(s, j, m);
    }
    FindallUnique(s, 0, FindallSpans(s), []);
  }

  /** Past a longest match, no `.jpg` ends while the run of non-space characters goes on. */
  lemma NoJpgPastLongest(s: string, i: nat, e: nat, m: nat)
    requires IsLongestMatchAt(s, i, e)
    requires e < m <= |s| && NoSpace(s[i..m])
    ensures !HasAt(s, m - 4, ".jpg")
  {
    if SchemeEnd(s, i).None? {
      NoSchemeNoMatch(s, i);
      assert false;
    }
    var p := SchemeEnd(s, i).value;
    MatchForward(s, i, p, e);
    forall j | p <= j < m
      ensures !IsSpace(s[j])
    {
      assert s[j] == s[i..m][j - i];
    }
    if HasAt(s, m - 4, ".jpg") {
      MatchBackward(s, i, p, m);
    }
  }

  /**
   * Greedy matching: no `.jpg` ends after a reported match inside the same
   * run of non-space characters, so each match ends at the last `.jpg` of its run.
   */
  lemma GreedyToLastJpg(s: string, k: nat)
    requires k < |FindallSpans(s)|
    ensures var sp := FindallSpans(s)[k];
      forall m: nat :: sp.end < m <= |s| && NoSpace(s[sp.start..m]) ==> !HasAt(s, m - 4, ".jpg")
  {
    var sp := FindallSpans(s)[k];
    SpanIsMatch(s, 0, FindallSpans(s), k);
    forall m: nat | sp.end < m <= |s| && NoSpace(s[sp.start..m])
      ensures !HasAt(s, m - 4, ".jpg")
    {
      NoJpgPastLongest(s, sp.start, sp.end, m);
    }
  }

  /** Two URLs of the pattern separated by one whitespace character are both returned, in order. */
  lemma TwoUrlsSeparated(x: string, c: char, y: string)
    requires IsJpgUrl(x) && IsJpgUrl(y) && IsSpace(c)
    ensures ExtractJpgUrls(x + [c] + y) == [x, y]
  {
    WholeReplyUrl(x);
    WholeReplyUrl(y);
    SpaceSplits(x, c, y);
  }

  /** Text without whitespace on both sides of a join has none in the whole. */
  lemma NoSpaceAppend(a: string, b: string)
    requires NoSpace(a) && NoSpace(b)
    ensures NoSpace(a + b)
  {
    assert forall k :: |a| <= k < |a + b| ==> (a + b)[k] == b[k - |a|];
  }

  /** Two URLs of the pattern joined by text without whitespace form one string of the pattern. */
  lemma JoinedUrls(x: string, mid: string, y: string)
    requires IsJpgUrl(x) && NoSpace(mid) && IsJpgUrl(y)
    ensures IsJpgUrl(x + mid + y)
  {
    var w := x + mid + y;
    NoSpaceAppend(x, mid);
    NoSpaceAppend(x + mid, y);
    assert w[..7] == x[..7];
    assert |x| >= 8 ==> w[..8] == x[..8];
    assert w[|w| - 4..] == y[|y| - 4..];
  }

  /** A URL of the pattern preceded by text without an `h` is returned alone, whole. */
  lemma UrlAfterTextWithoutH(pre: string, url: string)
    requires 'h' !in pre && IsJpgUrl(url)
    ensures ExtractJpgUrls(pre + url) == [url]
  {
    WholeReplyUrl(url);
    LeadingTextWithoutH(pre, url);
  }

  /**
   * Four space-separated words, `head` holding the first two and `tail` the
   * last two, of which only the second is a URL of the pattern.
   */
  lemma OneUrlAmongWords(head: string, tail: string, w1: string, url: string, w3: string, w4: string)
    requires head == w1 + [' '] + url && tail == w3 + [' '] + w4
    requires 'j' !in w1 && 'j' !in w3 && 'j' !in w4 && IsJpgUrl(url)
    ensures ExtractJpgUrls(head + [' '] + tail) == [url]
  {
    WholeReplyUrl(url);
    NoUrlsWithoutJ(w1);
    NoUrlsWithoutJ(w3);
    NoUrlsWithoutJ(w4);
    SpaceSplits(w1, ' ', url);
    SpaceSplits(w3, ' ', w4);
    SpaceSplits(head, ' ', tail);
  }
}
