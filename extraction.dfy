/**
 * The image-reference extraction of the recommendation handler:
 * `re.findall(r'https?://[^\s]+\.jpg', reply)` on the language model's reply.
 *
 * The pattern's language is `IsJpgUrl`; `IsFindallFrom` says what findall
 * reports (leftmost start, longest match at that start, resume after the
 * match). `FindallFrom` scans the way the regex engine does (scheme, greedy
 * run of non-space characters, backtrack to the last `.jpg`) and is proved
 * to meet that specification, which has exactly one solution.
 */
module Extraction {
  import opened Wrappers

  /** Python's `\s` on `str`: exactly the characters for which `str.isspace()` holds. */
  predicate IsSpace(c: char) {
    || ('\t' <= c <= '\r')
    || ('\U{1C}' <= c <= '\U{1F}')
    || c == ' '
    || c == '\U{85}'
    || c == '\U{A0}'
    || c == '\U{1680}'
    || ('\U{2000}' <= c <= '\U{200A}')
    || c == '\U{2028}'
    || c == '\U{2029}'
    || c == '\U{202F}'
    || c == '\U{205F}'
    || c == '\U{3000}'
  }

  predicate NoSpace(t: string) {
    forall k :: 0 <= k < |t| ==> !IsSpace(t[k])
  }

  predicate StartsWith(t: string, w: string) {
    |w| <= |t| && t[..|w|] == w
  }

  predicate EndsWith(t: string, w: string) {
    |w| <= |t| && t[|t| - |w|..] == w
  }

  /** `w` occurs in `s` at position `i`. */
  predicate HasAt(s: string, i: nat, w: string) {
    i + |w| <= |s| && s[i..i + |w|] == w
  }

  /**
   * The strings fully matched by `https?://[^\s]+\.jpg`: a scheme, at least
   * one non-space character, then `.jpg`, all compared case-sensitively.
   */
  predicate IsJpgUrl(t: string) {
    && NoSpace(t)
    && EndsWith(t, ".jpg")
    && ((StartsWith(t, "http://") && |t| >= 12) || (StartsWith(t, "https://") && |t| >= 13))
  }

  /** The pattern matches `s[i..m]`. */
  predicate IsMatchAt(s: string, i: nat, m: nat) {
    i <= m <= |s| && IsJpgUrl(s[i..m])
  }

  /** The pattern matches `s[i..e]` and no longer stretch starting at `i`. */
  predicate IsLongestMatchAt(s: string, i: nat, e: nat) {
    IsMatchAt(s, i, e) && forall m: nat :: e < m <= |s| ==> !IsMatchAt(s, i, m)
  }

  /** No match of the pattern starts at any position in `[lo, hi)`. */
  predicate NoMatchIn(s: string, lo: nat, hi: nat) {
    forall j: nat, m: nat :: lo <= j < hi && j <= m <= |s| ==> !IsMatchAt(s, j, m)
  }

  /** A match reported by findall: `s[start..end]`. */
  datatype Span = Span(start: nat, end: nat)

  /**
   * `spans` is what findall reports when it scans `s` from position `from`:
   * each match starts at the leftmost position where the pattern matches,
   * takes the longest match there, and the scan resumes at its end.
   */
  ghost predicate IsFindallFrom(s: string, from: nat, spans: seq<Span>)
    decreases |spans|
  {
    if spans == [] then
      NoMatchIn(s, from, |s| + 1)
    else
      && from <= spans[0].start
      && NoMatchIn(s, from, spans[0].start)
      && IsLongestMatchAt(s, spans[0].start, spans[0].end)
      && IsFindallFrom(s, spans[0].end, spans[1..])
  }

  /** The two schemes cannot both start at the same position. */
  lemma SchemesExclusive(s: string, i: nat)
    ensures HasAt(s, i, "http://") ==> !HasAt(s, i, "https://")
  {
    if HasAt(s, i, "http://") {
      assert s[i + 4] == s[i..i + 7][4] == ':';
    }
  }

  /** Where the scheme `http://` or `https://` at `i` ends, if one starts there. */
  function SchemeEnd(s: string, i: nat): (r: Option<nat>)
    ensures r == Some(i + 7) <==> HasAt(s, i, "http://")
    ensures r == Some(i + 8) <==> HasAt(s, i, "https://")
    ensures r.Some? ==> r == Some(i + 7) || r == Some(i + 8)
  {
    SchemesExclusive(s, i);
    if HasAt(s, i, "http://") then Some(i + 7)
    else if HasAt(s, i, "https://") then Some(i + 8)
    else None
  }

  /** The end of the run of non-space characters starting at `p` (what `[^\s]+` first takes). */
  function RunEnd(s: string, p: nat): (r: nat)
    requires p <= |s|
    ensures p <= r <= |s|
    ensures forall j :: p <= j < r ==> !IsSpace(s[j])
    ensures r < |s| ==> IsSpace(s[r])
    decreases |s| - p
  {
    if p == |s| || IsSpace(s[p]) then p else RunEnd(s, p + 1)
  }

  /** The last position in `(p, k]` where `.jpg` occurs (how `[^\s]+` gives back characters). */
  function LastJpg(s: string, p: nat, k: nat): (r: Option<nat>)
    requires k + 4 <= |s|
    ensures r.Some? ==> p < r.value <= k && HasAt(s, r.value, ".jpg")
    ensures r.Some? ==> forall j :: r.value < j <= k ==> !HasAt(s, j, ".jpg")
    ensures r.None? ==> forall j :: p < j <= k ==> !HasAt(s, j, ".jpg")
    decreases k
  {
    if k <= p then None
    else if HasAt(s, k, ".jpg") then Some(k)
    else LastJpg(s, p, k - 1)
  }

  /** A match at `i` consists of the scheme, a non-space run and a final `.jpg`. */
  lemma MatchForward(s: string, i: nat, p: nat, m: nat)
    requires SchemeEnd(s, i) == Some(p)
    requires IsMatchAt(s, i, m)
    ensures p + 5 <= m <= RunEnd(s, p) && HasAt(s, m - 4, ".jpg")
  {
  }

  /** The scheme, a non-space run of at least one character and a final `.jpg` make a match. */
  lemma MatchBackward(s: string, i: nat, p: nat, m: nat)
    requires SchemeEnd(s, i) == Some(p)
    requires p + 5 <= m <= RunEnd(s, p) && HasAt(s, m - 4, ".jpg")
    ensures IsMatchAt(s, i, m)
  {
    var t := s[i..m];
    assert t[..7] == s[i..i + 7];
    assert p == i + 8 ==> t[..8] == s[i..i + 8];
    assert t[|t| - 4..] == s[m - 4..m];
    forall k | 0 <= k < |t|
      ensures !IsSpace(t[k])
    {
      if i + k < p {
        assert t[k] == s[i..p][k];
      }
    }
  }

  /** A match at `i` is a scheme ending at `p`, a non-space run up to `m`, and `.jpg` ending at `m`. */
  lemma MatchShape(s: string, i: nat, p: nat)
    requires SchemeEnd(s, i) == Some(p)
    ensures p <= |s|
    ensures forall m: nat :: IsMatchAt(s, i, m) <==>
      p + 5 <= m <= RunEnd(s, p) && HasAt(s, m - 4, ".jpg")
  {
    forall m: nat
      ensures IsMatchAt(s, i, m) <==> p + 5 <= m <= RunEnd(s, p) && HasAt(s, m - 4, ".jpg")
    {
      if IsMatchAt(s, i, m) {
        MatchForward(s, i, p, m);
      }
      if p + 5 <= m <= RunEnd(s, p) && HasAt(s, m - 4, ".jpg") {
        MatchBackward(s, i, p, m);
      }
    }
  }

  /** No match of the pattern starts where no scheme starts. */
  lemma NoSchemeNoMatch(s: string, i: nat)
    requires SchemeEnd(s, i).None?
    ensures forall m: nat :: !IsMatchAt(s, i, m)
  {
  }

  /** The end of what the regex engine matches at `i`, if it matches there. */
  function MatchEnd(s: string, i: nat): (r: Option<nat>)
    requires i <= |s|
    ensures r.Some? ==> i + 12 <= r.value && IsLongestMatchAt(s, i, r.value)
    ensures r.None? ==> forall m: nat :: !IsMatchAt(s, i, m)
  {
    match SchemeEnd(s, i)
    case None =>
      NoSchemeNoMatch(s, i);
      None
    case Some(p) =>
      MatchShape(s, i, p);
      var e := RunEnd(s, p);
      if e < p + 5 then None
      else
        match LastJpg(s, p, e - 4)
        case None => None
        case Some(k) => Some(k + 4)
  }

  /** The matches findall reports when it scans `s` from `from`. */
  function FindallFrom(s: string, from: nat): (r: seq<Span>)
    requires from <= |s|
    ensures IsFindallFrom(s, from, r)
    decreases |s| - from
  {
    if from == |s| then
      assert forall m: nat :: !IsMatchAt(s, from, m) by {
        forall m: nat | from <= m <= |s|
          ensures !IsMatchAt(s, from, m)
        {
          assert |s[from..m]| == 0;
        }
      }
      []
    else
      match MatchEnd(s, from)
      case Some(e) =>
        var rest := FindallFrom(s, e);
        FindallCons(s, from, from, e, rest);
        [Span(from, e)] + rest
      case None =>
        var rest := FindallFrom(s, from + 1);
        NoMatchExtend(s, from, if rest == [] then |s| + 1 else rest[0].start);
        rest
  }

  /** A longest match after a stretch without matches, followed by the scan from its end. */
  lemma FindallCons(s: string, from: nat, start: nat, end: nat, rest: seq<Span>)
    requires from <= start
    requires NoMatchIn(s, from, start)
    requires IsLongestMatchAt(s, start, end)
    requires IsFindallFrom(s, end, rest)
    ensures IsFindallFrom(s, from, [Span(start, end)] + rest)
  {
    assert ([Span(start, end)] + rest)[1..] == rest;
  }

  /** A position where no match starts widens a stretch without matches that follows it. */
  lemma NoMatchExtend(s: string, from: nat, hi: nat)
    requires forall m: nat :: !IsMatchAt(s, from, m)
    requires NoMatchIn(s, from + 1, hi)
    ensures NoMatchIn(s, from, hi)
  {
  }

  /** The matches of `re.findall` on the whole reply. */
  function FindallSpans(s: string): (r: seq<Span>)
    ensures IsFindallFrom(s, 0, r)
    ensures forall k :: 0 <= k < |r| ==> r[k].start + 12 <= r[k].end <= |s|
    ensures forall k :: 0 <= k < |r| - 1 ==> r[k].end <= r[k + 1].start
  {
    var r := FindallFrom(s, 0);
    FindallOrdered(s, 0, r);
    r
  }

  /** Every reported match lies in `s` after `from`, has at least 12 characters, and the matches are in order without overlapping. */
  lemma {:induction false} FindallOrdered(s: string, from: nat, spans: seq<Span>)
    requires IsFindallFrom(s, from, spans)
    ensures forall k :: 0 <= k < |spans| ==>
      from <= spans[k].start && spans[k].start + 12 <= spans[k].end <= |s|
    ensures forall k :: 0 <= k < |spans| - 1 ==> spans[k].end <= spans[k + 1].start
    decreases |spans|
  {
    if spans != [] {
      var sp := spans[0];
      assert |s[sp.start..sp.end]| >= 12;
      FindallOrdered(s, sp.end, spans[1..]);
      assert forall k :: 1 <= k < |spans| ==> spans[k] == spans[1..][k - 1];
    }
  }

  /** The findall specification has exactly one solution from each position. */
  lemma {:induction false} FindallUnique(s: string, from: nat, a: seq<Span>, b: seq<Span>)
    requires IsFindallFrom(s, from, a)
    requires IsFindallFrom(s, from, b)
    ensures a == b
    decreases |a|
  {
    if a == [] || b == [] {
      assert a == [] && b == [];
    } else {
      assert a[0].start == b[0].start;
      assert a[0].end == b[0].end;
      FindallUnique(s, a[0].end, a[1..], b[1..]);
      assert a == [a[0]] + a[1..] && b == [b[0]] + b[1..];
    }
  }

  /**
   * `re.findall(r'https?://[^\s]+\.jpg', s)`: the matched substrings, in the
   * order of the reported matches.
   */
  function ExtractJpgUrls(s: string): (urls: seq<string>)
    ensures |urls| == |FindallSpans(s)|
    ensures forall k :: 0 <= k < |urls| ==>
      && FindallSpans(s)[k].end <= |s|
      && urls[k] == s[FindallSpans(s)[k].start..FindallSpans(s)[k].end]
    ensures forall k :: 0 <= k < |urls| ==> IsJpgUrl(urls[k])
  {
    var spans := FindallSpans(s);
    assert forall k :: 0 <= k < |spans| ==> IsMatchAt(s, spans[k].start, spans[k].end) by {
      forall k | 0 <= k < |spans| ensures IsMatchAt(s, spans[k].start, spans[k].end) {
        SpanIsMatch(s, 0, spans, k);
      }
    }
    Substrings(s, spans)
  }

  /** The substrings of `s` at `spans`, in order. */
  function Substrings(s: string, spans: seq<Span>): seq<string>
    requires forall k :: 0 <= k < |spans| ==> spans[k].start <= spans[k].end <= |s|
  {
    seq(|spans|, k requires 0 <= k < |spans| => s[spans[k].start..spans[k].end])
  }

  /** Each reported span is a longest match of the pattern. */
  lemma {:induction false} SpanIsMatch(s: string, from: nat, spans: seq<Span>, k: nat)
    requires IsFindallFrom(s, from, spans)
    requires k < |spans|
    ensures IsLongestMatchAt(s, spans[k].start, spans[k].end)
    ensures NoMatchIn(s, if k == 0 then from else spans[k - 1].end, spans[k].start)
    decreases k
  {
    if k > 0 {
      SpanIsMatch(s, spans[0].end, spans[1..], k - 1);
      assert spans[1..][k - 1] == spans[k];
      if k > 1 {
        assert spans[1..][k - 2] == spans[k - 1];
      }
    }
  }
}
