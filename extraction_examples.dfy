/**
 * Worked replies that pin how the recommendation handler's pattern behaves:
 * which URLs it keeps, where a match starts and ends, and which characters
 * separate matches. Each reply's facts about its own characters are proved
 * in a small lemma of their own.
 */
module ExtractionExamples {
  import opened Extraction
  import opened ExtractionLaws

  lemma PngReplyHalves()
    ensures "see https://a.com/x.jpg and https://b.com/y.png"
      == "see https://a.com/x.jpg" + " " + "and https://b.com/y.png"
  {
  }

  lemma PngReplyHead()
    ensures "see https://a.com/x.jpg" == "see" + " " + "https://a.com/x.jpg"
  {
  }

  lemma PngReplyTail()
    ensures "and https://b.com/y.png" == "and" + " " + "https://b.com/y.png"
  {
  }

  lemma PngReplyUrl()
    ensures IsJpgUrl("https://a.com/x.jpg")
  {
    var jpg := "https://a.com/x.jpg";
    assert NoSpace(jpg) && StartsWith(jpg, "https://") && EndsWith(jpg, ".jpg");
  }

  /** Two words separated by a space: the `.jpg` URL is kept, the `.png` one dropped. */
  lemma PngUrlDropped()
    ensures var reply := "see https://a.com/x.jpg and https://b.com/y.png";
      ExtractJpgUrls(reply) == ["https://a.com/x.jpg"]
  {
    PngReplyHalves();
    PngReplyHead();
    PngReplyTail();
    PngReplyUrl();
    OneUrlAmongWords("see" + [' '] + "https://a.com/x.jpg", "and" + [' '] + "https://b.com/y.png",
      "see", "https://a.com/x.jpg", "and", "https://b.com/y.png");
  }

  lemma MidWordUrl()
    ensures IsJpgUrl("https://x/a.jpg")
  {
    var url := "https://x/a.jpg";
    assert NoSpace(url) && StartsWith(url, "https://") && EndsWith(url, ".jpg");
  }

  /** A match may begin in the middle of a word. */
  lemma MatchStartsMidWord()
    ensures var reply := "abchttps://x/a.jpg"; ExtractJpgUrls(reply) == ["https://x/a.jpg"]
  {
    MidWordUrl();
    assert "abchttps://x/a.jpg" == "abc" + "https://x/a.jpg";
    UrlAfterTextWithoutH("abc", "https://x/a.jpg");
  }

  /** Within one word the match runs to the last `.jpg`. */
  lemma MatchRunsToLastJpg()
    ensures var reply := "http://a.jpg.jpg"; ExtractJpgUrls(reply) == [reply]
  {
    var reply := "http://a.jpg.jpg";
    assert NoSpace(reply) && StartsWith(reply, "http://") && EndsWith(reply, ".jpg");
    WholeReplyUrl(reply);
  }

  /** The two URLs of the merge and separation examples. */
  lemma SampleUrls()
    ensures IsJpgUrl("https://a/x.jpg") && IsJpgUrl("https://b/y.jpg")
  {
    var x, y := "https://a/x.jpg", "https://b/y.jpg";
    assert NoSpace(x) && StartsWith(x, "https://") && EndsWith(x, ".jpg");
    assert NoSpace(y) && StartsWith(y, "https://") && EndsWith(y, ".jpg");
  }

  lemma MergedReplyJoin()
    ensures "https://a/x.jpg和https://b/y.jpg" == "https://a/x.jpg" + "和" + "https://b/y.jpg"
  {
  }

  /** Two URLs joined by non-space text (here a CJK character) come back as one string. */
  lemma AdjacentUrlsMerge()
    ensures var reply := "https://a/x.jpg和https://b/y.jpg"; ExtractJpgUrls(reply) == [reply]
  {
    SampleUrls();
    MergedReplyJoin();
    assert NoSpace("和");
    JoinedUrls("https://a/x.jpg", "和", "https://b/y.jpg");
    WholeReplyUrl("https://a/x.jpg和https://b/y.jpg");
  }

  lemma SeparatedReplyJoin()
    ensures "https://a/x.jpg\U{3000}https://b/y.jpg" == "https://a/x.jpg" + ['\U{3000}'] + "https://b/y.jpg"
  {
    assert "https://a/x.jpg\U{3000}https://b/y.jpg" == "https://a/x.jpg" + "\U{3000}" + "https://b/y.jpg";
  }

  /** An ideographic space (U+3000) separates URLs like an ASCII space does. */
  lemma IdeographicSpaceSeparates()
    ensures var reply := "https://a/x.jpg\U{3000}https://b/y.jpg";
      ExtractJpgUrls(reply) == ["https://a/x.jpg", "https://b/y.jpg"]
  {
    SampleUrls();
    SeparatedReplyJoin();
    TwoUrlsSeparated("https://a/x.jpg", '\U{3000}', "https://b/y.jpg");
  }

  /** The comparison is case-sensitive: an upper-case `.JPG` is not matched. */
  lemma UpperCaseExtensionDropped()
    ensures var reply := "http://a/x.JPG"; ExtractJpgUrls(reply) == []
  {
    NoUrlsWithoutJ("http://a/x.JPG");
  }
}
