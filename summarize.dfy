/**
 * The POST handler of the summary route: it reads `content` from the
 * request body and answers with a placeholder summary made of a fixed
 * prefix, the first 100 code points of the content and an ellipsis, or
 * with status 500 when anything fails.
 */
module Summarize {
  import opened Wrappers
  import opened JsString

  const Prefix: string := "This is a summary of: "
  const Ellipsis: string := "..."
  /** The `end` argument given to `slice`. */
  const ExcerptLength: nat := 100
  const ErrorMessage: string := "Failed to generate summary"

  /** The JSON body of the response. */
  datatype Body = SummaryBody(summary: string) | ErrorBody(error: string)

  /** An HTTP response: its status code and JSON body. */
  datatype Response = Response(status: nat, body: Body)

  /** The summary text for `content`, shaped as prefix, excerpt, ellipsis. */
  function SummaryOf(content: string): (r: string)
    ensures |Prefix| == 22 && |r| == |Prefix| + Min(ExcerptLength, |content|) + |Ellipsis|
    ensures r[..|Prefix|] == Prefix
    ensures r[|r| - |Ellipsis|..] == Ellipsis
    ensures r[|Prefix|..|r| - |Ellipsis|] == content[..Min(ExcerptLength, |content|)]
  {
    SlicePrefix(content, ExcerptLength);
    Prefix + Slice(content, 0, ExcerptLength) + Ellipsis
  }

  /**
   * The route. `None` stands for a request whose body could not be parsed
   * or has no `content`: the exception is caught and turned into a 500.
   */
  function Post(request: Option<string>): (r: Response)
    ensures r.status == 200 <==> request.Some?
    ensures r.status == 500 <==> request.None?
    ensures r.body.SummaryBody? <==> request.Some?
    ensures request.None? ==> r.body == ErrorBody("Failed to generate summary")
    ensures request.Some? ==> r.body == SummaryBody(SummaryOf(request.value))
    ensures request.Some? ==> |r.body.summary| <= 125
  {
    match request
    case Some(content) =>
      SummaryLengthBounds(content);
      Response(200, SummaryBody(SummaryOf(content)))
    case None => Response(500, ErrorBody(ErrorMessage))
  }

  /** The summary is never shorter than 25 and never longer than 125 code points. */
  lemma SummaryLengthBounds(content: string)
    ensures 25 <= |SummaryOf(content)| <= 125
  {
  }

  /** Content of at most 100 code points appears in the summary in full. */
  lemma ShortContentKept(content: string)
    requires |content| <= ExcerptLength
    ensures SummaryOf(content) == Prefix + content + Ellipsis
  {
    var r := SummaryOf(content);
    assert r == r[..|Prefix|] + r[|Prefix|..|r| - |Ellipsis|] + r[|r| - |Ellipsis|..];
  }

  /** Longer content contributes exactly its first 100 code points. */
  lemma LongContentCut(content: string)
    requires |content| > ExcerptLength
    ensures SummaryOf(content) == Prefix + content[..ExcerptLength] + Ellipsis
  {
    var r := SummaryOf(content);
    assert r == r[..|Prefix|] + r[|Prefix|..|r| - |Ellipsis|] + r[|r| - |Ellipsis|..];
  }

  /**
   * Recovers the excerpt from a summary-shaped string: the inverse of
   * `SummaryOf` on contents of at most 100 code points.
   */
  function ExcerptOf(summary: string): (r: Option<string>)
    ensures r.Some? ==> Prefix + r.value + Ellipsis == summary
  {
    if |summary| >= |Prefix| + |Ellipsis|
       && summary[..|Prefix|] == Prefix
       && summary[|summary| - |Ellipsis|..] == Ellipsis
    then
      var excerpt := summary[|Prefix|..|summary| - |Ellipsis|];
      assert summary == summary[..|Prefix|] + excerpt + summary[|summary| - |Ellipsis|..];
      Some(excerpt)
    else None
  }

  /** Reading the excerpt back gives the first 100 code points of the content. */
  lemma ExcerptRoundTrip(content: string)
    ensures ExcerptOf(SummaryOf(content)) == Some(content[..Min(ExcerptLength, |content|)])
    ensures |content| <= ExcerptLength ==> ExcerptOf(SummaryOf(content)) == Some(content)
  {
    assert |content| <= ExcerptLength ==> content[..|content|] == content;
  }

  /**
   * The summary depends on the content only through its first 100 code
   * points: two contents have the same summary exactly when those agree.
   */
  lemma SummaryDeterminedByExcerpt(a: string, b: string)
    ensures SummaryOf(a) == SummaryOf(b) <==>
            a[..Min(ExcerptLength, |a|)] == b[..Min(ExcerptLength, |b|)]
  {
    if SummaryOf(a) == SummaryOf(b) {
      ExcerptRoundTrip(a);
      ExcerptRoundTrip(b);
    } else {
      var r, s := SummaryOf(a), SummaryOf(b);
      assert r == r[..|Prefix|] + r[|Prefix|..|r| - |Ellipsis|] + r[|r| - |Ellipsis|..];
      assert s == s[..|Prefix|] + s[|Prefix|..|s| - |Ellipsis|] + s[|s| - |Ellipsis|..];
    }
  }

  /** A short note keeps its whole text after the prefix, and the ellipsis is still appended. */
  lemma ShortNoteExample()
    ensures Post(Some("Buy milk and eggs")) ==
            Response(200, SummaryBody(Prefix + "Buy milk and eggs" + Ellipsis))
  {
    ShortContentKept("Buy milk and eggs");
  }
}
