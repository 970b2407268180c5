/** The request-size gate in front of the API routes: a request whose
    `content-length` header reads, with `parseInt(value, 10)`, as more than
    10 MiB is answered with status 413; every other request goes on. */
module Middleware {
  import opened Optional
  import JsText

  const MaxSize: int := 10 * 1024 * 1024

  const TooLargeStatus: int := 413
  const TooLargeMsg := "Request body too large. Maximum size is 10MB."

  datatype Decision = Next | TooLarge(status: int, error: string)

  /** The decision for the header value, or `None` without a header. An
      empty value is falsy and skips the check; `NaN > maxSize` is false,
      so an unreadable value goes on too. */
  function Decide(contentLength: Option<string>): Decision {
    if contentLength.Some? && contentLength.value != "" then
      match JsText.ParseInt(contentLength.value)
      case Some(size) => if size > MaxSize then TooLarge(TooLargeStatus, TooLargeMsg) else Next
      case None => Next
    else Next
  }

  /** A request is refused exactly when the header is present and reads as
      a number above the maximum; the refusal is always a 413. */
  lemma DecideIff(contentLength: Option<string>)
    ensures Decide(contentLength).TooLarge? <==>
      contentLength.Some? && JsText.ParseInt(contentLength.value).Some? &&
      JsText.ParseInt(contentLength.value).value > MaxSize
    ensures Decide(contentLength).TooLarge? ==> Decide(contentLength) == TooLarge(413, TooLargeMsg)
  {
    if contentLength == Some("") {
      assert JsText.TrimStart("") == "";
      assert JsText.DigitPrefixLength("") == 0;
    }
  }

  /** A number written in decimal, followed by anything that does not start
      with a digit, is judged by its value: above 10485760 is refused, and
      10485760 itself, any smaller size and any negative size go on. */
  lemma DecimalHeader(n: int, rest: string)
    requires rest == [] || !JsText.IsDigit(rest[0])
    ensures Decide(Some(JsText.IntToDecimal(n) + rest)).TooLarge? <==> n > 10485760
  {
    JsText.ParseIntOfDecimal(n, rest);
    assert JsText.IntToDecimal(n) != [] by {
      if n < 0 { assert JsText.IntToDecimal(n)[0] == '-'; }
    }
  }

  /** Without the header nothing is checked. */
  lemma AbsentPasses()
    ensures Decide(None) == Next
    ensures Decide(Some("")) == Next
  {
  }

  /** A value that starts with neither whitespace, a sign nor a digit reads
      as NaN and goes on, whatever follows. */
  lemma NoNumberPasses(value: string)
    requires |value| > 0 && !JsText.IsJsWhitespace(value[0]) && !JsText.IsDigit(value[0])
    requires value[0] != '-' && value[0] != '+'
    ensures JsText.ParseInt(value) == None
    ensures Decide(Some(value)) == Next
  {
    JsText.TrimStartKeeps(value);
  }

  /** Leading whitespace does not change the decision. */
  lemma LeadingSpaceIgnored(value: string)
    requires value != ""
    ensures Decide(Some(" " + value)) == Decide(Some(value))
  {
    assert JsText.TrimStart(" " + value) == JsText.TrimStart(value) by {
      assert (" " + value)[1..] == value;
    }
  }
}
