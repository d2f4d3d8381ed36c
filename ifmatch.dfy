/**
 * The optimistic-concurrency guard of the REST resources: the If-Match
 * request header is required, and its entity tag (section 2.3 of RFC 7232,
 * used as a precondition by section 3.1) is read as a decimal version number.
 */
module IfMatch {
  import opened Wrappers
  import opened Numbers

  const MISSING_IF_MATCH := "You must issue a conditional request using 'if-match'"

  /** ensureIfMatchHeader: a missing or empty header is a 400; otherwise the header as given. */
  function EnsureIfMatchHeader(header: Option<string>): (r: Result<string>)
    ensures r.Success? <==> header.Some? && header.value != []
    ensures r.Success? ==> r.value == header.value
    ensures r.Failure? ==> r.error == ResponseStatus(BAD_REQUEST, MISSING_IF_MATCH)
  {
    if header.None? || header.value == [] then Failure(ResponseStatus(BAD_REQUEST, MISSING_IF_MATCH))
    else Success(header.value)
  }

  /**
   * getVersionFromIfMatchHeader: a header starting with '"' loses its first and
   * last characters (whatever the last one is) before the long parse; any other
   * header is parsed whole. A lone '"' is an out-of-range substring.
   */
  function GetVersionFromIfMatchHeader(header: Option<string>): (r: Result<int>)
    ensures header.None? ==> r == Failure(NullPointer)
    ensures header == Some("\"") ==> r == Failure(IndexOutOfBounds)
    ensures header.Some? && |header.value| >= 2 && header.value[0] == '"' ==>
              r == ParseLong(header.value[1..|header.value| - 1])
    ensures header.Some? && (header.value == [] || header.value[0] != '"') ==> r == ParseLong(header.value)
  {
    if header.None? then Failure(NullPointer)
    else
      var h := header.value;
      if |h| >= 1 && h[0] == '"' then
        if |h| < 2 then Failure(IndexOutOfBounds) else ParseLong(h[1..|h| - 1])
      else ParseLong(h)
  }

  /** The strong entity tag "N" and the bare number N carry the same version. */
  lemma QuotedAndBareAgree(n: int)
    requires INT64_MIN <= n <= INT64_MAX
    ensures GetVersionFromIfMatchHeader(Some("\"" + ToDecimal(n) + "\"")) == Success(n)
    ensures GetVersionFromIfMatchHeader(Some(ToDecimal(n))) == Success(n)
  {
    var t := ToDecimal(n);
    var q := "\"" + t + "\"";
    assert q[1..|q| - 1] == t;
    ParseLongOfToDecimal(n);
    assert t[0] != '"';
  }

  /** A weak entity tag W/"N" is not a number and is refused by the long parse. */
  lemma WeakTagRejected(n: int)
    ensures GetVersionFromIfMatchHeader(Some("W/\"" + ToDecimal(n) + "\"")).Failure?
  {
    var h := "W/\"" + ToDecimal(n) + "\"";
    assert h[0] == 'W';
    assert !IsDigit(h[0]);
  }

  /** The closing quote is not checked: a header with an opening quote and any last character parses its middle. */
  lemma ClosingQuoteNotChecked()
    ensures GetVersionFromIfMatchHeader(Some("\"12x")) == Success(12)
    ensures GetVersionFromIfMatchHeader(Some("\"")) == Failure(IndexOutOfBounds)
  {
    var h := "\"12x";
    assert h[1..|h| - 1] == "12";
    assert "12"[..1] == "1" && "1"[..0] == "";
    assert DigitsValue("12") == 12;
    assert "12"[0..] == "12";
  }

  /** The conditional-request pipeline: a request with its header gives back the tagged version. */
  lemma GuardedVersion(n: int)
    requires INT64_MIN <= n <= INT64_MAX
    ensures var h := "\"" + ToDecimal(n) + "\"";
            EnsureIfMatchHeader(Some(h)) == Success(h) && GetVersionFromIfMatchHeader(Some(h)) == Success(n)
  {
    QuotedAndBareAgree(n);
  }
}
