/**
 * Link classification: what one HEAD probe of a bookmark's URL says about
 * the link, in the `(valid, errorType)` form the health check works with.
 */
module Classifier {
  import opened Wrappers
  import opened Decimal

  /**
   * What probing a URL can come to. The probe itself (building a HEAD
   * request with a browser User-Agent and sending it) is outside the model;
   * only its three possible results are.
   */
  datatype ProbeResult =
    | RequestError(isDNSError: bool)  // building the request failed; true when the error is a DNS error
    | TransportError                  // sending the request failed
    | Response(statusCode: int)       // a response arrived with this status

  /** The pair `checkURLValidity` returns. */
  datatype Validity = Validity(valid: bool, errorType: string)

  const HTTP_PREFIX: string := "HTTP_"

  predicate IsSuccessStatus(code: int) {
    200 <= code < 400
  }

  /**
   * The decision of `checkURLValidity`: 2xx and 3xx responses are valid,
   * every other response is reported by its status, a failed send is
   * "other", and a failed request construction is "DNS" or "other".
   */
  function CheckURLValidity(p: ProbeResult): (v: Validity)
    ensures v.valid <==> p.Response? && IsSuccessStatus(p.statusCode)
    ensures v.valid <==> v.errorType == ""
    ensures p.Response? && !v.valid ==> v.errorType == HTTP_PREFIX + IntToDecimal(p.statusCode)
    ensures p.TransportError? ==> v == Validity(false, "other")
    ensures p.RequestError? ==> v == Validity(false, if p.isDNSError then "DNS" else "other")
  {
    match p
    case RequestError(isDNS) =>
      if isDNS then Validity(false, "DNS") else Validity(false, "other")
    case TransportError =>
      Validity(false, "other")
    case Response(code) =>
      if code >= 200 && code < 400 then Validity(true, "")
      else Validity(false, "HTTP_" + IntToDecimal(code))
  }

  /** The closed taxonomy of link health that the `(valid, errorType)` pair encodes. */
  datatype HealthOutcome = Reachable | DNSFailure | OtherFailure | HTTPFailure(statusCode: int)

  /** Which outcome a probe result stands for. */
  function OutcomeOf(p: ProbeResult): HealthOutcome {
    match p
    case RequestError(isDNS) => if isDNS then DNSFailure else OtherFailure
    case TransportError => OtherFailure
    case Response(code) => if IsSuccessStatus(code) then Reachable else HTTPFailure(code)
  }

  /** Reads a `(valid, errorType)` pair back as an outcome; `None` for pairs no probe produces. */
  function ParseValidity(v: Validity): Option<HealthOutcome> {
    if v.valid then
      if v.errorType == "" then Some(Reachable) else None
    else if v.errorType == "DNS" then Some(DNSFailure)
    else if v.errorType == "other" then Some(OtherFailure)
    else if HTTP_PREFIX <= v.errorType then
      match ParseInt(v.errorType[|HTTP_PREFIX|..])
      case Some(code) => if IsSuccessStatus(code) then None else Some(HTTPFailure(code))
      case None => None
    else None
  }

  /**
   * The pair loses nothing of the outcome: reading it back gives the
   * outcome of the probe, so in particular every failure status is told
   * apart from every other and from the DNS and "other" failures.
   */
  lemma ValidityEncodesOutcome(p: ProbeResult)
    ensures ParseValidity(CheckURLValidity(p)) == Some(OutcomeOf(p))
  {
    if p.Response? && !IsSuccessStatus(p.statusCode) {
      var e := CheckURLValidity(p).errorType;
      assert e[|HTTP_PREFIX|..] == IntToDecimal(p.statusCode);
      ParseIntToDecimal(p.statusCode);
      assert e != "DNS" && e != "other" by {
        assert e[0] == 'H';
      }
    }
  }

  /** Two probes get the same pair exactly when they have the same outcome. */
  lemma SameValidityIffSameOutcome(p: ProbeResult, q: ProbeResult)
    ensures CheckURLValidity(p) == CheckURLValidity(q) <==> OutcomeOf(p) == OutcomeOf(q)
  {
    ValidityEncodesOutcome(p);
    ValidityEncodesOutcome(q);
    if OutcomeOf(p) == OutcomeOf(q) && p.Response? && q.Response? {
      assert p.statusCode == q.statusCode || (IsSuccessStatus(p.statusCode) && IsSuccessStatus(q.statusCode));
    }
  }
}
