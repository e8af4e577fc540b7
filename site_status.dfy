/** The decision in learn_goroutine's getSiteStatus: what a single probe of a
    site is reported as. The HTTP request itself, the goroutines, the channel
    and the relaunch loop are not modelled; the probe's outcome is an input. */
module SiteStatus {

  /** What http.Get gave back: a transport error, or a response with a status code. */
  datatype ProbeOutcome = TransportError | Response(statusCode: int)

  /** The class of a status code: its first digit (section 15 of RFC 9110). */
  function StatusClass(code: int): int {
    code / 100
  }

  /** Successful (2xx), the class defined in section 15.3 of RFC 9110. */
  predicate Successful(code: int) {
    StatusClass(code) == 2
  }

  /** getSiteStatus: "error" on a transport error, "down" for a code outside
      200..299, "up" otherwise. Exactly one of the three is returned. */
  function GetSiteStatus(outcome: ProbeOutcome): (status: string)
    ensures status == "error" || status == "down" || status == "up"
    ensures status == "error" <==> outcome.TransportError?
    ensures status == "up" <==> outcome.Response? && Successful(outcome.statusCode)
    ensures status == "down" <==> outcome.Response? && !Successful(outcome.statusCode)
  {
    match outcome
    case TransportError => "error"
    case Response(code) => if code < 200 || code >= 300 then "down" else "up"
  }

  /** 200 is up, 404 and 500 are down, and the edges of the 2xx class fall on
      the right sides. */
  lemma KnownCodes()
    ensures GetSiteStatus(Response(200)) == "up"
    ensures GetSiteStatus(Response(299)) == "up"
    ensures GetSiteStatus(Response(199)) == "down"
    ensures GetSiteStatus(Response(300)) == "down"
    ensures GetSiteStatus(Response(404)) == "down"
    ensures GetSiteStatus(Response(500)) == "down"
    ensures GetSiteStatus(TransportError) == "error"
  {
  }
}
