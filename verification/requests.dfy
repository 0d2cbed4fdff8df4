/**
 * The validation chain both endpoints run before touching the cache or the
 * event store (src/controllers/statsController.ts:16-33 and
 * src/controllers/trackController.ts:12-29, written twice there, once here).
 */
module Requests {
  import opened Wrappers
  import opened Types
  import Constants

  const MISSING_DOMAIN: string := "Missing required parameter: domain"
  const MISSING_PATH: string := "Missing required parameter: path"
  const DOMAIN_NOT_ALLOWED: string := "Domain not allowed"

  /** A request parameter counts as given when it is truthy: present and not "". */
  predicate Present(v: Option<string>) {
    v.Some? && v.value != ""
  }

  /** The status and error message of a refused request. */
  datatype Rejection = Rejection(status: int, message: string)

  /**
   * The chain of early returns: a missing domain is reported first (400),
   * then a missing path (400), then a domain outside the allowlist (403);
   * `None` means the request goes on.
   */
  function Validate(domain: Option<string>, path: Option<string>, allowed: seq<string>): (r: Option<Rejection>)
    ensures r == None <==> Present(domain) && Present(path) && Constants.IsDomainAllowed(allowed, domain.value)
    ensures !Present(domain) ==> r == Some(Rejection(400, MISSING_DOMAIN))
    ensures Present(domain) && !Present(path) ==> r == Some(Rejection(400, MISSING_PATH))
    ensures Present(domain) && Present(path) && !Constants.IsDomainAllowed(allowed, domain.value) ==>
      r == Some(Rejection(403, DOMAIN_NOT_ALLOWED))
  {
    if !Present(domain) then Some(Rejection(400, MISSING_DOMAIN))
    else if !Present(path) then Some(Rejection(400, MISSING_PATH))
    else if !Constants.IsDomainAllowed(allowed, domain.value) then Some(Rejection(403, DOMAIN_NOT_ALLOWED))
    else None
  }

  /**
   * A refusal is always a client error: 400 when a parameter is missing, 403
   * only when both are given and the domain is not admitted.
   */
  lemma RejectionIsClientError(domain: Option<string>, path: Option<string>, allowed: seq<string>)
    ensures var r := Validate(domain, path, allowed);
      r.Some? ==> (
        && (r.value.status == 400 || r.value.status == 403)
        && (r.value.status == 403 <==> Present(domain) && Present(path)))
  {
  }

  /** The JSON answer for a refused request: its status and `{error: message}`. */
  function RejectionResponse(r: Rejection): (resp: Response)
    ensures resp.status == r.status && resp.body == Error(r.message)
  {
    Response(r.status, Error(r.message))
  }
}
