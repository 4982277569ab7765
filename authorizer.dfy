/**
 * The API-key authorizer in front of the billing endpoint: a request is let through
 * only when its `x-api-key` header is present, non-empty and equal to the
 * configured key. The configured key, read from the environment by the deployed
 * function, is a parameter here.
 */
module Authorizer {
  import opened Options

  /** The part of an incoming request the authorizer reads: its headers, possibly absent. */
  datatype Event = Event(headers: Option<map<string, string>>)

  /** The decision: whether the request may proceed, and the principal it is recorded under. */
  datatype AuthResponse = AuthResponse(isAuthorized: bool, principalId: string)

  const ApiKeyHeader := "x-api-key"
  const AuthorizedPrincipal := "AuthorizedUser"
  const UnauthorizedPrincipal := "Unauthorized"

  /** `(event.get("headers", {}) or {}).get("x-api-key")`. */
  function ApiKey(event: Event): Option<string> {
    match event.headers
    case None => None
    case Some(headers) => if ApiKeyHeader in headers then Some(headers[ApiKeyHeader]) else None
  }

  /** Builds the response for a principal and a decision, allowing by default. */
  function GenerateAuthResponse(principalId: string, allow: bool := true): (r: AuthResponse)
    ensures r.isAuthorized == allow && r.principalId == principalId
  {
    AuthResponse(allow, principalId)
  }

  /** Lets a request through exactly when it carries the non-empty configured key. */
  function LambdaHandler(event: Event, validApiKey: string): (r: AuthResponse)
    ensures r.isAuthorized <==> validApiKey != "" && ApiKey(event) == Some(validApiKey)
    ensures r.principalId == (if r.isAuthorized then AuthorizedPrincipal else UnauthorizedPrincipal)
  {
    var apiKey := ApiKey(event);
    if apiKey.None? || apiKey.value == "" then
      GenerateAuthResponse(UnauthorizedPrincipal, false)
    else if apiKey.value == validApiKey then
      GenerateAuthResponse(AuthorizedPrincipal, true)
    else
      GenerateAuthResponse(UnauthorizedPrincipal, false)
  }

  /** With no key configured, no request is authorized, not even one sending an empty key. */
  lemma EmptyConfiguredKeyAuthorizesNobody(event: Event)
    ensures !LambdaHandler(event, "").isAuthorized
  {
  }

  /** A request without headers, or without the key header, is denied. */
  lemma MissingKeyIsDenied(event: Event, validApiKey: string)
    requires event.headers.None? || ApiKeyHeader !in event.headers.value
    ensures LambdaHandler(event, validApiKey) == AuthResponse(false, UnauthorizedPrincipal)
  {
  }

  /** A non-empty key equal to the configured one is let through; any other non-empty key is not. */
  lemma NonEmptyKeyDecides(headers: map<string, string>, validApiKey: string)
    requires ApiKeyHeader in headers && headers[ApiKeyHeader] != ""
    ensures LambdaHandler(Event(Some(headers)), validApiKey).isAuthorized <==> headers[ApiKeyHeader] == validApiKey
  {
  }
}
