/**
 * The server middleware in front of every route: a request whose path
 * starts with `/api` passes only when its `x-api-key` header equals the
 * configured secret.
 */
module ApiKeyGate {
  import opened JsValues
  import opened Http

  const Refusal := HttpError(401, "Acceso no autorizado: API Key inválida o ausente")

  /** `path.startsWith('/api')`: a plain, case-sensitive prefix test. */
  predicate Gated(path: string) {
    "/api" <= path
  }

  /**
   * The middleware's decision: None lets the request through, Some is the
   * error it throws. The header and the secret are compared with `!==`, so
   * an absent header equals an unset secret.
   */
  function Authorize(path: string, apiKey: Option<string>, secret: Option<string>): (r: Option<HttpError>)
    ensures r.Some? ==> r.value == Refusal
    ensures r.None? <==> !Gated(path) || apiKey == secret
  {
    if Gated(path) && apiKey != secret then Some(Refusal) else None
  }

  /** A path outside `/api` passes whatever header it carries. */
  lemma UngatedPathsPass(path: string, apiKey: Option<string>, secret: Option<string>)
    requires |path| < 4 || path[..4] != "/api"
    ensures Authorize(path, apiKey, secret).None?
  {
  }

  /** The prefix test is not a path-segment test: `/apix` is gated too, and `/API` is not. */
  lemma PrefixNotSegment(apiKey: Option<string>, secret: Option<string>)
    requires apiKey != secret
    ensures Authorize("/apix", apiKey, secret) == Some(Refusal)
    ensures Authorize("/API/compress-image", apiKey, secret).None?
  {
    assert "/api" <= "/apix";
    assert "/API/compress-image"[1] != "/api"[1];
  }

  /** With no secret configured, a request without the header passes, but any header value is refused. */
  lemma UnsetSecret(path: string, key: string)
    requires Gated(path)
    ensures Authorize(path, None, None).None?
    ensures Authorize(path, Some(key), None) == Some(Refusal)
  {
  }
}
