/**
 * The outbound target URL (gateway.py line 22): the inbound request URL with
 * its host, port and scheme replaced, in that order, by the configured
 * backend's, everything else kept.
 */
module Urls {
  /** The parts of a URL the gateway touches or must keep. */
  datatype Url = Url(scheme: string, host: string, port: nat, path: string, query: string)

  /** `url.with_host(h)`: a new URL with only the host replaced. */
  function WithHost(u: Url, host: string): (r: Url)
    ensures r.host == host
    ensures r.scheme == u.scheme && r.port == u.port && r.path == u.path && r.query == u.query
  {
    u.(host := host)
  }

  /** `url.with_port(p)`: a new URL with only the port replaced. */
  function WithPort(u: Url, port: nat): (r: Url)
    ensures r.port == port
    ensures r.scheme == u.scheme && r.host == u.host && r.path == u.path && r.query == u.query
  {
    u.(port := port)
  }

  /** `url.with_scheme(s)`: a new URL with only the scheme replaced. */
  function WithScheme(u: Url, scheme: string): (r: Url)
    ensures r.scheme == scheme
    ensures r.host == u.host && r.port == u.port && r.path == u.path && r.query == u.query
  {
    u.(scheme := scheme)
  }

  /**
   * The URL the request is forwarded to: the backend's authority and scheme
   * on the inbound request's path and query.
   */
  function RewriteTarget(request: Url, backend: Url): (r: Url)
    ensures r.scheme == backend.scheme && r.host == backend.host && r.port == backend.port
    ensures r.path == request.path && r.query == request.query
  {
    WithScheme(WithPort(WithHost(request, backend.host), backend.port), backend.scheme)
  }

  /**
   * Path transparency both ways: two inbound URLs reach the same target
   * exactly when their paths and queries agree, whatever their own authority.
   */
  lemma RewriteTargetSameIff(u1: Url, u2: Url, backend: Url)
    ensures RewriteTarget(u1, backend) == RewriteTarget(u2, backend)
      <==> u1.path == u2.path && u1.query == u2.query
  {
  }

  /** The backend's own path and query play no part in the target. */
  lemma RewriteTargetIgnoresBackendPath(request: Url, b1: Url, b2: Url)
    requires b1.scheme == b2.scheme && b1.host == b2.host && b1.port == b2.port
    ensures RewriteTarget(request, b1) == RewriteTarget(request, b2)
  {
  }

  /** Rewriting an already rewritten URL changes nothing. */
  lemma RewriteTargetIdempotent(request: Url, backend: Url)
    ensures RewriteTarget(RewriteTarget(request, backend), backend) == RewriteTarget(request, backend)
  {
  }
}
