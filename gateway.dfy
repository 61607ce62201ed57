/**
 * The request handler `index` (gateway.py lines 16-53): forward an
 * authenticated request to the configured backend and stream the backend's
 * answer back to the client.
 */
module Gateway {
  import opened Urls
  import opened Headers
  import opened Streaming

  /** What the handler reads of the inbound request (`verb` is its HTTP method); its headers are a read-only view. */
  datatype Request = Request(verb: string, url: Url, headers: seq<Header>)

  /** Session state as the session store hands it out: a namespace per library. */
  type Session = map<string, map<string, string>>

  const CAS_NAMESPACE := "aiohttp_cas"
  const USERNAME_KEY := "username"

  /** What the login gate guarantees before the handler runs: a CAS username in the session. */
  predicate LoggedIn(session: Session) {
    CAS_NAMESPACE in session && USERNAME_KEY in session[CAS_NAMESPACE]
  }

  function Username(session: Session): string
    requires LoggedIn(session)
  {
    session[CAS_NAMESPACE][USERNAME_KEY]
  }

  /** The settings the handler reads: the backend URL and the request timeout. */
  datatype Settings = Settings(backendUrl: Url, timeout: int)

  /** The keyword arguments of the outbound call (lines 27-36). */
  datatype ProxyRequest = ProxyRequest(
    verb: string, url: Url, headers: seq<Header>, allowRedirects: bool, timeout: int)

  /** The backend's answer: head and the full body its content stream yields. */
  datatype RemoteResponse = RemoteResponse(
    status: int, reason: string, headers: seq<Header>, body: seq<byte>)

  /**
   * Lines 20-36: the outbound request. Same method, the rewritten URL, the
   * rewritten headers (exactly one `Host` naming the backend, exactly one
   * `Remote-User` naming the session's user, every other inbound header as
   * it came), redirects not followed, and the configured timeout.
   */
  method BuildProxyRequest(request: Request, session: Session, settings: Settings)
    returns (sent: ProxyRequest)
    requires LoggedIn(session)
    ensures sent.verb == request.verb
    ensures sent.url.scheme == settings.backendUrl.scheme && sent.url.host == settings.backendUrl.host
    ensures sent.url.port == settings.backendUrl.port
    ensures sent.url.path == request.url.path && sent.url.query == request.url.query
    ensures Matching(sent.headers, HOST) == [(HOST, HostValue(settings.backendUrl))]
    ensures Matching(sent.headers, REMOTE_USER) == [(REMOTE_USER, Username(session))]
    ensures Without(Without(sent.headers, HOST), REMOTE_USER)
         == Without(Without(request.headers, HOST), REMOTE_USER)
    ensures sent.headers == OutboundHeaders(request.headers, settings.backendUrl, Username(session))
    ensures !sent.allowRedirects
    ensures sent.timeout == settings.timeout
  {
    var backendUrl := settings.backendUrl;
    var url := RewriteTarget(request.url, backendUrl);
    var headers := BuildOutboundHeaders(request.headers, backendUrl, session[CAS_NAMESPACE][USERNAME_KEY]);
    sent := ProxyRequest(request.verb, url, headers.items, false, settings.timeout);
  }

  /**
   * The whole handler. The network exchange is the parameter `backend`. The
   * client response carries the backend's status, reason and headers (a
   * redirect among them, since redirects are not followed), its head is
   * sent before any body, and its body is the backend body, whole and in
   * order, in non-empty chunks of at most CHUNK_SIZE bytes.
   */
  method Index(request: Request, session: Session, settings: Settings,
               backend: ProxyRequest -> RemoteResponse)
    returns (sent: ProxyRequest, response: StreamResponse)
    requires LoggedIn(session)
    ensures sent.verb == request.verb && !sent.allowRedirects
    ensures sent.url == RewriteTarget(request.url, settings.backendUrl)
    ensures sent.headers == OutboundHeaders(request.headers, settings.backendUrl, Username(session))
    ensures sent.timeout == settings.timeout
    ensures fresh(response) && response.Valid() && response.prepared
    ensures response.status == backend(sent).status && response.reason == backend(sent).reason
    ensures response.headers == backend(sent).headers
    ensures Concat(response.written) == backend(sent).body
    ensures Bounded(response.written, CHUNK_SIZE)
  {
    sent := BuildProxyRequest(request, session, settings);
    var remote := backend(sent);
    var content := new BodyStream(remote.body);
    response := new StreamResponse(remote.status, remote.reason, remote.headers);
    response.Prepare();
    Relay(content, response);
  }
}
