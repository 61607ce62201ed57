# python-cas-gateway: a Dafny model of the forwarding handler

python-cas-gateway is a reverse proxy that lets through only clients with a
CAS single-sign-on session. Its request handler `index` forwards every
authenticated request to one configured backend. It does three things:

- It rewrites the request URL to the backend's scheme, host and port.
- It copies the request headers and overwrites `Host` and `Remote-User`.
  `Remote-User` becomes the session's CAS username.
- It mirrors the backend's status, reason and headers to the client, then
  streams the backend body across in reads of at most `CHUNK_SIZE` (10140)
  bytes.

The model also covers one expression from start-up. It derives the Redis
database number from the path of the session-store URL.

Modules, one per piece:

- `Urls` (urls.dfy): the URL record and the rewrite chain `with_host` →
  `with_port` → `with_scheme`.
- `Headers` (headers.dfy): headers as an ordered sequence of (name, value)
  entries. Names compare case-insensitively. `Assign` is the multi-dictionary
  assignment `d[name] = value`. Class `HeaderDict` is the mutable copy the
  handler changes in place.
- `Streaming` (streaming.dfy): class `BodyStream` is the backend body, read
  once from front to back. Class `StreamResponse` is the client response.
  Method `Relay` is the `while True` copy loop.
- `Gateway` (gateway.dfy): the outbound request (`BuildProxyRequest`) and
  the whole handler (`Index`). The network exchange is a function parameter
  from the outbound request to the backend's answer.
- `RedisDb` (redis_db.dfy): the database number, as written and corrected
  (see Findings).
- `Text` and `Wrappers` (text.dfy): ASCII case folding, decimal printing of
  a port, `int(s)`, `s.strip(c)`, and `Option`.

## Notes on the code

- The inbound request body is not forwarded. The outbound call's keyword
  arguments (gateway.py:27-36) carry no body.
- Reads use the module constant `CHUNK_SIZE` = 10140. The `--chunk-size`
  option (default 4096, gateway.py:66-67) is parsed but never stored or
  used.

## Model

| member | source | states |
|---|---|---|
| Urls.RewriteTarget | python_cas_gateway/gateway.py:22 | The target has the backend's scheme, host and port, and the inbound request's path and query. |
| Urls.WithHost | python_cas_gateway/gateway.py:22 | `with_host`: the new URL has the given host; scheme, port, path and query are kept. |
| Urls.WithPort | python_cas_gateway/gateway.py:22 | `with_port`: the new URL has the given port; scheme, host, path and query are kept. |
| Urls.WithScheme | python_cas_gateway/gateway.py:22 | `with_scheme`: the new URL has the given scheme; host, port, path and query are kept. |
| Urls.RewriteTargetSameIff | python_cas_gateway/gateway.py:22 | Path transparency both ways: two inbound URLs map to the same target if and only if their paths and queries are equal. |
| Urls.RewriteTargetIgnoresBackendPath | python_cas_gateway/gateway.py:22 | Only the backend's scheme, host and port matter. Its own path and query never reach the target. |
| Urls.RewriteTargetIdempotent | python_cas_gateway/gateway.py:22 | Rewriting a target a second time changes nothing. |
| Headers.AssignFrom | python_cas_gateway/gateway.py:24-25 | Multi-dictionary assignment from some entry on: replaces the first entry of the name, drops later ones, appends if none. Afterwards the name's entries are exactly the new one (or none once it was placed earlier), and the entries of other names are as before. |
| Headers.Assign | python_cas_gateway/gateway.py:24-25 | `d[name] = value`: afterwards exactly one entry carries the name, case-insensitively, with the new value, whatever entries of that name there were before. Every entry of another name is kept, unchanged and in order. |
| Headers.AssignKeepsOtherName | python_cas_gateway/gateway.py:24-25 | Assigning one name leaves the entries of any different name exactly as they were. |
| Headers.AssignAppendsWhenAbsent | python_cas_gateway/gateway.py:24-25 | If no entry had the name, the assignment appends (name, value) at the end. |
| Headers.MatchingAnySpelling | python_cas_gateway/gateway.py:23-25 | Names are case-insensitive: two spellings of one name select the same entries and leave the same rest. |
| Headers.HostValue | python_cas_gateway/gateway.py:24 | The `Host` value is the backend host, a colon, and exactly the canonical decimal rendering of the port (digits only, no leading zero), which parses back to the backend port. |
| Headers.OutboundHeaders | python_cas_gateway/gateway.py:23-25 | Whatever the client sent, the outbound headers hold exactly one `Host`, equal to "backend host:backend port", and exactly one `Remote-User`, equal to the session user. All other inbound headers pass through unchanged and in order. |
| Headers.HeaderDict.Copy | python_cas_gateway/gateway.py:23 | The copy starts with exactly the inbound entries. |
| Headers.HeaderDict.Set | python_cas_gateway/gateway.py:24-25 | The dictionary's entries become the assignment of the old entries. |
| Headers.BuildOutboundHeaders | python_cas_gateway/gateway.py:23-25 | Returns a fresh dictionary holding the copied inbound headers with `Host` and then `Remote-User` assigned. The inbound headers are a value and stay unchanged. |
| Text.NatToString | python_cas_gateway/gateway.py:24 | The decimal rendering of the port is a non-empty run of digits, and it has no leading zero except for 0. |
| Text.SameName | python_cas_gateway/gateway.py:23-25 | Two header names are the same header exactly when they have the same length and agree character by character up to ASCII case. |
| Text.ParseInt | python_cas_gateway/gateway.py:89 | Python's `int` on a string: succeeds exactly on an optional sign followed by one or more decimal digits; an unsigned numeral gives a non-negative value and a `-` sign a non-positive one. |
| Text.ParseIntOfNatToString | python_cas_gateway/gateway.py:89 | Round trip: `int` of the decimal rendering of n is n. |
| Text.NatToStringOfNumeral | python_cas_gateway/gateway.py:89 | A numeral with no leading zero is exactly how its value prints. |
| Text.NumeralIsPadded | python_cas_gateway/gateway.py:89 | Every numeral is the decimal rendering of some n behind some number of leading zeros. |
| Text.ParseIntPadded | python_cas_gateway/gateway.py:89 | `int` of n's digits behind any number of zeros is n; with a `+` in front it is n, with a `-` in front it is -n. |
| Text.ParseIntAccepted | python_cas_gateway/gateway.py:89 | Every string `int` accepts is a sign (none, `+` or `-`), leading zeros and the rendering of some n, and `int` returns n, or -n under `-`. |
| Text.TrimStart | python_cas_gateway/gateway.py:89 | After dropping leading `c` characters, the result does not start with `c`. |
| Text.TrimEnd | python_cas_gateway/gateway.py:89 | After dropping trailing `c` characters, the result does not end with `c`. |
| Text.Strip | python_cas_gateway/gateway.py:89 | `strip(c)` returns a string that neither starts nor ends with `c`. |
| Text.StripIsSlice | python_cas_gateway/gateway.py:89 | `strip(c)` returns a contiguous slice of its input with only `c` characters outside it. |
| Text.StripEmptyIff | python_cas_gateway/gateway.py:89 | `strip(c)` is empty if and only if the input consists only of `c` characters. |
| Streaming.BoundedChunkCount | python_cas_gateway/gateway.py:47-51 | Non-empty chunks of at most `limit` bytes that make up a body number at least the body length divided by `limit` and at most the body length. |
| Streaming.BodyStream.constructor | python_cas_gateway/gateway.py:38 | The backend body stream starts with the whole body unread. |
| Streaming.BodyStream.Read | python_cas_gateway/gateway.py:48 | A read returns the next at most n bytes and consumes them. It is empty only when the body is exhausted. Short reads are allowed. |
| Streaming.StreamResponse.constructor | python_cas_gateway/gateway.py:40-44 | The client response takes the given status, reason and headers. It is not yet prepared and has written nothing. |
| Streaming.StreamResponse.Prepare | python_cas_gateway/gateway.py:45 | Marks the head as sent. Status, reason, headers and body are kept. |
| Streaming.StreamResponse.Write | python_cas_gateway/gateway.py:51 | Appends one chunk after the head has been sent. Status, reason and headers are kept. |
| Streaming.Relay | python_cas_gateway/gateway.py:47-51 | The loop terminates. The chunks written are the whole backend body, in order. Each chunk is non-empty and at most CHUNK_SIZE (10140) bytes. The body is consumed and the response head is left unchanged. |
| Gateway.BuildProxyRequest | python_cas_gateway/gateway.py:20-36 | The outbound request keeps the inbound method and has redirect following turned off. It uses the rewritten URL (backend authority, inbound path and query) and the configured timeout. Its headers carry exactly one backend `Host` and one `Remote-User` with the session user, and every other inbound header. |
| Gateway.Index | python_cas_gateway/gateway.py:16-53 | For a logged-in session, the client response has the backend's status, reason and headers, so a redirect is passed on as it is. Its head is prepared before any body. Its body is exactly the backend body, in non-empty chunks of at most CHUNK_SIZE bytes. |
| RedisDb.DbNumberAsWritten | python_cas_gateway/gateway.py:89 | Line 89 as written: an empty path selects database 0; a non-empty path made only of slashes strips to nothing and `int` raises. |
| RedisDb.DbNumber | python_cas_gateway/gateway.py:89 | Corrected line 89: a path with no number in it (empty or only slashes) selects database 0; on every other path the result is the same as line 89 as written. |
| RedisDb.ZeroPathStrips | python_cas_gateway/gateway.py:89 | The default path `/0` strips to the numeral 0. |
| RedisDb.HostUrlPathNeverDefaults | python_cas_gateway/gateway.py:89 | For the path of a URL that has a host (never empty, starts with `/`), the `/0` default never applies, and a path of only slashes makes `int` raise. |
| RedisDb.DbNumberAsWrittenOfNumber | python_cas_gateway/gateway.py:89 | As written, `/n` and `/n/` select database n. |
| RedisDb.DbNumberOfNumber | python_cas_gateway/gateway.py:89 | Corrected: a number surrounded by any count of slashes selects that database. |
| RedisDb.DbNumberDiffersIff | python_cas_gateway/gateway.py:89 | The corrected and the as-written numbers differ exactly on the non-empty paths made only of slashes. |

## Left out

- The network exchange (`aiohttp.ClientSession`, `session.request`) is a function parameter of `Index`. The `params`, `auth` and `encoding` arguments are dropped from the outbound request (`ProxyRequest` has no such fields). How the timeout is enforced is not modelled, nor are connection errors and truncated bodies.
- `response.prepare` and `response.write` are modelled as recording the head and the chunks. The transport is not modelled, and neither are the headers aiohttp adds when it prepares a response (Date, Server, transfer encoding).
- The `@login_required` gate and `get_session` come from an external CAS and session library. They become the precondition `LoggedIn`: the session holds a CAS username.
- Header assignment follows the case-insensitive multi-dictionary: the first entry of the name is replaced, later ones are dropped, and the entry is appended if none exists. That library (multidict) is not part of this model. The proved properties do not depend on where the entry lands.
- Case-insensitivity is ASCII only. Header names are ASCII tokens, so Unicode case mapping is not modelled.
- RedisDb.DbNumberAsWritten takes the path string as given. yarl reports the path `/` for a URL that has a host and no path, so the empty-path default applies only to a URL without a host; `RedisDb.HostUrlPathNeverDefaults` states what follows for paths of URLs with a host. yarl itself is not part of this model.
- Urls.RewriteTarget: the backend port is a given number. yarl's default-port resolution, a missing port (which would be printed as `None` in `Host`), user info, fragments and host validation or encoding are not modelled.
- Text.ParseInt accepts an optional sign and ASCII digits. It does not model the leading or trailing whitespace, underscores between digits and non-ASCII digits that Python's `int` also accepts.
- `make_app`, except line 89, is left out: argument parsing, the settings object, Redis pool creation, CAS and session setup, route registration. `main` and the event loop are left out too. All of this is start-up wiring and concurrency.
- The `print` logging on lines 39 and 52 is not modelled.
- Client disconnects during streaming are not modelled.
- The exact number of writes is not modelled. A read may return fewer than CHUNK_SIZE bytes, so `Streaming.BoundedChunkCount` bounds the count instead.

## Findings

| source | as written | input that shows it | evidently intended | confidence | as-written member | corrected member |
|---|---|---|---|---|---|---|
| python_cas_gateway/gateway.py:89 | Only an empty path gets the default `/0`, and the path of a URL with a host is never empty. A non-empty path made only of slashes strips to the empty string, and parsing that raises ValueError at start-up. | Redis URL `redis://127.0.0.1:6379/` (path `/`); `redis://127.0.0.1:6379`, whose path yarl also reports as `/` | A URL naming no database selects database 0, as the `/0` default shows | medium, not executed | RedisDb.DbNumberAsWritten | RedisDb.DbNumber |
