/**
 * Relaying the backend's response to the client (gateway.py lines 40-51):
 * the client response mirrors the backend's status, reason and headers, is
 * prepared (its head sent), and then the backend body is copied across in
 * reads of at most CHUNK_SIZE bytes until a read comes back empty.
 */
module Streaming {
  import opened Headers

  newtype byte = x: int | 0 <= x < 256

  /** The module constant every read asks for (line 13). */
  const CHUNK_SIZE: nat := 10140

  /** The bytes of a sequence of chunks, in order. */
  function Concat(chunks: seq<seq<byte>>): seq<byte> {
    if chunks == [] then [] else Concat(chunks[..|chunks| - 1]) + chunks[|chunks| - 1]
  }

  /** Every chunk is non-empty and at most `limit` bytes long. */
  predicate Bounded(chunks: seq<seq<byte>>, limit: nat) {
    forall i :: 0 <= i < |chunks| ==> 0 < |chunks[i]| <= limit
  }

  /**
   * However the reads fall, non-empty chunks of at most `limit` bytes that
   * make up a body number at least |body| / limit and at most |body|.
   */
  lemma {:induction false} BoundedChunkCount(chunks: seq<seq<byte>>, limit: nat)
    requires Bounded(chunks, limit)
    ensures |chunks| <= |Concat(chunks)| <= |chunks| * limit
  {
    if chunks != [] {
      var init := chunks[..|chunks| - 1];
      assert Bounded(init, limit) by {
        forall i | 0 <= i < |init| ensures 0 < |init[i]| <= limit {
          assert init[i] == chunks[i];
        }
      }
      BoundedChunkCount(init, limit);
      assert 0 < |chunks[|chunks| - 1]| <= limit;
    }
  }

  /**
   * The backend body as the response's content stream: finite, consumed
   * once, front to back. `remaining` is what has not been read yet.
   */
  class BodyStream {
    var remaining: seq<byte>

    constructor (body: seq<byte>)
      ensures remaining == body
    {
      remaining := body;
    }

    /**
     * `content.read(n)`: the next bytes of the body, at most `n` of them and
     * at least one while any are left; how many arrive at once is up to the
     * network, so any such length may be returned. Empty only at the end.
     */
    method Read(n: nat) returns (chunk: seq<byte>)
      requires n > 0
      modifies this
      ensures old(remaining) == chunk + remaining
      ensures |chunk| <= n
      ensures chunk == [] <==> old(remaining) == []
    {
      if remaining == [] {
        chunk := [];
      } else {
        var k :| 1 <= k <= n && k <= |remaining|;
        chunk := remaining[..k];
        remaining := remaining[k..];
      }
    }
  }

  /**
   * The client response. `written` is the sequence of body chunks sent so
   * far; none may be sent before the head is (`prepared`).
   */
  class StreamResponse {
    var status: int
    var reason: string
    var headers: seq<Header>
    var prepared: bool
    var written: seq<seq<byte>>

    ghost predicate Valid()
      reads this
    {
      !prepared ==> written == []
    }

    /** A streamed response carrying the given status, reason and headers. */
    constructor (status: int, reason: string, headers: seq<Header>)
      ensures Valid()
      ensures this.status == status && this.reason == reason && this.headers == headers
      ensures !prepared && written == []
    {
      this.status := status;
      this.reason := reason;
      this.headers := headers;
      prepared := false;
      written := [];
    }

    /** `response.prepare(request)`: sends status line and headers. */
    method Prepare()
      requires Valid()
      modifies this
      ensures Valid() && prepared
      ensures status == old(status) && reason == old(reason) && headers == old(headers)
      ensures written == old(written)
    {
      prepared := true;
    }

    /** `response.write(chunk)`: sends one body chunk after the head. */
    method Write(chunk: seq<byte>)
      requires Valid() && prepared
      modifies this
      ensures Valid() && prepared
      ensures status == old(status) && reason == old(reason) && headers == old(headers)
      ensures written == old(written) + [chunk]
    {
      written := written + [chunk];
    }
  }

  /**
   * Lines 47-51: read up to CHUNK_SIZE bytes, stop on an empty read, write
   * each chunk. The whole body reaches the client, in order, in non-empty
   * chunks no longer than CHUNK_SIZE; the response head is left as it was.
   */
  method Relay(source: BodyStream, response: StreamResponse)
    requires response.Valid() && response.prepared && response.written == []
    modifies source, response
    ensures response.Valid() && response.prepared
    ensures response.status == old(response.status) && response.reason == old(response.reason)
    ensures response.headers == old(response.headers)
    ensures Concat(response.written) == old(source.remaining)
    ensures source.remaining == []
    ensures Bounded(response.written, CHUNK_SIZE)
  {
    while true
      invariant response.Valid() && response.prepared
      invariant response.status == old(response.status) && response.reason == old(response.reason)
      invariant response.headers == old(response.headers)
      invariant Concat(response.written) + source.remaining == old(source.remaining)
      invariant Bounded(response.written, CHUNK_SIZE)
      decreases |source.remaining|
    {
      var chunk := source.Read(CHUNK_SIZE);
      if chunk == [] {
        break;
      }
      ghost var before := response.written;
      response.Write(chunk);
      assert response.written[..|response.written| - 1] == before;
    }
  }
}
