/** The events of a capture, and the stream of events that carries one connection log. */
module CaptureEvents {
  import opened Options
  import opened Sequences

  type Bytes = seq<bv8>

  /** The identity of a trace is a number for the publisher; a reader takes what the JSON text has. */
  datatype TraceId = Number(n: int) | Text(s: string) | Missing

  /** A field is None when it is missing or not of its type, a payload when it is not base64. */
  datatype Body =
    | ConnectionLog(filename: string, payload: Option<Bytes>)
    | ConnectionLogChunk(traceId: TraceId, filename: string, chunkIndex: Option<int>, payload: Option<Bytes>)
    | ConnectionLogComplete(traceId: TraceId, filename: string, chunkCount: Option<int>)
    | CaptureComplete
    | CaptureStartTimeout
    | CaptureFailed
    | Unsupported

  datatype Event = Event(schemaVersion: int, captureId: string, body: Body)

  const SCHEMA_VERSION := 1

  /** The content in pieces of `size` bytes, the last of which may be shorter; no piece when there is no content. */
  function Chunks(content: Bytes, size: nat): seq<Bytes>
    requires size > 0
    decreases |content|
  {
    if content == [] then []
    else if |content| <= size then [content]
    else [content[..size]] + Chunks(content[size..], size)
  }

  function Join(chunks: seq<Bytes>): Bytes {
    if chunks == [] then [] else Join(chunks[..|chunks| - 1]) + chunks[|chunks| - 1]
  }

  lemma {:induction false} JoinConcat(a: seq<Bytes>, b: seq<Bytes>)
    ensures Join(a + b) == Join(a) + Join(b)
    decreases |b|
  {
    if b == [] {
      assert a + b == a;
    } else {
      var last := |b| - 1;
      assert (a + b)[..|a + b| - 1] == a + b[..last] && (a + b)[|a + b| - 1] == b[last];
      JoinConcat(a, b[..last]);
    }
  }

  lemma JoinOne(chunk: Bytes)
    ensures Join([chunk]) == chunk
  {
    assert [chunk][..0] == [] && Join([]) == [] && [] + chunk == chunk;
  }

  lemma {:induction false} ChunksJoin(content: Bytes, size: nat)
    requires size > 0
    ensures Join(Chunks(content, size)) == content
    ensures forall c | c in Chunks(content, size) :: 0 < |c| <= size
    decreases |content|
  {
    if content != [] {
      if |content| <= size {
        JoinOne(content);
      } else {
        var first, rest := content[..size], content[size..];
        ChunksJoin(rest, size);
        JoinOne(first);
        JoinConcat([first], Chunks(rest, size));
        assert content == first + rest;
      }
    }
  }

  function ChunkEvents(captureId: string, trace: int, filename: string, chunks: seq<Bytes>): seq<Event> {
    if chunks == [] then []
    else
      var last := |chunks| - 1;
      ChunkEvents(captureId, trace, filename, chunks[..last])
      + [Event(SCHEMA_VERSION, captureId, ConnectionLogChunk(Number(trace), filename, Some(last), Some(chunks[last])))]
  }

  /** The events of one connection: its chunks, numbered from zero, and then how many there were. */
  function ConnectionEvents(captureId: string, trace: int, filename: string, chunks: seq<Bytes>): seq<Event> {
    ChunkEvents(captureId, trace, filename, chunks)
    + [Event(SCHEMA_VERSION, captureId, ConnectionLogComplete(Number(trace), filename, Some(|chunks|)))]
  }

  /** Reading on from `offset` takes the next piece. */
  lemma {:induction false} ChunksFrom(content: Bytes, size: nat, offset: nat)
    requires size > 0 && offset < |content|
    ensures var end := if offset + size < |content| then offset + size else |content|;
            Chunks(content[offset..], size) == [content[offset..end]] + Chunks(content[end..], size)
  {
    var left := content[offset..];
    if |left| > size {
      assert left[..size] == content[offset..offset + size] && left[size..] == content[offset + size..];
    } else {
      assert left == content[offset..|content|] && content[|content|..] == [];
    }
  }

  /** No event of a connection is published twice. */
  lemma ConnectionEventsDiffer(captureId: string, trace: int, filename: string, chunks: seq<Bytes>)
    ensures NoRepeats(ConnectionEvents(captureId, trace, filename, chunks))
  {
    forall i | 0 <= i < |chunks|
      ensures |ChunkEvents(captureId, trace, filename, chunks)| == |chunks|
      ensures var event := ChunkEvents(captureId, trace, filename, chunks)[i];
              event.body.ConnectionLogChunk? && event.body.chunkIndex == Some(i)
    {
      ChunkEventAt(captureId, trace, filename, chunks, i);
    }
    ChunkEventCount(captureId, trace, filename, chunks);
  }

  lemma {:induction false} ChunkEventCount(captureId: string, trace: int, filename: string, chunks: seq<Bytes>)
    ensures |ChunkEvents(captureId, trace, filename, chunks)| == |chunks|
  {
    if chunks != [] {
      ChunkEventCount(captureId, trace, filename, chunks[..|chunks| - 1]);
    }
  }

  lemma {:induction false} ChunkEventAt(captureId: string, trace: int, filename: string, chunks: seq<Bytes>, i: nat)
    requires i < |chunks|
    ensures |ChunkEvents(captureId, trace, filename, chunks)| == |chunks|
    ensures var event := ChunkEvents(captureId, trace, filename, chunks)[i];
            event.body.ConnectionLogChunk? && event.body.chunkIndex == Some(i)
    decreases |chunks|
  {
    ChunkEventCount(captureId, trace, filename, chunks[..|chunks| - 1]);
    if i < |chunks| - 1 {
      ChunkEventAt(captureId, trace, filename, chunks[..|chunks| - 1], i);
    }
  }
}
