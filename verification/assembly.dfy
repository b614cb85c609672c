/** Reassembly of one inbound WebSocket message from the chunks the read
    callback of `handleSession` receives, with the 1 MiB admission limit. */
module Assembly {
  import opened Wrappers
  import opened Trace

  newtype byte = x: int | 0 <= x < 256

  /** `MaxMessageBytes`: the largest message, in bytes, the session accepts. */
  const MaxMessageBytes: nat := 1024 * 1024

  /** The buffer after one chunk, the complete message delivered by it (if
      any) and what the callback did to the socket. */
  datatype Assembled = Assembled(buffer: seq<byte>, delivered: Option<seq<byte>>, actions: seq<Action>)

  /** The read callback for one chunk. `bytes` is None when the read failed,
      for example because the browser window closed. */
  function ReadChunk(buffer: seq<byte>, bytes: Option<seq<byte>>, isFinal: bool): (r: Assembled)
    // a failed read closes the socket and leaves the buffer as it was
    ensures bytes.None? ==> r == Assembled(buffer, None, [CloseSocket])
    // exactly the chunks that take the message over the limit are rejected
    ensures bytes.Some? ==>
              (r.actions != [] <==> |buffer + bytes.value| > MaxMessageBytes) &&
              (r.actions != [] ==> r.actions == [SendText("Message too big"), CloseSocket] && r.buffer == [])
    // the final chunk delivers everything received so far, once, and empties the buffer
    ensures r.delivered.Some? <==> bytes.Some? && isFinal && |buffer + bytes.value| <= MaxMessageBytes
    ensures r.delivered.Some? ==> r.delivered.value == buffer + bytes.value && r.buffer == []
    // a chunk that neither completes nor overflows the message is appended
    ensures bytes.Some? && !isFinal && r.actions == [] ==> r.buffer == buffer + bytes.value
    ensures |buffer| <= MaxMessageBytes ==> |r.buffer| <= MaxMessageBytes
  {
    match bytes
    case None => Assembled(buffer, None, [CloseSocket])
    case Some(chunk) =>
      var message := buffer + chunk;
      if |message| > MaxMessageBytes then
        Assembled([], None, [SendText("Message too big"), CloseSocket])
      else if isFinal then
        Assembled([], Some(message), [])
      else
        Assembled(message, None, [])
  }

  /** One call of the read callback. */
  datatype Chunk = Chunk(bytes: Option<seq<byte>>, isFinal: bool)

  /** The state after a run of chunks: the buffer, every message delivered, every socket action. */
  datatype Fed = Fed(buffer: seq<byte>, delivered: seq<seq<byte>>, actions: seq<Action>)

  /** The read callback applied to each chunk in turn. */
  function Feed(buffer: seq<byte>, chunks: seq<Chunk>): Fed
    decreases |chunks|
  {
    if chunks == [] then
      Fed(buffer, [], [])
    else
      var step := ReadChunk(buffer, chunks[0].bytes, chunks[0].isFinal);
      var rest := Feed(step.buffer, chunks[1..]);
      var now := if step.delivered.Some? then [step.delivered.value] else [];
      Fed(rest.buffer, now + rest.delivered, step.actions + rest.actions)
  }

  /** The bytes of a run of chunks that were all read successfully. */
  function Concat(chunks: seq<Chunk>): seq<byte>
    requires forall i | 0 <= i < |chunks| :: chunks[i].bytes.Some?
    decreases |chunks|
  {
    if chunks == [] then [] else chunks[0].bytes.value + Concat(chunks[1..])
  }

  /** A run of chunks that form one message: all read successfully, only the last one final. */
  predicate IsMessage(chunks: seq<Chunk>)
  {
    && |chunks| > 0
    && (forall i | 0 <= i < |chunks| :: chunks[i].bytes.Some?)
    && (forall i | 0 <= i < |chunks| - 1 :: !chunks[i].isFinal)
    && chunks[|chunks| - 1].isFinal
  }

  /** A message of at most 1 MiB, in any number of chunks, is delivered exactly
      once, whole, with nothing sent or closed, and leaves the buffer empty. */
  lemma {:induction false} MessageDelivered(buffer: seq<byte>, chunks: seq<Chunk>)
    requires IsMessage(chunks)
    requires |buffer + Concat(chunks)| <= MaxMessageBytes
    ensures Feed(buffer, chunks) == Fed([], [buffer + Concat(chunks)], [])
    decreases |chunks|
  {
    var step := ReadChunk(buffer, chunks[0].bytes, chunks[0].isFinal);
    if |chunks| == 1 {
      assert Concat(chunks) == chunks[0].bytes.value;
      assert chunks[1..] == [];
    } else {
      var tail := chunks[1..];
      assert Concat(chunks) == chunks[0].bytes.value + Concat(tail);
      assert buffer + Concat(chunks) == (buffer + chunks[0].bytes.value) + Concat(tail);
      assert step.buffer == buffer + chunks[0].bytes.value;
      assert IsMessage(tail) by {
        assert forall i | 0 <= i < |tail| :: tail[i] == chunks[i + 1];
      }
      MessageDelivered(step.buffer, tail);
    }
  }

  /** However chunks arrive, the buffer never holds more than 1 MiB and no delivered message is larger. */
  lemma {:induction false} FeedBounded(buffer: seq<byte>, chunks: seq<Chunk>)
    requires |buffer| <= MaxMessageBytes
    ensures |Feed(buffer, chunks).buffer| <= MaxMessageBytes
    ensures forall m | m in Feed(buffer, chunks).delivered :: |m| <= MaxMessageBytes
    decreases |chunks|
  {
    if chunks != [] {
      var step := ReadChunk(buffer, chunks[0].bytes, chunks[0].isFinal);
      FeedBounded(step.buffer, chunks[1..]);
    }
  }
}
