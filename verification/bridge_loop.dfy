/**
 * The serial bridge's state across iterations of its `while True` loop (src/try.py):
 * the `message_queue` deque, the bytes written to the LoRaWAN port and the bytes
 * written back to the mesh node.
 */
module BridgeLoop {
  import opened Common
  import opened Text
  import opened Bridge

  /** Messages as the LoRaWAN port receives them: each followed by one newline. */
  function Framed(ms: seq<seq<byte>>): seq<byte>
  {
    if ms == [] then [] else Framed(ms[..|ms| - 1]) + ms[|ms| - 1] + [Newline]
  }

  /** The newline-terminated stream of two runs of messages is the two streams, one after the other. */
  lemma {:induction false} FramedAppend(ms: seq<seq<byte>>, ns: seq<seq<byte>>)
    ensures Framed(ms + ns) == Framed(ms) + Framed(ns)
    decreases |ns|
  {
    if ns == [] {
      assert ms + ns == ms;
    } else {
      var init := ns[..|ns| - 1];
      assert (ms + ns)[..|ms + ns| - 1] == ms + init;
      FramedAppend(ms, init);
    }
  }

  /**
   * After `i` appends of the messages `expected`, both the queue and the log of queued
   * messages have grown by exactly the first `i` of them.
   */
  ghost predicate Appended(queue0: seq<seq<byte>>, queued0: seq<seq<byte>>, expected: seq<seq<byte>>,
                           i: nat, queue: seq<seq<byte>>, queued: seq<seq<byte>>)
  {
    i <= |expected| && queue == queue0 + expected[..i] && queued == queued0 + expected[..i]
  }

  /** Appending the next expected message keeps `Appended`. */
  lemma AppendedStep(queue0: seq<seq<byte>>, queued0: seq<seq<byte>>, expected: seq<seq<byte>>,
                     i: nat, queue: seq<seq<byte>>, queued: seq<seq<byte>>)
    requires Appended(queue0, queued0, expected, i, queue, queued) && i < |expected|
    ensures Appended(queue0, queued0, expected, i + 1, queue + [expected[i]], queued + [expected[i]])
  {
    assert expected[..i + 1] == expected[..i] + [expected[i]];
  }

  /** Once all are appended, the queue and the log have grown by `expected`. */
  lemma AppendedAll(queue0: seq<seq<byte>>, queued0: seq<seq<byte>>, expected: seq<seq<byte>>,
                    i: nat, queue: seq<seq<byte>>, queued: seq<seq<byte>>)
    requires Appended(queue0, queued0, expected, i, queue, queued) && i >= |expected|
    ensures queue == queue0 + expected && queued == queued0 + expected
  {
    assert expected[..i] == expected;
  }

  /** What a line from the mesh node, if one was read, appends to the queue. */
  function QueuedFrom(fromMesher: Option<string>): seq<seq<byte>>
  {
    if fromMesher.Some? then QueuedMessages(fromMesher.value) else []
  }

  /** What a line from the LoRaWAN side, if one was read, writes back to the mesh node. */
  function ReturnedFrom(fromLmic: Option<string>): seq<byte>
  {
    if fromLmic.None? then []
    else match ReturnBytes(fromLmic.value) case Some(bytes) => bytes case None => []
  }

  class SerialBridge {
    /** `message_queue`, front first. */
    var messageQueue: seq<seq<byte>>
    /** Every byte written to the LoRaWAN side (`ser_out`). */
    var outStream: seq<byte>
    /** Every byte written back to the mesh node (`ser_in`). */
    var inStream: seq<byte>
    /** Every message ever appended to the queue, in order. */
    ghost var queued: seq<seq<byte>>
    /** Every message taken from the queue and written, in order. */
    ghost var forwarded: seq<seq<byte>>

    /**
     * The queue is first-in first-out: what has been written, followed by what is still
     * queued, is everything that was queued, in order; and what has been written is
     * each of those messages followed by one newline.
     */
    ghost predicate Valid()
      reads this
    {
      queued == forwarded + messageQueue && outStream == Framed(forwarded)
    }

    constructor ()
      ensures Valid()
      ensures messageQueue == [] && outStream == [] && inStream == []
      ensures queued == [] && forwarded == []
    {
      messageQueue, outStream, inStream := [], [], [];
      queued, forwarded := [], [];
    }

    /**
     * A line from the mesh node: a `DATA:` line that parses has its chunks appended,
     * each with the destination bytes, until `bytes()` first raises; any other line,
     * or one that raises before the first chunk, leaves the queue as it was.
     */
    method HandleMesherLine(line: string)
      requires Valid()
      modifies this
      ensures Valid()
      ensures messageQueue == old(messageQueue) + QueuedMessages(line)
      ensures queued == old(queued) + QueuedMessages(line)
      ensures forwarded == old(forwarded) && outStream == old(outStream) && inStream == old(inStream)
    {
      if StartsWith(line, DataPrefix) {
        var parsed := ParseDataContent(line[|DataPrefix|..]);
        if parsed.Ok? {
          var chunks := Chunks(parsed.value.payload);
          QueueChunks(chunks, parsed.value.dst);
        }
      }
    }

    /**
     * The `for chunk in d_chunks` loop of a parsed `DATA:` line: append each chunk with
     * the destination bytes; the first chunk `bytes()` rejects ends the loop, and the
     * chunks appended before it stay queued.
     */
    method QueueChunks(chunks: seq<seq<int>>, dst: int)
      requires Valid()
      modifies this
      ensures Valid()
      ensures messageQueue == old(messageQueue) + QueuedChunks(chunks, dst)
      ensures queued == old(queued) + QueuedChunks(chunks, dst)
      ensures forwarded == old(forwarded) && outStream == old(outStream) && inStream == old(inStream)
    {
      var (a, b) := SplitDestination(dst);
      ghost var expected := QueuedChunks(chunks, dst);
      ghost var queue0, queued0 := messageQueue, queued;
      ghost var others := (forwarded, outStream, inStream);
      var i := 0;
      while i < |chunks|
        invariant Appended(queue0, queued0, expected, i, messageQueue, queued)
        invariant (forwarded, outStream, inStream) == others
      {
        var fullChunk := chunks[i] + [a, b];
        if !IsByteSeq(fullChunk) {
          break;
        }
        assert fullChunk == Message(chunks[i], dst);
        QueuedChunksAt(chunks, dst, i);
        var message := ToBytes(fullChunk);
        AppendedStep(queue0, queued0, expected, i, messageQueue, queued);
        messageQueue := messageQueue + [message];
        queued := queued + [message];
        i := i + 1;
      }
      AppendedAll(queue0, queued0, expected, i, messageQueue, queued);
    }

    /**
     * The forwarding step of an iteration: when the queue is not empty, take its front
     * message and write it followed by a newline.
     */
    method ForwardStep()
      requires Valid()
      modifies this
      ensures Valid()
      ensures old(messageQueue) == [] ==> messageQueue == [] && outStream == old(outStream) && forwarded == old(forwarded)
      ensures old(messageQueue) != [] ==> messageQueue == old(messageQueue)[1..]
      ensures old(messageQueue) != [] ==> forwarded == old(forwarded) + [old(messageQueue)[0]]
      ensures old(messageQueue) != [] ==> outStream == old(outStream) + old(messageQueue)[0] + [Newline]
      ensures queued == old(queued) && inStream == old(inStream)
    {
      if messageQueue != [] {
        var toSend := messageQueue[0];
        messageQueue := messageQueue[1..];
        outStream := outStream + toSend + [Newline];
        forwarded := forwarded + [toSend];
      }
    }

    /**
     * A line from the LoRaWAN side: a `RETURN:` line of byte values is written back to
     * the mesh node as those bytes and a newline; anything else writes nothing.
     */
    method HandleLmicLine(line: string)
      requires Valid()
      modifies this
      ensures Valid()
      ensures inStream == old(inStream) + (match ReturnBytes(line) case Some(bytes) => bytes case None => [])
      ensures messageQueue == old(messageQueue) && outStream == old(outStream)
      ensures queued == old(queued) && forwarded == old(forwarded)
    {
      if StartsWith(line, ReturnPrefix) {
        var encoded := EncodeReturn(line[|ReturnPrefix|..]);
        if encoded.Ok? {
          inStream := inStream + encoded.value;
        }
      }
    }

    /**
     * One pass of the bridge's `while True` loop: the line read from the mesh node, if
     * one was waiting, then at most one message forwarded, then the line read from the
     * LoRaWAN side, if one was waiting.
     */
    method Iterate(fromMesher: Option<string>, fromLmic: Option<string>)
      requires Valid()
      modifies this
      ensures Valid()
      ensures queued == old(queued) + QueuedFrom(fromMesher)
      ensures var pending := old(messageQueue) + QueuedFrom(fromMesher);
        if pending == [] then messageQueue == [] && forwarded == old(forwarded)
        else messageQueue == pending[1..] && forwarded == old(forwarded) + [pending[0]]
      ensures inStream == old(inStream) + ReturnedFrom(fromLmic)
    {
      if fromMesher.Some? {
        HandleMesherLine(fromMesher.value);
      }
      ForwardStep();
      if fromLmic.Some? {
        HandleLmicLine(fromLmic.value);
      }
    }
  }
}
