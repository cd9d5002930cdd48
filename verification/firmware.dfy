/**
 * The firmware's mutable state and its two loops (src/main.cpp): the body of `loop()`
 * on a leaf (counter telemetry) and on a gateway (serial frame relay), and the drain
 * loop of `processReceivedPackets`. The mesh layer is abstract state: a log of the
 * packets handed to `createPacketAndSend`, and the received-packet queue with logs of
 * what was taken out of it and released.
 */
module Firmware {
  import opened Common
  import opened Text
  import opened Packet

  /** The counter value after `n` increments of a `uint32_t` starting at `start`. */
  function CounterAfter(start: u32, n: nat): u32
  {
    (start + n) % TwoTo32
  }

  /** One more increment of a `uint32_t` wraps from 2^32 - 1 to 0. */
  lemma CounterAfterStep(start: u32, n: nat)
    ensures CounterAfter(start, n + 1) == (CounterAfter(start, n) + 1) % TwoTo32
  {
    var q, c := (start + n) / TwoTo32, (start + n) % TwoTo32;
    assert start + n + 1 == q * TwoTo32 + (c + 1);
    if c + 1 == TwoTo32 {
      assert start + n + 1 == (q + 1) * TwoTo32;
    }
  }

  /** The send of one leaf iteration that finds `closest` in the routing table. */
  function LeafSend(counter: u32, closest: Option<u16>): Send
  {
    Send(ChooseDestination(closest), Counter(counter), 1)
  }

  /** The console lines of one leaf iteration. */
  function LeafLines(counter: u32, closest: Option<u16>): seq<Line>
  {
    [SendCounterLine(counter), SendToLine(ChooseDestination(closest))]
  }

  /** The sends of consecutive leaf iterations, the i-th one finding `closests[i]`. */
  function LeafSends(start: u32, closests: seq<Option<u16>>): seq<Send>
  {
    if closests == [] then []
    else
      var n := |closests| - 1;
      LeafSends(start, closests[..n]) + [LeafSend(CounterAfter(start, n), closests[n])]
  }

  /** The console lines of consecutive leaf iterations. */
  function LeafLog(start: u32, closests: seq<Option<u16>>): seq<Line>
  {
    if closests == [] then []
    else
      var n := |closests| - 1;
      LeafLog(start, closests[..n]) + LeafLines(CounterAfter(start, n), closests[n])
  }

  /**
   * Consecutive leaf iterations send one counter packet each, to the destination chosen
   * at that iteration, carrying start, start + 1, ... modulo 2^32.
   */
  lemma {:induction false} LeafSendsCounters(start: u32, closests: seq<Option<u16>>)
    ensures |LeafSends(start, closests)| == |closests|
    ensures forall i :: 0 <= i < |closests| ==>
      LeafSends(start, closests)[i] == Send(ChooseDestination(closests[i]), Counter((start + i) % TwoTo32), 1)
    decreases |closests|
  {
    if closests != [] {
      var n := |closests| - 1;
      LeafSendsCounters(start, closests[..n]);
    }
  }

  /** Each counter sent is the previous one plus one, wrapping from 2^32 - 1 to 0. */
  lemma LeafCountersStep(start: u32, closests: seq<Option<u16>>, i: nat)
    requires i + 1 < |closests|
    ensures var s := LeafSends(start, closests);
      |s| == |closests| && s[i].packet.Counter? && s[i + 1].packet == Counter((s[i].packet.counter + 1) % TwoTo32)
  {
    LeafSendsCounters(start, closests);
  }

  /** The globals `loop()` works on, and the mesh layer's record of what it was given. */
  class Node {
    /** `dataCounter`. */
    var dataCounter: u32
    /** `helloPacket->type` and the counter view of `helloPacket->data`. */
    var helloType: int
    var helloCounter: u32
    /** `returnPacket->type` and the byte view of `returnPacket->data`. */
    var returnType: int
    var returnData: array<byte>
    /** Every `createPacketAndSend` call, with a copy of the packet it was given. */
    var sent: seq<Send>
    /** The serial console. */
    var output: seq<Line>

    ghost predicate Valid()
      reads this
    {
      returnData.Length == 4
    }

    /** The state after the global initialisers: both packets zeroed with type 0. */
    constructor ()
      ensures Valid() && fresh(returnData)
      ensures dataCounter == 0 && helloType == 0 && helloCounter == 0
      ensures returnType == 0 && returnData[..] == [0, 0, 0, 0]
      ensures sent == [] && output == []
    {
      dataCounter, helloType, helloCounter, returnType := 0, 0, 0, 0;
      returnData := new byte[4](_ => 0);
      sent, output := [], [];
    }

    /**
     * One iteration of the leaf's `loop()`: print, store the counter in `helloPacket`
     * and post-increment it, pick the destination, print it and send one packet.
     */
    method LeafStep(closest: Option<u16>)
      requires Valid()
      modifies this
      ensures Valid() && returnData == old(returnData) && returnType == old(returnType)
      ensures helloType == 0 && helloCounter == old(dataCounter)
      ensures dataCounter == CounterAfter(old(dataCounter), 1)
      ensures sent == old(sent) + [LeafSend(old(dataCounter), closest)]
      ensures output == old(output) + LeafLines(old(dataCounter), closest)
    {
      output := output + [SendCounterLine(dataCounter)];
      helloCounter := dataCounter;
      dataCounter := (dataCounter + 1) % TwoTo32;
      helloType := 0;
      var addr := ChooseDestination(closest);
      output := output + [SendToLine(addr)];
      sent := sent + [Send(addr, Counter(helloCounter), 1)];
    }

    /** The first `|closests|` iterations of the leaf's endless `loop()`. */
    method RunLeaf(closests: seq<Option<u16>>)
      requires Valid()
      modifies this
      ensures Valid() && returnData == old(returnData) && returnType == old(returnType)
      ensures dataCounter == CounterAfter(old(dataCounter), |closests|)
      ensures sent == old(sent) + LeafSends(old(dataCounter), closests)
      ensures output == old(output) + LeafLog(old(dataCounter), closests)
      ensures closests == [] ==> helloType == old(helloType) && helloCounter == old(helloCounter)
      ensures closests != [] ==> helloType == 0 && helloCounter == CounterAfter(old(dataCounter), |closests| - 1)
    {
      ghost var start, sent0, output0, data0, type0 := dataCounter, sent, output, returnData, returnType;
      ghost var helloType0, helloCounter0 := helloType, helloCounter;
      for i := 0 to |closests|
        invariant Valid() && returnData == data0 && returnType == type0
        invariant i == 0 ==> helloType == helloType0 && helloCounter == helloCounter0
        invariant i > 0 ==> helloType == 0 && helloCounter == CounterAfter(start, i - 1)
        invariant dataCounter == CounterAfter(start, i)
        invariant sent == sent0 + LeafSends(start, closests[..i])
        invariant output == output0 + LeafLog(start, closests[..i])
      {
        ghost var counter := dataCounter;
        assert closests[..i + 1][..i] == closests[..i];
        assert LeafSends(start, closests[..i + 1]) == LeafSends(start, closests[..i]) + [LeafSend(counter, closests[i])];
        assert LeafLog(start, closests[..i + 1]) == LeafLog(start, closests[..i]) + LeafLines(counter, closests[i]);
        LeafStep(closests[i]);
        CounterAfterStep(start, i);
      }
      assert closests[..|closests|] == closests;
    }

    /**
     * One iteration of the gateway's `loop()`: when the serial port has data, read a
     * 7-byte frame into `returnPacket` (type 1, bytes 0..3) and send it to the address
     * in bytes 4 and 5; otherwise do nothing.
     */
    method GatewayStep(incoming: Option<seq<byte>>)
      requires Valid()
      requires incoming.Some? ==> |incoming.value| == FrameLength
      modifies this, returnData
      ensures Valid() && returnData == old(returnData)
      ensures dataCounter == old(dataCounter) && helloType == old(helloType) && helloCounter == old(helloCounter)
      ensures output == old(output)
      ensures incoming.None? ==> sent == old(sent) && returnType == old(returnType) && returnData[..] == old(returnData[..])
      ensures incoming.Some? ==> returnType == 1 && returnData[..] == incoming.value[..4]
      ensures incoming.Some? ==> sent == old(sent) + [DecodeFrame(incoming.value)]
    {
      if incoming.Some? {
        var data := incoming.value;
        returnType := 1;
        for i := 0 to 4
          invariant Valid() && returnData == old(returnData) && returnType == 1
          invariant sent == old(sent) && output == old(output)
          invariant dataCounter == old(dataCounter) && helloType == old(helloType) && helloCounter == old(helloCounter)
          invariant returnData[..i] == data[..i]
        {
          returnData[i] := data[i];
        }
        assert returnData[..] == returnData[..4];
        var dst := data[5] as int + 256 * data[4] as int;
        sent := sent + [Send(dst, Raw(returnData[..]), 1)];
      }
    }
  }

  // ---------------------------------------------------------------------------
  // The drain loop

  /** The console lines of one drain iteration, with `q` the queue it finds. */
  function DrainStepLines(q: seq<AppPacket>): seq<Line>
    requires q != []
  {
    [NotifyLine, QueueSizeLine(|q|)] + EnvelopeLines(q[0])
  }

  /** The console lines of draining the queue `q`, front first. */
  function DrainLines(q: seq<AppPacket>): seq<Line>
  {
    if q == [] then [] else DrainStepLines(q) + DrainLines(q[1..])
  }

  /**
   * The drain loop's invariant over plain values: starting from queue `q0`, logs `dq0`,
   * `dl0` and console `out0`, the packets already drained are the front of `q0`, each
   * was taken and released once, and the console plus what the rest of the queue will
   * print is what draining all of `q0` prints.
   */
  ghost predicate Drained(q0: seq<AppPacket>, dq0: seq<AppPacket>, dl0: seq<AppPacket>, out0: seq<Line>,
                          q: seq<AppPacket>, dq: seq<AppPacket>, dl: seq<AppPacket>, out: seq<Line>)
  {
    exists done: seq<AppPacket> ::
      q0 == done + q && dq == dq0 + done && dl == dl0 + done
      && out + DrainLines(q) == out0 + DrainLines(q0)
  }

  /** One drain iteration keeps `Drained`. */
  lemma DrainedStep(q0: seq<AppPacket>, dq0: seq<AppPacket>, dl0: seq<AppPacket>, out0: seq<Line>,
                    q: seq<AppPacket>, dq: seq<AppPacket>, dl: seq<AppPacket>, out: seq<Line>)
    requires q != []
    requires Drained(q0, dq0, dl0, out0, q, dq, dl, out)
    ensures Drained(q0, dq0, dl0, out0, q[1..], dq + [q[0]], dl + [q[0]], out + DrainStepLines(q))
  {
    var done: seq<AppPacket> :| q0 == done + q && dq == dq0 + done && dl == dl0 + done
      && out + DrainLines(q) == out0 + DrainLines(q0);
    var done' := done + [q[0]];
    assert q0 == done' + q[1..];
    assert dq + [q[0]] == dq0 + done';
    assert dl + [q[0]] == dl0 + done';
    assert (out + DrainStepLines(q)) + DrainLines(q[1..]) == out + DrainLines(q);
  }

  /** `Drained` from the start, and what it says once the queue is empty. */
  lemma DrainedEnds(q0: seq<AppPacket>, dq0: seq<AppPacket>, dl0: seq<AppPacket>, out0: seq<Line>,
                    dq: seq<AppPacket>, dl: seq<AppPacket>, out: seq<Line>)
    ensures Drained(q0, dq0, dl0, out0, q0, dq0, dl0, out0)
    ensures Drained(q0, dq0, dl0, out0, [], dq, dl, out) ==>
      dq == dq0 + q0 && dl == dl0 + q0 && out == out0 + DrainLines(q0)
  {
    assert q0 == [] + q0 && dq0 == dq0 + [] && dl0 == dl0 + [];
    if Drained(q0, dq0, dl0, out0, [], dq, dl, out) {
      var done: seq<AppPacket> :| q0 == done + [] && dq == dq0 + done && dl == dl0 + done
        && out + DrainLines([]) == out0 + DrainLines(q0);
      assert done == q0;
      assert out + DrainLines([]) == out;
    }
  }

  /** The total number of packets in the envelopes of `q`. */
  function PacketTotal(q: seq<AppPacket>): nat
  {
    if q == [] then 0 else |q[0].payload| + PacketTotal(q[1..])
  }

  /** The total number of raw packets in the envelopes of `q`. */
  function RawTotal(q: seq<AppPacket>): nat
  {
    if q == [] then 0 else RawCount(q[0].payload) + RawTotal(q[1..])
  }

  /**
   * Draining K envelopes holding M packets prints two queue lines and a header per
   * envelope and describes every packet (four lines for a raw packet): nothing is
   * printed for an empty queue.
   */
  lemma {:induction false} DrainLinesCount(q: seq<AppPacket>)
    ensures |DrainLines(q)| == 3 * |q| + PacketTotal(q) + 3 * RawTotal(q)
    decreases |q|
  {
    if q != [] {
      PayloadLinesCount(q[0].payload, q[0].src);
      DrainLinesCount(q[1..]);
    }
  }

  /** The receive task and the part of the mesh layer it talks to. */
  class Receiver {
    /** The mesh layer's received-user-packets queue, front first. */
    var queue: seq<AppPacket>
    /** Every packet `getNextAppPacket` returned, in order. */
    var dequeued: seq<AppPacket>
    /** Every packet passed to `deletePacket`, in order. */
    var deleted: seq<AppPacket>
    /** The serial console. */
    var output: seq<Line>

    /** Between drain iterations every packet taken out has been released, once. */
    ghost predicate Valid()
      reads this
    {
      deleted == dequeued
    }

    constructor (pending: seq<AppPacket>)
      ensures Valid()
      ensures queue == pending && dequeued == [] && deleted == [] && output == []
    {
      queue, dequeued, deleted, output := pending, [], [], [];
    }

    /** `getReceivedQueueSize()`. */
    function QueueSize(): (n: nat)
      reads this
      ensures n == 0 <==> queue == []
    {
      |queue|
    }

    /** `getNextAppPacket()`: only defined on a non-empty queue; takes the front. */
    method GetNextAppPacket() returns (p: AppPacket)
      requires queue != []
      modifies this
      ensures p == old(queue)[0] && queue == old(queue)[1..]
      ensures dequeued == old(dequeued) + [p]
      ensures deleted == old(deleted) && output == old(output)
    {
      p := queue[0];
      queue := queue[1..];
      dequeued := dequeued + [p];
    }

    /** `deletePacket(p)`: the mesh layer releases the packet. */
    method DeletePacket(p: AppPacket)
      modifies this
      ensures deleted == old(deleted) + [p]
      ensures queue == old(queue) && dequeued == old(dequeued) && output == old(output)
    {
      deleted := deleted + [p];
    }

    /**
     * One iteration of the drain loop on a non-empty queue: print the two queue lines,
     * take the front packet, print it, release it.
     */
    method DrainOne()
      requires queue != []
      modifies this
      ensures queue == old(queue)[1..]
      ensures dequeued == old(dequeued) + [old(queue)[0]]
      ensures deleted == old(deleted) + [old(queue)[0]]
      ensures output == old(output) + DrainStepLines(old(queue))
    {
      output := output + [NotifyLine, QueueSizeLine(QueueSize())];
      var packet := GetNextAppPacket();
      var lines := PrintDataPacket(packet);
      output := output + lines;
      DeletePacket(packet);
    }

    /**
     * One wake of `processReceivedPackets`: drain while the queue is not empty.
     * Afterwards the queue is empty, the packets were taken and released in queue
     * order, each exactly once, and the console shows each packet in that order.
     */
    method ProcessReceivedPackets()
      requires Valid()
      modifies this
      ensures Valid()
      ensures queue == []
      ensures dequeued == old(dequeued) + old(queue)
      ensures deleted == old(deleted) + old(queue)
      ensures output == old(output) + DrainLines(old(queue))
    {
      ghost var queue0, dequeued0, deleted0, output0 := queue, dequeued, deleted, output;
      DrainedEnds(queue0, dequeued0, deleted0, output0, dequeued, deleted, output);
      while QueueSize() > 0
        invariant Drained(queue0, dequeued0, deleted0, output0, queue, dequeued, deleted, output)
        decreases |queue|
      {
        DrainedStep(queue0, dequeued0, deleted0, output0, queue, dequeued, deleted, output);
        DrainOne();
      }
      DrainedEnds(queue0, dequeued0, deleted0, output0, dequeued, deleted, output);
    }
  }
}
