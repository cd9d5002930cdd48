/**
 * The firmware's application packet (`struct dataPacket`), the gateway's reading of a
 * 7-byte serial frame, the leaf's choice of destination, and the diagnostic lines
 * `printPacket` and `printDataPacket` write to the serial console (src/main.cpp).
 */
module Packet {
  import opened Common
  import opened Text

  /** `BROADCAST_ADDR` of the mesh library: the address every node accepts. */
  const BroadcastAddr: u16 := 0xFFFF

  /** The number of bytes the gateway reads from its serial port per frame. */
  const FrameLength: nat := 7

  type Quad = s: seq<byte> | |s| == 4 witness [0, 0, 0, 0]

  /**
   * `struct dataPacket`: an `int type` and a 4-byte slot. Type 0 reads the slot as
   * the `uint32_t counter`, any other type as `uint8_t data[4]`; the two views are kept
   * as two variants.
   */
  datatype DataPacket = Counter(counter: u32) | Raw(data: Quad)
  {
    /** The `type` field the firmware stores beside the slot. */
    function Type(): int
    {
      if Counter? then 0 else 1
    }
  }

  /** One call `createPacketAndSend(dst, packet, count)` handed to the mesh layer. */
  datatype Send = Send(dst: u16, packet: DataPacket, count: nat)

  /**
   * `AppPacket<dataPacket>` as the mesh layer delivers it: the source address, the
   * size field printed in the header, and the packets (`getPayloadLength()` of them).
   */
  datatype AppPacket = AppPacket(src: u16, payloadSize: nat, payload: seq<DataPacket>)

  // ---------------------------------------------------------------------------
  // Gateway frame and leaf destination

  /**
   * The gateway's reading of a serial frame: bytes 0..3 become the raw payload, byte 4
   * is the high and byte 5 the low byte of the destination, byte 6 is not used; one
   * packet is sent.
   */
  function DecodeFrame(frame: seq<byte>): (s: Send)
    requires |frame| == FrameLength
    ensures s.count == 1 && s.packet.Raw? && s.packet.Type() == 1
    ensures s.packet.data == frame[..4]
    ensures s.dst / 256 == frame[4] && s.dst % 256 == frame[5]
  {
    Send(frame[5] as int + 256 * frame[4] as int, Raw(frame[..4]), 1)
  }

  /** The seventh byte of a frame has no effect on what the gateway sends. */
  lemma DecodeFrameIgnoresTrailer(f: seq<byte>, g: seq<byte>)
    requires |f| == FrameLength && |g| == FrameLength
    requires f[..6] == g[..6]
    ensures DecodeFrame(f) == DecodeFrame(g)
  {
    assert f[..4] == f[..6][..4] && g[..4] == g[..6][..4];
    assert f[4] == f[..6][4] && f[5] == f[..6][5];
    assert g[4] == g[..6][4] && g[5] == g[..6][5];
  }

  /** Frames that differ in their first six bytes are sent differently: the decode is injective there. */
  lemma DecodeFrameInjective(f: seq<byte>, g: seq<byte>)
    requires |f| == FrameLength && |g| == FrameLength
    requires DecodeFrame(f) == DecodeFrame(g)
    ensures f[..6] == g[..6]
  {
    var d := DecodeFrame(f).dst;
    assert f[4] == d / 256 == g[4];
    assert f[5] == d % 256 == g[5];
    assert f[..4] == DecodeFrame(f).packet.data == g[..4];
    assert f[..6] == f[..4] + [f[4], f[5]];
    assert g[..6] == g[..4] + [g[4], g[5]];
  }

  /**
   * The leaf's destination: the address of the closest gateway when the routing table
   * knows one, `BROADCAST_ADDR` otherwise.
   */
  function ChooseDestination(closest: Option<u16>): (addr: u16)
    ensures closest.Some? ==> addr == closest.value
    ensures closest.None? ==> addr == BroadcastAddr
  {
    match closest
    case Some(address) => address
    case None => BroadcastAddr
  }

  // ---------------------------------------------------------------------------
  // Diagnostic lines (each without its line terminator)

  /** How `printf("%d")` renders a `uint32_t`: its bits read as a signed 32-bit int. */
  function AsSigned32(c: u32): (v: int)
    ensures -TwoTo31 <= v < TwoTo31
    ensures (v - c) % TwoTo32 == 0
    ensures c < TwoTo31 <==> v == c
  {
    if c < TwoTo31 then c else c - TwoTo32
  }

  const DataTag: string := "DATA:"

  /** A console line of the firmware, by the statement that prints it. */
  datatype Line =
    | CounterLine(counter: u32, src: u16)    // printPacket, type 0
    | ByteLine(value: byte)                  // printPacket, any other type
    | HeaderLine(src: u16, size: nat)        // printDataPacket
    | NotifyLine                             // processReceivedPackets
    | QueueSizeLine(size: nat)               // processReceivedPackets
    | SendCounterLine(counter: u32)          // loop(), leaf
    | SendToLine(addr: u16)                  // loop(), leaf

  /** The text of a line as `printf`/`println` write it, without the line terminator. */
  function Render(l: Line): (r: string)
    ensures l.CounterLine? <==> StartsWith(r, DataTag)
    ensures l.ByteLine? ==> ParseInt(r, Decimal) == Some(l.value as int)
  {
    match l
    case CounterLine(c, src) =>
      var r := DataTag + FormatInt(AsSigned32(c)) + " " + FormatNat(src, Hexadecimal, false);
      assert r[..|DataTag|] == DataTag;
      r
    case ByteLine(b) =>
      var r := FormatNat(b, Decimal, false);
      ParseFormatNat(b, Decimal, false);
      FirstCharDiffers(r, DataTag);
      r
    case HeaderLine(src, size) =>
      var r := "Packet arrived from " + FormatNat(src, Hexadecimal, true) + " with size " + FormatNat(size, Decimal, false);
      FirstCharDiffers(r, DataTag);
      r
    case NotifyLine =>
      var r := "ReceivedUserData_TaskHandle notify received";
      FirstCharDiffers(r, DataTag);
      r
    case QueueSizeLine(size) =>
      var r := "Queue receiveUserData size: " + FormatNat(size, Decimal, false);
      FirstCharDiffers(r, DataTag);
      r
    case SendCounterLine(c) =>
      var r := "Send packet " + FormatInt(AsSigned32(c));
      FirstCharDiffers(r, DataTag);
      r
    case SendToLine(addr) =>
      var r := "Sending packet to " + FormatNat(addr, Hexadecimal, true);
      FirstCharDiffers(r, DataTag);
      r
  }

  /** The lines of `printPacket(packet, src)`. */
  function PacketLines(p: DataPacket, src: u16): seq<Line>
  {
    match p
    case Counter(c) => [CounterLine(c, src)]
    case Raw(d) => seq(4, i requires 0 <= i < 4 => ByteLine(d[i]))
  }

  /**
   * `printPacket`: a counter packet is one line that starts with `DATA:`; any other
   * packet is four lines, data bytes 0 to 3 in that order, each reading back as its
   * byte and none starting with `DATA:`.
   */
  lemma PacketLinesShape(p: DataPacket, src: u16)
    ensures p.Counter? ==> |PacketLines(p, src)| == 1 && StartsWith(Render(PacketLines(p, src)[0]), DataTag)
    ensures p.Raw? ==> |PacketLines(p, src)| == 4
    ensures p.Raw? ==> forall i :: 0 <= i < 4 ==>
      ParseInt(Render(PacketLines(p, src)[i]), Decimal) == Some(p.data[i]) &&
      !StartsWith(Render(PacketLines(p, src)[i]), DataTag)
  {
    if p.Raw? {
      forall i | 0 <= i < 4
        ensures ParseInt(Render(PacketLines(p, src)[i]), Decimal) == Some(p.data[i])
        ensures !StartsWith(Render(PacketLines(p, src)[i]), DataTag)
      {
        var text := Render(PacketLines(p, src)[i]);
        ParseFormatNat(p.data[i], Decimal, false);
        assert Decimal.Accepts(text[0]);
      }
    } else {
      var text := Render(PacketLines(p, src)[0]);
      assert text[..|DataTag|] == DataTag;
    }
  }

  /** `printPacket` written as the firmware writes it: a branch on the type, a loop over the bytes. */
  method PrintPacket(p: DataPacket, src: u16) returns (lines: seq<Line>)
    ensures lines == PacketLines(p, src)
  {
    if p.Type() == 0 {
      lines := [CounterLine(p.counter, src)];
    } else {
      lines := [];
      for i := 0 to 4
        invariant lines == seq(i, j requires 0 <= j < i => ByteLine(p.data[j]))
      {
        lines := lines + [ByteLine(p.data[i])];
      }
    }
  }

  /** The lines of `printPacket(ps[i], src)` for every `i`, in index order. */
  function PayloadLines(ps: seq<DataPacket>, src: u16): seq<Line>
  {
    if ps == [] then [] else PayloadLines(ps[..|ps| - 1], src) + PacketLines(ps[|ps| - 1], src)
  }

  /** The lines of `printDataPacket(e)`: the header, then each packet of the payload. */
  function EnvelopeLines(e: AppPacket): seq<Line>
  {
    [HeaderLine(e.src, e.payloadSize)] + PayloadLines(e.payload, e.src)
  }

  /** Printing two runs of packets one after the other prints their lines one after the other. */
  lemma {:induction false} PayloadLinesAppend(ps: seq<DataPacket>, qs: seq<DataPacket>, src: u16)
    ensures PayloadLines(ps + qs, src) == PayloadLines(ps, src) + PayloadLines(qs, src)
    decreases |qs|
  {
    if qs != [] {
      var init := qs[..|qs| - 1];
      assert (ps + qs)[..|ps + qs| - 1] == ps + init;
      assert (ps + qs)[|ps + qs| - 1] == qs[|qs| - 1];
      PayloadLinesAppend(ps, init, src);
    } else {
      assert ps + qs == ps;
    }
  }

  /** The number of raw (non-counter) packets in `ps`. */
  function RawCount(ps: seq<DataPacket>): (n: nat)
    ensures n <= |ps|
  {
    if ps == [] then 0 else RawCount(ps[..|ps| - 1]) + (if ps[|ps| - 1].Raw? then 1 else 0)
  }

  /**
   * Every packet of the payload is printed: one line per counter packet, four per raw
   * packet, and nothing for an empty payload.
   */
  lemma {:induction false} PayloadLinesCount(ps: seq<DataPacket>, src: u16)
    ensures |PayloadLines(ps, src)| == |ps| + 3 * RawCount(ps)
    ensures ps == [] ==> PayloadLines(ps, src) == []
    decreases |ps|
  {
    if ps != [] {
      PayloadLinesCount(ps[..|ps| - 1], src);
      PacketLinesShape(ps[|ps| - 1], src);
    }
  }

  /** `printDataPacket` as the firmware writes it: a header, then a loop over the payload. */
  method PrintDataPacket(e: AppPacket) returns (lines: seq<Line>)
    ensures lines == EnvelopeLines(e)
  {
    lines := [HeaderLine(e.src, e.payloadSize)];
    var payloadLength := |e.payload|;
    for i := 0 to payloadLength
      invariant lines == [HeaderLine(e.src, e.payloadSize)] + PayloadLines(e.payload[..i], e.src)
    {
      var packetLines := PrintPacket(e.payload[i], e.src);
      assert e.payload[..i + 1][..i] == e.payload[..i];
      lines := lines + packetLines;
    }
    assert e.payload[..payloadLength] == e.payload;
  }
}
