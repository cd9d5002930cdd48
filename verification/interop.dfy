/**
 * Where the firmware (src/main.cpp) and the serial bridge (src/try.py) meet: the bytes
 * the bridge writes back for a `RETURN:` line are the 7-byte frame the gateway reads,
 * the destination split and the frame decode are inverse, and the `DATA:` line the
 * firmware prints for a counter packet is the line the bridge parses.
 */
module Interop {
  import opened Common
  import opened Text
  import opened Packet
  import opened Bridge

  /**
   * A `RETURN:` line of six byte values becomes a 7-byte frame (the values and a
   * newline) that the gateway sends as a raw packet of the first four values to the
   * address `v4 * 256 + v5`.
   */
  lemma ReturnLineIsGatewayFrame(vs: seq<byte>)
    requires |vs| == 6
    ensures ReturnBytes(ReturnPrefix + FormatValues(vs)) == Some(vs + [Newline])
    ensures |vs + [Newline]| == FrameLength
    ensures DecodeFrame(vs + [Newline]) == Send(vs[4] as int * 256 + vs[5] as int, Raw(vs[..4]), 1)
  {
    ReturnBytesFormat(vs);
    NewlineFrameDecodes(vs);
  }

  /** Six bytes and a newline decode to a raw send of the first four to `v4 * 256 + v5`. */
  lemma NewlineFrameDecodes(vs: seq<byte>)
    requires |vs| == 6
    ensures |vs + [Newline]| == FrameLength
    ensures DecodeFrame(vs + [Newline]) == Send(vs[4] as int * 256 + vs[5] as int, Raw(vs[..4]), 1)
  {
    var frame := vs + [Newline];
    assert frame[..4] == vs[..4];
    assert frame[4] == vs[4] && frame[5] == vs[5];
  }

  /** The bridge's split of a decoded destination gives back frame bytes 4 and 5. */
  lemma SplitUndoesDecode(frame: seq<byte>)
    requires |frame| == FrameLength
    ensures SplitDestination(DecodeFrame(frame).dst) == (frame[4] as int, frame[5] as int)
  {
  }

  /** The gateway's decode of the bridge's two destination bytes gives back the address. */
  lemma DecodeUndoesSplit(payload: Quad, dst: u16, trailer: byte)
    ensures var (a, b) := SplitDestination(dst);
      0 <= a < 256 && 0 <= b < 256 && DecodeFrame(payload + [a as byte, b as byte, trailer]).dst == dst
  {
    var (a, b) := SplitDestination(dst);
    var frame := payload + [a as byte, b as byte, trailer];
    assert frame[4] == a && frame[5] == b;
  }

  lemma NoSpaceHasNoBlank(s: string)
    requires NoSpace(s)
    ensures ' ' !in s
  {
  }

  /**
   * The line `printPacket` prints for a counter packet starts with `DATA:` and parses
   * into a one-value payload (the counter as `%d` shows it, negative from 2^31 on) and
   * the source address as destination.
   */
  lemma CounterLineParses(c: u32, src: u16)
    ensures StartsWith(Render(CounterLine(c, src)), DataPrefix)
    ensures ParseDataContent(Render(CounterLine(c, src))[|DataPrefix|..]) == Ok(DataLine([AsSigned32(c)], src))
  {
    var text := Render(CounterLine(c, src));
    var dec, hex := FormatInt(AsSigned32(c)), FormatNat(src, Hexadecimal, false);
    assert text == DataPrefix + (dec + [' '] + hex);
    assert text[..|DataPrefix|] == DataPrefix;
    var content := text[|DataPrefix|..];
    assert content == dec + [' '] + hex;
    NoSpaceHasNoBlank(hex);
    ParseFormatNat(src, Hexadecimal, false);
    SplitJoin([dec]);
    assert Join([dec]) == dec;
    ParseFormatInt(AsSigned32(c));
    assert [dec][1..] == [];
    assert ParseInts([dec]) == Some([AsSigned32(c)] + []);
    assert [AsSigned32(c)] + [] == [AsSigned32(c)];
    assert Split(dec) == [dec];
    ParseDataContentJoin(dec, hex, [AsSigned32(c)], src);
  }

  /**
   * Fed the firmware's counter line, the bridge queues one 3-byte message (the counter
   * and the source address, high byte first) when the counter is below 256, and
   * nothing otherwise: `bytes()` rejects larger and negative values.
   */
  lemma CounterLineQueued(c: u32, src: u16)
    ensures QueuedMessages(Render(CounterLine(c, src))) ==
      if c < 256 then [[c as byte, (src / 256) as byte, (src % 256) as byte]] else []
  {
    CounterLineParses(c, src);
    var v := AsSigned32(c);
    ChunksSingle(v);
    QueuedSingle([v], src);
    var message := Message([v], src);
    assert message == [v, src / 256, src % 256];
    if c < 256 {
      assert ToBytes(message) == [c as byte, (src / 256) as byte, (src % 256) as byte];
    } else {
      assert !(0 <= message[0] < 256);
    }
  }

  /** None of the four lines printed for a raw packet makes the bridge queue anything. */
  lemma RawLinesQueueNothing(p: DataPacket, src: u16)
    requires p.Raw?
    ensures forall i :: 0 <= i < |PacketLines(p, src)| ==> QueuedMessages(Render(PacketLines(p, src)[i])) == []
  {
    PacketLinesShape(p, src);
  }
}
