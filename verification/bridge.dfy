/**
 * The host-side serial bridge's text handling (src/try.py): parsing a `DATA:` line from
 * the mesh node into payload values and a destination, splitting the destination into
 * two bytes, cutting the payload into chunks of at most `CHUNK_SIZE - 2` values, the
 * byte strings those chunks become, and encoding a `RETURN:` line into bytes.
 */
module Bridge {
  import opened Common
  import opened Text

  /** `CHUNK_SIZE`: the longest message, destination bytes included. */
  const ChunkSize: nat := 51
  /** `CHUNK_SIZE - 2`: the most payload values one message carries. */
  const ChunkLimit: nat := 49

  const DataPrefix: string := "DATA:"
  const ReturnPrefix: string := "RETURN:"
  const Newline: byte := 10

  /** The exceptions the bridge catches while handling one line. */
  datatype Error =
    | NoSeparator      // `rsplit(' ', 1)` gave one part: unpacking raises
    | BadDestination   // `int(dst, 16)` raises
    | BadValue         // `int(val)` raises
    | ByteOutOfRange   // `bytes(...)` raises

  datatype Result<T> = Ok(value: T) | Err(error: Error)

  /** A parsed `DATA:` line: the payload values and the destination address. */
  datatype DataLine = DataLine(payload: seq<int>, dst: int)

  /** `[int(tok) for tok in tokens]`, which raises if any token does not parse. */
  function ParseInts(tokens: seq<string>): (r: Option<seq<int>>)
    ensures r.Some? <==> forall i :: 0 <= i < |tokens| ==> ParseInt(tokens[i], Decimal).Some?
    ensures r.Some? ==> |r.value| == |tokens|
    ensures r.Some? ==> forall i :: 0 <= i < |tokens| ==> ParseInt(tokens[i], Decimal) == Some(r.value[i])
  {
    if tokens == [] then Some([])
    else
      match (ParseInt(tokens[0], Decimal), ParseInts(tokens[1..]))
      case (Some(v), Some(vs)) => Some([v] + vs)
      case _ => None
  }

  /**
   * The text after `DATA:` split at its last space: the tail is the destination in hex,
   * the head the payload as whitespace-separated decimal values. The exceptions are
   * tried in the order the source evaluates them.
   */
  function ParseDataContent(content: string): (r: Result<DataLine>)
    ensures r == Err(NoSeparator) <==> ' ' !in content
    ensures r.Ok? ==> ' ' in content && ParseInt(RSplitOnce(content, ' ').value.1, Hexadecimal) == Some(r.value.dst)
    ensures r.Ok? ==> ParseInts(Split(RSplitOnce(content, ' ').value.0)) == Some(r.value.payload)
  {
    match RSplitOnce(content, ' ')
    case None => Err(NoSeparator)
    case Some((d, dst)) =>
      match ParseInt(dst, Hexadecimal)
      case None => Err(BadDestination)
      case Some(address) =>
        match ParseInts(Split(d))
        case None => Err(BadValue)
        case Some(values) => Ok(DataLine(values, address))
  }

  /** A payload, a space and a hex destination parse into that payload and destination. */
  lemma ParseDataContentJoin(d: string, hex: string, values: seq<int>, dst: int)
    requires ' ' !in hex
    requires ParseInt(hex, Hexadecimal) == Some(dst)
    requires ParseInts(Split(d)) == Some(values)
    ensures ParseDataContent(d + [' '] + hex) == Ok(DataLine(values, dst))
  {
    RSplitOnceJoin(d, ' ', hex);
  }

  /** `a = dst // 256` and `b = dst % 256` (floor division, as Python has it). */
  function SplitDestination(dst: int): (r: (int, int))
    ensures r.0 * 256 + r.1 == dst && 0 <= r.1 < 256
    ensures 0 <= dst < 0x1_0000 <==> 0 <= r.0 < 256
  {
    (dst / 256, dst % 256)
  }

  /** Python's slice `d[lo:hi]` for `0 <= lo`: the end is clamped to the length. */
  function Slice(d: seq<int>, lo: nat, hi: nat): (r: seq<int>)
    requires lo <= hi
    ensures lo <= |d| ==> |r| == (if hi <= |d| then hi else |d|) - lo
    ensures lo <= |d| ==> forall i :: 0 <= i < |r| ==> r[i] == d[lo + i]
    ensures lo >= |d| ==> r == []
  {
    if lo >= |d| then [] else if hi <= |d| then d[lo..hi] else d[lo..]
  }

  /** `[d[i:i+CHUNK_SIZE-2] for i in range(0, len(d), CHUNK_SIZE-2)]`. */
  function Chunks(d: seq<int>): (r: seq<seq<int>>)
    ensures |r| * ChunkLimit >= |d| && (|r| == 0 || (|r| - 1) * ChunkLimit < |d|)
    ensures forall k :: 0 <= k < |r| ==> 0 < |r[k]| <= ChunkLimit
  {
    var count := (|d| + ChunkLimit - 1) / ChunkLimit;
    seq(count, k requires 0 <= k < count => Slice(d, k * ChunkLimit, (k + 1) * ChunkLimit))
  }

  /** Concatenation of a list of lists, in order. */
  function Flatten(ss: seq<seq<int>>): seq<int>
  {
    if ss == [] then [] else ss[0] + Flatten(ss[1..])
  }

  /** Python's slicing of a suffix: `d[n:][lo:hi] == d[n+lo:n+hi]`. */
  lemma SliceOfSuffix(d: seq<int>, n: nat, lo: nat, hi: nat)
    requires n <= |d| && lo <= hi
    ensures Slice(d[n..], lo, hi) == Slice(d, n + lo, n + hi)
  {
  }

  /** Chunk `k` is the slice of 49 values starting at `49 * k`. */
  lemma ChunksAt(d: seq<int>, k: nat)
    requires k < |Chunks(d)|
    ensures Chunks(d)[k] == Slice(d, k * ChunkLimit, k * ChunkLimit + ChunkLimit)
  {
  }

  /** A payload longer than one chunk is its first chunk followed by the chunks of the rest. */
  lemma ChunksFront(d: seq<int>)
    requires |d| > ChunkLimit
    ensures Chunks(d) == [d[..ChunkLimit]] + Chunks(d[ChunkLimit..])
  {
    var r, rest := Chunks(d), Chunks(d[ChunkLimit..]);
    assert |r| == |rest| + 1;
    ChunksAt(d, 0);
    forall k | 0 <= k < |rest|
      ensures r[k + 1] == rest[k]
    {
      var lo := k * ChunkLimit;
      ChunksAt(d, k + 1);
      ChunksAt(d[ChunkLimit..], k);
      SliceOfSuffix(d, ChunkLimit, lo, lo + ChunkLimit);
    }
  }

  /** The chunks, joined back in order, are the payload: nothing lost, nothing reordered. */
  lemma {:induction false} ChunksFlatten(d: seq<int>)
    ensures Flatten(Chunks(d)) == d
    ensures d == [] <==> Chunks(d) == []
    decreases |d|
  {
    if |d| > ChunkLimit {
      ChunksFront(d);
      ChunksFlatten(d[ChunkLimit..]);
      assert d == d[..ChunkLimit] + d[ChunkLimit..];
    } else if d != [] {
      assert (|d| + ChunkLimit - 1) / ChunkLimit == 1;
      assert Chunks(d)[0] == Slice(d, 0, ChunkLimit) == d;
      assert Chunks(d) == [d];
    }
  }

  /** A one-value payload is a single chunk. */
  lemma ChunksSingle(v: int)
    ensures Chunks([v]) == [[v]]
  {
    assert (1 + ChunkLimit - 1) / ChunkLimit == 1;
    assert Chunks([v])[0] == Slice([v], 0, ChunkLimit) == [v];
  }

  /** `chunk + [a, b]`: one chunk with the destination bytes appended. */
  function Message(chunk: seq<int>, dst: int): seq<int>
  {
    var (a, b) := SplitDestination(dst);
    chunk + [a, b]
  }

  /**
   * The number of chunks appended to the queue before `bytes(...)` first raises: every
   * chunk before it fits in bytes, the one it stops at does not.
   */
  function QueuedCount(chunks: seq<seq<int>>, dst: int): (k: nat)
    ensures k <= |chunks|
    ensures forall j :: 0 <= j < k ==> IsByteSeq(Message(chunks[j], dst))
    ensures k < |chunks| ==> !IsByteSeq(Message(chunks[k], dst))
  {
    if chunks == [] || !IsByteSeq(Message(chunks[0], dst)) then 0
    else 1 + QueuedCount(chunks[1..], dst)
  }

  /** The byte strings appended for `chunks` bound for `dst`, in order. */
  function QueuedChunks(chunks: seq<seq<int>>, dst: int): seq<seq<byte>>
  {
    var k := QueuedCount(chunks, dst);
    seq(k, j requires 0 <= j < k => ToBytes(Message(chunks[j], dst)))
  }

  /** The byte strings a parsed `DATA:` line appends to the queue, in order. */
  function QueuedFor(line: DataLine): seq<seq<byte>>
  {
    QueuedChunks(Chunks(line.payload), line.dst)
  }

  /** A single chunk is queued exactly when its message fits in bytes. */
  lemma QueuedSingle(chunk: seq<int>, dst: int)
    ensures QueuedChunks([chunk], dst) ==
      if IsByteSeq(Message(chunk, dst)) then [ToBytes(Message(chunk, dst))] else []
  {
    assert [chunk][1..] == [];
  }

  /** A chunk whose message fits in bytes, reached before the stop, is the next one queued. */
  lemma QueuedChunksAt(chunks: seq<seq<int>>, dst: int, j: nat)
    requires j <= QueuedCount(chunks, dst) && j < |chunks|
    requires IsByteSeq(Message(chunks[j], dst))
    ensures j < QueuedCount(chunks, dst) == |QueuedChunks(chunks, dst)|
    ensures QueuedChunks(chunks, dst)[j] == ToBytes(Message(chunks[j], dst))
  {
  }

  /**
   * What one line from the mesh node appends to the queue: nothing unless it starts
   * with `DATA:` and parses.
   */
  function QueuedMessages(line: string): seq<seq<byte>>
  {
    if !StartsWith(line, DataPrefix) then []
    else
      match ParseDataContent(line[|DataPrefix|..])
      case Err(_) => []
      case Ok(parsed) => QueuedFor(parsed)
  }

  /**
   * Every queued message is a non-empty chunk of at most 49 values followed by the
   * destination, high byte first; a message is only queued for a destination below 65536.
   */
  lemma QueuedShape(line: DataLine)
    ensures forall m :: m in QueuedFor(line) ==>
      3 <= |m| <= ChunkSize && m[|m| - 2] * 256 + m[|m| - 1] == line.dst
    ensures QueuedFor(line) != [] ==> 0 <= line.dst < 0x1_0000
  {
    var chunks := Chunks(line.payload);
    var queued := QueuedFor(line);
    forall m | m in queued
      ensures 3 <= |m| <= ChunkSize && m[|m| - 2] * 256 + m[|m| - 1] == line.dst
    {
      var j :| 0 <= j < |queued| && queued[j] == m;
      assert m == ToBytes(Message(chunks[j], line.dst));
    }
    if queued != [] {
      var m := Message(chunks[0], line.dst);
      assert IsByteSeq(m);
      assert 0 <= m[|m| - 2] < 256;
    }
  }

  /** A destination of 65536 or more, or a negative one, queues nothing. */
  lemma QueuedNothingForWideDestination(line: DataLine)
    requires !(0 <= line.dst < 0x1_0000)
    ensures QueuedFor(line) == []
  {
    QueuedShape(line);
  }

  /** The payload part of each message (all but the two destination bytes). */
  function Payloads(ms: seq<seq<byte>>): seq<seq<int>>
  {
    seq(|ms|, i requires 0 <= i < |ms| => if |ms[i]| < 2 then [] else ms[i][..|ms[i]| - 2])
  }

  /**
   * When every value is a byte and the destination fits in 16 bits, one message is
   * queued per chunk (ceil(n/49) of them) and their payloads, in order, are the payload.
   */
  lemma QueuedAll(line: DataLine)
    requires IsByteSeq(line.payload) && 0 <= line.dst < 0x1_0000
    ensures |QueuedFor(line)| == |Chunks(line.payload)|
    ensures Flatten(Payloads(QueuedFor(line))) == line.payload
  {
    var chunks := Chunks(line.payload);
    forall j | 0 <= j < |chunks|
      ensures IsByteSeq(Message(chunks[j], line.dst))
    {
      ChunksAt(line.payload, j);
      var lo := j * ChunkLimit;
      assert forall i :: 0 <= i < |chunks[j]| ==> chunks[j][i] == line.payload[lo + i];
    }
    var k := QueuedCount(chunks, line.dst);
    assert k == |chunks|;
    var queued := QueuedFor(line);
    assert Payloads(queued) == chunks by {
      forall j | 0 <= j < |chunks|
        ensures Payloads(queued)[j] == chunks[j]
      {
        assert queued[j] == ToBytes(Message(chunks[j], line.dst));
      }
    }
    ChunksFlatten(line.payload);
  }

  // ---------------------------------------------------------------------------
  // RETURN: lines

  /**
   * `bytes([int(i) for i in data_str.split()]) + b'\n'`: the values as bytes and a
   * newline, or the exception that stops it.
   */
  function EncodeReturn(content: string): (r: Result<seq<byte>>)
    ensures r.Ok? ==> |r.value| == |Split(content)| + 1 && r.value[|r.value| - 1] == Newline
    ensures r.Ok? ==> forall i :: 0 <= i < |Split(content)| ==>
      ParseInt(Split(content)[i], Decimal) == Some(r.value[i])
    ensures r.Err? ==> (exists i :: 0 <= i < |Split(content)| && !IsByteToken(Split(content)[i]))
  {
    match ParseInts(Split(content))
    case None => Err(BadValue)
    case Some(values) =>
      if IsByteSeq(values) then Ok(ToBytes(values) + [Newline]) else Err(ByteOutOfRange)
  }

  /** Whether `int(tok)` succeeds with a value that `bytes()` accepts. */
  predicate IsByteToken(tok: string)
  {
    match ParseInt(tok, Decimal)
    case Some(v) => 0 <= v < 256
    case None => false
  }

  /** What one line from the LoRaWAN side writes back to the mesh node, if anything. */
  function ReturnBytes(line: string): Option<seq<byte>>
  {
    if !StartsWith(line, ReturnPrefix) then None
    else
      match EncodeReturn(line[|ReturnPrefix|..])
      case Ok(bytes) => Some(bytes)
      case Err(_) => None
  }

  /** Each value in decimal. */
  function FormatTokens(vs: seq<int>): seq<string>
  {
    seq(|vs|, i requires 0 <= i < |vs| => FormatInt(vs[i]))
  }

  /** Values written space-separated in decimal, as a `RETURN:` line carries them. */
  function FormatValues(vs: seq<int>): string
  {
    Join(FormatTokens(vs))
  }

  /** Reading back a formatted list of values gives the values. */
  lemma ParseFormatValues(vs: seq<int>)
    ensures ParseInts(Split(FormatValues(vs))) == Some(vs)
  {
    var tokens := FormatTokens(vs);
    SplitJoin(tokens);
    forall i | 0 <= i < |vs|
      ensures ParseInt(tokens[i], Decimal) == Some(vs[i])
    {
      ParseFormatInt(vs[i]);
    }
    var r := ParseInts(tokens);
    assert r.value == vs;
  }

  /** A `RETURN:` line of byte values is written back as exactly those bytes and a newline. */
  lemma ReturnBytesFormat(vs: seq<byte>)
    ensures ReturnBytes(ReturnPrefix + FormatValues(vs)) == Some(vs + [Newline])
  {
    var line := ReturnPrefix + FormatValues(vs);
    assert line[..|ReturnPrefix|] == ReturnPrefix;
    assert line[|ReturnPrefix|..] == FormatValues(vs);
    ParseFormatValues(vs);
    assert IsByteSeq(vs);
    assert ToBytes(vs) == vs;
  }
}
