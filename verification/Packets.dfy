/**
 The xpra packet layer (src/net/io.rs): an 8-byte header per packet, up to three out-of-band chunks
 before each main packet. `ReadPacket` here is the specification; the method that reads a connection
 is in Connections.
 */
module Packets {
  import opened Wrappers
  import opened Bytes

  const PACKET_MAGIC: byte := 0x50
  const FLAGS_YAML: byte := 0x4
  const MAX_CHUNKS: nat := 4
  const MAX_CHUNK_INDEX: nat := 16
  const HEADER_SIZE: nat := 8

  // The lz4 block decoder is a parameter: `None` is a decompression failure.
  type Decoder = seq<byte> -> Option<seq<byte>>

  datatype RawPacket = RawPacket(payload: seq<byte>, chunks: map<byte, seq<byte>>)

  datatype Error =
    | Eof
    | Aborted              // the websocket peer closed
    | BadOpcode
    | BadMagic
    | BadIndex
    | BadEncoding
    | BadCompression
    | TooManyChunks
    | DuplicateChunk

  datatype Outcome = Got(packet: RawPacket, rest: seq<byte>) | Failed(error: Error)

  predicate HasFlag(value: byte, flag: byte)
    requires flag > 0
  {
    (value / flag) % 2 == 1
  }

  function Decompress(lz4: Decoder, compression: byte, payload: seq<byte>): Option<seq<byte>> {
    if compression == 0 then Some(payload)
    else if !HasFlag(compression, 0x10) then None
    else lz4(payload)
  }

  // One header and its payload, as the read loop sees them, with the number of bytes they took.
  datatype Item =
    | Main(payload: seq<byte>, used: nat)
    | Chunk(index: byte, data: Option<seq<byte>>, used: nat)
    | Bad(error: Error)

  function NextItem(lz4: Decoder, input: seq<byte>): (item: Item)
    ensures !item.Bad? ==> HEADER_SIZE <= item.used <= |input|
    ensures item.Chunk? ==> 1 <= item.index < MAX_CHUNK_INDEX
  {
    if |input| < HEADER_SIZE then Bad(Eof)
    else if input[0] != PACKET_MAGIC then Bad(BadMagic)
    else if input[3] >= MAX_CHUNK_INDEX then Bad(BadIndex)
    else
      var size := FromBigEndian(input[4..8]);
      if |input| - HEADER_SIZE < size then Bad(Eof)
      else
        var data := Decompress(lz4, input[2], input[HEADER_SIZE..HEADER_SIZE + size]);
        if input[3] != 0 then Chunk(input[3], data, HEADER_SIZE + size)
        else if !HasFlag(input[1], FLAGS_YAML) then Bad(BadEncoding)
        else if data.None? then Bad(BadCompression)
        else Main(data.value, HEADER_SIZE + size)
  }

  // What reading one packet from `input` yields, after `received` chunk packets of which `chunks`
  // were kept. A chunk that cannot be decompressed is dropped but still counted.
  function ReadFrom(lz4: Decoder, input: seq<byte>, chunks: map<byte, seq<byte>>, received: nat): (r: Outcome)
    requires received < MAX_CHUNKS
    ensures r.Got? ==> |r.rest| < |input|
    decreases MAX_CHUNKS - received
  {
    match NextItem(lz4, input)
    case Bad(error) => Failed(error)
    case Main(payload, used) => Got(RawPacket(payload, chunks), input[used..])
    case Chunk(index, data, used) =>
      if received + 1 >= MAX_CHUNKS then Failed(TooManyChunks)
      else if index in chunks then Failed(DuplicateChunk)
      else ReadFrom(lz4, input[used..], if data.None? then chunks else chunks[index := data.value], received + 1)
  }

  function ReadPacket(lz4: Decoder, input: seq<byte>): (r: Outcome)
    ensures r.Got? ==> |r.rest| < |input|
  {
    ReadFrom(lz4, input, map[], 0)
  }

  // Every packet the read loop hands over before it stops.
  function AllPackets(lz4: Decoder, input: seq<byte>): seq<RawPacket>
    decreases |input|
  {
    match ReadPacket(lz4, input)
    case Got(packet, rest) => [packet] + AllPackets(lz4, rest)
    case Failed(_) => []
  }

  // Why the read loop stops.
  function LoopError(lz4: Decoder, input: seq<byte>): Error
    decreases |input|
  {
    match ReadPacket(lz4, input)
    case Got(_, rest) => LoopError(lz4, rest)
    case Failed(error) => error
  }

  function MakeHeader(data: seq<byte>): (h: seq<byte>)
    ensures |h| == HEADER_SIZE
  {
    [PACKET_MAGIC, FLAGS_YAML, 0, 0] + ToBigEndian(|data|, 4)
  }

  function Packet(data: seq<byte>): seq<byte> {
    MakeHeader(data) + data
  }

  function Concatenated(list: seq<seq<byte>>): seq<byte> {
    if list == [] then [] else Packet(list[0]) + Concatenated(list[1..])
  }

  // ---------------------------------------------------------------- the header, byte by byte

  lemma HeaderBytes(data: seq<byte>)
    ensures var n := |data|;
      MakeHeader(data) == [0x50, 4, 0, 0, n / 0x100_0000 % 256, n / 0x1_0000 % 256, n / 0x100 % 256, n % 256]
  {
    var n := |data|;
    forall i | 0 <= i < 4 ensures ToBigEndian(n, 4)[i] == n / PowerOf(256, 3 - i) % 256 { BigEndianByte(n, 4, i); }
    SmallPowers();
  }

  lemma SmallPowers()
    ensures PowerOf(256, 0) == 1 && PowerOf(256, 1) == 0x100 && PowerOf(256, 2) == 0x1_0000
    ensures PowerOf(256, 3) == 0x100_0000
    ensures PowerOf(2, 2) == 4 && PowerOf(2, 4) == 0x10
  {
    assert Pow(256, 1) == 256 && Pow(256, 2) == 0x1_0000;
    assert Pow(2, 1) == 2 && Pow(2, 2) == 4 && Pow(2, 3) == 8;
  }

  // The length field of a header.
  function LengthField(header: seq<byte>): nat
    requires |header| >= 8
  {
    var a: nat, b: nat, c: nat, d: nat := header[4], header[5], header[6], header[7];
    a * 0x100_0000 + b * 0x1_0000 + c * 0x100 + d
  }

  // A payload under a compression byte: as it is for 0, an lz4 block if digit 4 is set, unreadable
  // otherwise.
  lemma CompressionByte(lz4: Decoder, compression: byte, payload: seq<byte>)
    ensures Decompress(lz4, compression, payload) ==
            if compression == 0 then Some(payload) else if Bit(compression, 4) == 1 then lz4(payload) else None
  {
    SmallPowers();
  }

  // What each byte of a header does, in the order they are looked at.
  lemma HeaderDecides(lz4: Decoder, input: seq<byte>)
    ensures |input| < 8 ==> NextItem(lz4, input) == Bad(Eof)
    ensures |input| >= 8 ==>
      var size := LengthField(input);
      NextItem(lz4, input) ==
        if input[0] != 0x50 then Bad(BadMagic)
        else if input[3] >= 16 then Bad(BadIndex)
        else if |input| < 8 + size then Bad(Eof)
        else
          var content := Decompress(lz4, input[2], input[8..8 + size]);
          if input[3] > 0 then Chunk(input[3], content, 8 + size)
          else if Bit(input[1], 2) == 0 then Bad(BadEncoding)
          else if content.None? then Bad(BadCompression)
          else Main(content.value, 8 + size)
  {
    if |input| >= 8 {
      FourBytes(input[4], input[5], input[6], input[7]);
      assert input[4..8] == [input[4], input[5], input[6], input[7]];
      SmallPowers();
      hide Decompress, FromBigEndian;
    }
  }

  // One byte of payload, with its length in the last byte of the header.
  lemma OneBytePacket(lz4: Decoder)
    ensures NextItem(lz4, [0x50, 4, 0, 0, 0, 0, 0, 1, 7]) == Main([7], 9)
  {
    var input: seq<byte> := [0x50, 4, 0, 0, 0, 0, 0, 1, 7];
    HeaderDecides(lz4, input);
    SmallPowers();
    assert input[8..9] == [7];
    hide NextItem;
  }

  // ---------------------------------------------------------------- accepted packets

  lemma OneMoreKey(chunks: map<byte, seq<byte>>, index: byte, data: seq<byte>)
    requires index !in chunks && 1 <= index < MAX_CHUNK_INDEX && forall k <- chunks :: 1 <= k < MAX_CHUNK_INDEX
    ensures var more := chunks[index := data]; |more| == |chunks| + 1 && forall k <- more :: 1 <= k < MAX_CHUNK_INDEX
  {
    assert chunks[index := data].Keys == chunks.Keys + {index};
  }

  // Chunks kept so far: no more than received, and keyed 1..15.
  predicate Limited(chunks: map<byte, seq<byte>>, received: nat) {
    |chunks| <= received && forall k <- chunks :: 1 <= k < MAX_CHUNK_INDEX
  }

  // On any input whatsoever: an accepted packet has at most three chunks, keyed 1..15.
  lemma {:induction false} ChunkLimits(lz4: Decoder, input: seq<byte>, chunks: map<byte, seq<byte>>, received: nat)
    requires received < MAX_CHUNKS && Limited(chunks, received)
    ensures var r := ReadFrom(lz4, input, chunks, received); r.Got? ==> Limited(r.packet.chunks, MAX_CHUNKS - 1)
    decreases MAX_CHUNKS - received
  {
    hide NextItem, ReadFrom, Limited;
    ReadsOn(lz4, input, chunks, received);
    match NextItem(lz4, input)
    case Chunk(index, data, used) =>
      if received + 1 < MAX_CHUNKS && index !in chunks {
        OneMoreKept(chunks, index, data, received);
        ChunkLimits(lz4, input[used..], if data.None? then chunks else chunks[index := data.value], received + 1);
      }
    case Main(_, _) => StillLimited(chunks, received);
    case Bad(_) =>
  }

  lemma OneMoreKept(chunks: map<byte, seq<byte>>, index: byte, data: Option<seq<byte>>, received: nat)
    requires Limited(chunks, received) && index !in chunks && 1 <= index < MAX_CHUNK_INDEX
    ensures Limited(if data.None? then chunks else chunks[index := data.value], received + 1)
  {
    if data.Some? { OneMoreKey(chunks, index, data.value); }
  }

  lemma StillLimited(chunks: map<byte, seq<byte>>, received: nat)
    requires Limited(chunks, received) && received < MAX_CHUNKS
    ensures Limited(chunks, MAX_CHUNKS - 1)
  {
  }

  // Only a chunk makes it read on.
  lemma ReadsOn(lz4: Decoder, input: seq<byte>, chunks: map<byte, seq<byte>>, received: nat)
    requires received < MAX_CHUNKS
    ensures var r := ReadFrom(lz4, input, chunks, received);
      match NextItem(lz4, input)
      case Bad(_) => r.Failed?
      case Main(_, _) => r.Got? && r.packet.chunks == chunks
      case Chunk(index, data, used) =>
        if received + 1 >= MAX_CHUNKS || index in chunks then r.Failed?
        else r == ReadFrom(lz4, input[used..], if data.None? then chunks else chunks[index := data.value], received + 1)
  {
    hide NextItem;
  }

  // ---------------------------------------------------------------- round trips

  lemma WriteThenReadItem(lz4: Decoder, data: seq<byte>, rest: seq<byte>)
    ensures var size := |data| % 0x1_0000_0000;
      NextItem(lz4, Packet(data) + rest) == Main(data[..size], HEADER_SIZE + size)
  {
    var input := Packet(data) + rest;
    var size := |data| % 0x1_0000_0000;
    BigEndianLow(|data|, 4);
    hide ToBigEndian, FromBigEndian;
    assert input == MakeHeader(data) + (data + rest);
    assert input[4..8] == ToBigEndian(|data|, 4);
    assert input[8..] == data + rest;
    assert input[8..8 + size] == (data + rest)[..size] == data[..size];
  }

  // The length field holds the low 32 bits of the length, so exactly the payloads shorter than
  // 2^32 bytes come back whole.
  lemma WriteThenRead(lz4: Decoder, data: seq<byte>, rest: seq<byte>)
    ensures var size := |data| % 0x1_0000_0000;
      ReadPacket(lz4, Packet(data) + rest) == Got(RawPacket(data[..size], map[]), data[size..] + rest)
    ensures ReadPacket(lz4, Packet(data) + rest) == Got(RawPacket(data, map[]), rest) <==> |data| < 0x1_0000_0000
  {
    hide NextItem;
    var size := |data| % 0x1_0000_0000;
    WriteThenReadItem(lz4, data, rest);
    assert (Packet(data) + rest)[HEADER_SIZE + size..] == data[size..] + rest;
    if |data| < 0x1_0000_0000 {
      assert data[..size] == data && data[size..] + rest == rest;
    } else {
      assert |data[..size]| < |data|;
    }
  }

  // ... and 2^32 zero bytes do not.
  lemma HugePayloadIsLost(lz4: Decoder)
    ensures var data := seq(0x1_0000_0000, (_: nat) => 0 as byte);
      ReadPacket(lz4, Packet(data)) == Got(RawPacket([], map[]), data)
  {
    hide ReadPacket, Packet;
    var data := seq(0x1_0000_0000, (_: nat) => 0 as byte);
    WriteThenRead(lz4, data, []);
    assert Packet(data) + [] == Packet(data) && data[..0] == [] && data[0..] + [] == data;
  }

  function AsPackets(list: seq<seq<byte>>): seq<RawPacket> {
    seq(|list|, i requires 0 <= i < |list| => RawPacket(list[i], map[]))
  }

  lemma FirstPacket(lz4: Decoder, data: seq<byte>, rest: seq<byte>)
    requires |data| < 0x1_0000_0000
    ensures AllPackets(lz4, Packet(data) + rest) == [RawPacket(data, map[])] + AllPackets(lz4, rest)
  {
    hide ReadPacket, Packet;
    WriteThenRead(lz4, data, rest);
  }

  // A peer reading everything this client writes sees exactly the payloads, in order, and then
  // whatever follows.
  lemma {:induction false} StreamRoundTrip(lz4: Decoder, list: seq<seq<byte>>, rest: seq<byte>)
    requires forall data <- list :: |data| < 0x1_0000_0000
    ensures AllPackets(lz4, Concatenated(list) + rest) == AsPackets(list) + AllPackets(lz4, rest)
  {
    hide AllPackets, Packet;
    if list == [] {
      assert AsPackets(list) == [];
      assert Concatenated(list) + rest == rest;
    } else {
      var tail := Concatenated(list[1..]) + rest;
      assert Concatenated(list) + rest == Packet(list[0]) + tail;
      FirstPacket(lz4, list[0], tail);
      StreamRoundTrip(lz4, list[1..], rest);
      assert AsPackets(list) == [RawPacket(list[0], map[])] + AsPackets(list[1..]);
    }
  }

  // ---------------------------------------------------------------- out-of-band chunks

  // A payload as the server sends it: as it is, or marked with a compression byte.
  datatype Part = Part(index: byte, compression: byte, data: seq<byte>)

  predicate Sendable(p: Part) {
    1 <= p.index < MAX_CHUNK_INDEX && |p.data| < 0x1_0000_0000
  }

  // What the reader makes of its data; None if it cannot.
  function Content(lz4: Decoder, p: Part): Option<seq<byte>> {
    Decompress(lz4, p.compression, p.data)
  }

  function PartBytes(p: Part): seq<byte> {
    [PACKET_MAGIC, if p.index == 0 then FLAGS_YAML else 0, p.compression, p.index] + ToBigEndian(|p.data|, 4) + p.data
  }

  // The server's order: every out-of-band part, then the main packet.
  function ServerBytes(parts: seq<Part>, main: Part): seq<byte> {
    if parts == [] then PartBytes(main) else PartBytes(parts[0]) + ServerBytes(parts[1..], main)
  }

  // The readable parts by index; an unreadable one reads back as missing.
  function WithParts(lz4: Decoder, chunks: map<byte, seq<byte>>, parts: seq<Part>): map<byte, seq<byte>>
    decreases |parts|
  {
    if parts == [] then chunks else WithParts(lz4, WithPart(lz4, chunks, parts[0]), parts[1..])
  }

  function WithPart(lz4: Decoder, chunks: map<byte, seq<byte>>, p: Part): map<byte, seq<byte>> {
    if Content(lz4, p).Some? then chunks[p.index := Content(lz4, p).value] else chunks
  }

  // No part has the index of a readable one before it.
  predicate NoneTaken(lz4: Decoder, chunks: map<byte, seq<byte>>, parts: seq<Part>)
    decreases |parts|
  {
    parts != [] ==> parts[0].index !in chunks && NoneTaken(lz4, WithPart(lz4, chunks, parts[0]), parts[1..])
  }

  lemma ReadPart(lz4: Decoder, p: Part, rest: seq<byte>)
    requires p.index < MAX_CHUNK_INDEX && |p.data| < 0x1_0000_0000
    ensures NextItem(lz4, PartBytes(p) + rest) ==
            if p.index != 0 then Chunk(p.index, Content(lz4, p), |PartBytes(p)|)
            else if Content(lz4, p).Some? then Main(Content(lz4, p).value, |PartBytes(p)|)
            else Bad(BadCompression)
    ensures (PartBytes(p) + rest)[|PartBytes(p)|..] == rest
  {
    var input := PartBytes(p) + rest;
    BigEndianLow(|p.data|, 4);
    assert input[4..8] == ToBigEndian(|p.data|, 4);
    assert input[8..8 + |p.data|] == p.data;
  }

  // How many more parts are looked at.
  function Room(parts: seq<Part>, received: nat): nat
    requires received < MAX_CHUNKS
  {
    var most := MAX_CHUNKS - 1 - received;
    if |parts| < most then |parts| else most
  }

  // A packet sent with its parts is reassembled exactly when there are fewer than four of them, the
  // unreadable ones counted, and none has the index of a readable one before it. Otherwise it is
  // refused, whatever follows: for a duplicate if there is one among the first three, and for the
  // number of parts if not.
  lemma {:induction false} PartsReassembled(lz4: Decoder, parts: seq<Part>, main: Part, rest: seq<byte>,
                                            chunks: map<byte, seq<byte>>, received: nat)
    requires received < MAX_CHUNKS && (forall p <- parts :: Sendable(p))
    requires main.index == 0 && |main.data| < 0x1_0000_0000
    ensures ReadFrom(lz4, ServerBytes(parts, main) + rest, chunks, received) ==
            if !NoneTaken(lz4, chunks, parts[..Room(parts, received)]) then Failed(DuplicateChunk)
            else if received + |parts| >= MAX_CHUNKS then Failed(TooManyChunks)
            else match Content(lz4, main)
                 case None => Failed(BadCompression)
                 case Some(payload) => Got(RawPacket(payload, WithParts(lz4, chunks, parts)), rest)
    decreases |parts|
  {
    hide NextItem, PartBytes, Content;
    if parts == [] {
      ReadPart(lz4, main, rest);
    } else {
      var p, tail := parts[0], ServerBytes(parts[1..], main) + rest;
      assert ServerBytes(parts, main) + rest == PartBytes(p) + tail;
      assert p in parts;
      ReadPart(lz4, p, tail);
      var seen := parts[..Room(parts, received)];
      if received + 1 < MAX_CHUNKS {
        PartsReassembled(lz4, parts[1..], main, rest, WithPart(lz4, chunks, p), received + 1);
        assert seen[0] == p && seen[1..] == parts[1..][..Room(parts[1..], received + 1)];
      } else {
        assert seen == [];
      }
    }
  }

  // Three parts of different indices are kept and a fourth is one too many.
  lemma ThreePartsAndNoMore(lz4: Decoder, a: seq<byte>, b: seq<byte>, c: seq<byte>, fourth: Part, main: seq<byte>)
    requires |a| < 0x1_0000_0000 && |b| < 0x1_0000_0000 && |c| < 0x1_0000_0000 && |main| < 0x1_0000_0000
    requires Sendable(fourth)
    ensures var parts := [Part(1, 0, a), Part(2, 0, b), Part(15, 0, c)];
      && ReadPacket(lz4, ServerBytes(parts, Part(0, 0, main))) ==
         Got(RawPacket(main, map[1 := a, 2 := b, 15 := c]), [])
      && ReadPacket(lz4, ServerBytes(parts + [fourth], Part(0, 0, main))) == Failed(TooManyChunks)
  {
    hide ReadFrom, ServerBytes;
    var parts, p := [Part(1, 0, a), Part(2, 0, b), Part(15, 0, c)], Part(0, 0, main);
    assert ServerBytes(parts, p) + [] == ServerBytes(parts, p);
    assert ServerBytes(parts + [fourth], p) + [] == ServerBytes(parts + [fourth], p);
    PartsReassembled(lz4, parts, p, [], map[], 0);
    PartsReassembled(lz4, parts + [fourth], p, [], map[], 0);
    assert parts[..3] == parts && (parts + [fourth])[..3] == parts;
    ThreeParts(lz4, a, b, c);
  }

  lemma ThreeParts(lz4: Decoder, a: seq<byte>, b: seq<byte>, c: seq<byte>)
    ensures var parts := [Part(1, 0, a), Part(2, 0, b), Part(15, 0, c)];
      NoneTaken(lz4, map[], parts) && WithParts(lz4, map[], parts) == map[1 := a, 2 := b, 15 := c]
  {
    var parts := [Part(1, 0, a), Part(2, 0, b), Part(15, 0, c)];
    assert parts[1..] == [Part(2, 0, b), Part(15, 0, c)];
    assert parts[1..][1..] == [Part(15, 0, c)] && parts[1..][1..][1..] == [];
    assert WithPart(lz4, map[], parts[0]) == map[1 := a];
    assert WithPart(lz4, map[1 := a], parts[1]) == map[1 := a, 2 := b];
    assert WithPart(lz4, map[1 := a, 2 := b], parts[2]) == map[1 := a, 2 := b, 15 := c];
    hide WithPart;
    OnePart(lz4, map[1 := a, 2 := b], parts[2]);
    assert NoneTaken(lz4, map[1 := a], parts[1..]);
  }

  lemma OnePart(lz4: Decoder, chunks: map<byte, seq<byte>>, p: Part)
    ensures NoneTaken(lz4, chunks, [p]) == (p.index !in chunks) && WithParts(lz4, chunks, [p]) == WithPart(lz4, chunks, p)
  {
    assert [p][1..] == [];
  }
}
