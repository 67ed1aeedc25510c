/**
 A connection to the server, as the reader and writer see it: src/net/connection.rs over a plain
 stream or over a websocket (src/net/websocket.rs), with the packet reader and writer of
 src/net/io.rs on top.
 */
module Connections {
  import opened Wrappers
  import opened Bytes
  import opened Packets
  import opened WebSocket

  datatype ReadResult<+T> = Ok(value: T) | Err(error: Error)

  // XORs a buffer with the key in place, as both directions do.
  method MaskInPlace(buf: array<byte>, key: Key)
    modifies buf
    ensures buf[..] == Masked(old(buf[..]), key)
  {
    for i := 0 to buf.Length
      invariant forall j :: 0 <= j < i ==> buf[j] == Xor(old(buf[j]), key[j % 4])
      invariant forall j :: i <= j < buf.Length ==> buf[j] == old(buf[j])
    {
      buf[i] := Xor(buf[i], key[i % 4]);
    }
  }

  class Connection {
    const websocket: bool
    // the bytes that still arrive from the peer before the connection ends
    var incoming: seq<byte>
    var sent: seq<byte>
    var readBuf: seq<byte>
    var readPos: nat
    // what the packet layer wrote, before any framing
    ghost var output: seq<byte>
    // the websocket frames written, the ones the peer sends, and how many of those were parsed
    ghost var log: seq<Sent>
    ghost const frames: seq<Frame>
    ghost var parsed: nat
    ghost var failed: bool

    // What a peer reads of what was written, once its own framing is undone.
    ghost function Written(): seq<byte>
      reads `sent
    {
      if websocket then DataBytes(Frames(sent)) else sent
    }

    // On a websocket, what was written is exactly the logged frames, each of them masked.
    ghost predicate Framed()
      reads `log, `sent
    {
      (forall s <- log :: Encodable(s.frame) && s.mask.Some?) && (websocket ==> sent == Wire(log))
    }

    // Each ping parsed so far got one pong with its payload, in order.
    ghost predicate Answered()
      reads `log, `parsed
    {
      parsed <= |frames| && Pongs(FramesOf(log)) == Pings(frames[..parsed])
    }

    ghost predicate Valid()
      reads this
    {
      && readPos <= |readBuf| && Framed() && Answered() && Written() == output
      && (websocket && !failed ==> Frames(incoming) == frames[parsed..])
    }

    // Everything the packet layer can still read.
    ghost function Stream(): seq<byte>
      reads `incoming, `readBuf, `readPos
    {
      if websocket then (if readPos <= |readBuf| then readBuf[readPos..] else []) + Deliver(Frames(incoming), [])
      else incoming
    }

    // Why reading will stop if it goes on to the end of the stream, and the frames parsed by then.
    ghost function Ending(): End
      reads `incoming, `parsed
    {
      if websocket then
        var stop := Stop(Frames(incoming), false);
        End(stop.error, parsed + stop.taken)
      else End(Eof, parsed)
    }

    constructor (websocket: bool, incoming: seq<byte>)
      ensures Valid() && !failed && output == sent == [] && parsed == 0
      ensures this.websocket == websocket && this.incoming == incoming && frames == Frames(incoming)
      ensures Stream() == if websocket then Deliver(Frames(incoming), []) else incoming
    {
      this.websocket, this.incoming := websocket, incoming;
      sent, readBuf, readPos := [], [], 0;
      output, log, parsed, failed := [], [], 0, false;
      frames := Frames(incoming);
    }

    // One read of the underlying stream: it may be short, and is empty only at the end.
    method RawRead(n: nat) returns (data: seq<byte>)
      requires n > 0
      modifies this`incoming
      ensures |data| <= n && data + incoming == old(incoming)
      ensures data == [] ==> old(incoming) == []
    {
      var limit := if n < |incoming| then n else |incoming|;
      if limit == 0 { return []; }
      var count: nat :| 1 <= count <= limit;
      data := incoming[..count];
      incoming := incoming[count..];
    }

    method RawReadExact(n: nat) returns (ok: bool, data: seq<byte>)
      modifies this`incoming
      ensures ok <==> n <= |old(incoming)|
      ensures ok ==> data == old(incoming)[..n] && incoming == old(incoming)[n..]
    {
      data := [];
      while |data| < n
        invariant |data| <= n && data + incoming == old(incoming)
      {
        var more := RawRead(n - |data|);
        if more == [] { return false, data; }
        data := data + more;
      }
      ok := true;
    }

    method ReadHead() returns (h: Head)
      modifies this`incoming
      ensures match ParseHead(old(incoming))
              case Head(flags, masked, len, rest) => h == Head(flags, masked, len, rest) && incoming == rest
              case NoHead => h == NoHead
    {
      hide FromBigEndian;
      var ok, header := RawReadExact(2);
      if !ok { return NoHead; }
      var len: nat := header[1] % 128;
      var ext := ExtendedSize(len);
      if ext > 0 {
        var bytes;
        ok, bytes := RawReadExact(ext);
        if !ok { return NoHead; }
        assert bytes == old(incoming)[2..2 + ext];
        len := FromBigEndian(bytes);
      }
      h := Head(header[0], header[1] >= 128, len, incoming);
    }

    method ReadFrame() returns (r: Option<Frame>)
      modifies this`incoming
      ensures match ParseFrame(old(incoming))
              case Whole(frame, rest) => r == Some(frame) && incoming == rest
              case Truncated => r == None
    {
      hide Masked, ParseHead;
      var h := ReadHead();
      if h.NoHead? { return None; }
      var ok, key, payload;
      key := [];
      if h.masked {
        ok, key := RawReadExact(4);
        if !ok { return None; }
      }
      ok, payload := RawReadExact(h.len);
      if !ok { return None; }
      assert payload == h.rest[|key|..|key| + h.len] && incoming == h.rest[|key| + h.len..];
      if h.masked {
        var buf := new byte[|payload|](i requires 0 <= i < |payload| => payload[i]);
        assert buf[..] == payload;
        MaskInPlace(buf, key);
        payload := buf[..];
      }
      r := Some(Frame(h.flags >= 128, h.flags % 16, payload));
    }

    // Writes one masked, unfragmented frame under a fresh key.
    method SendFrame(opcode: Opcode, payload: seq<byte>)
      requires Framed() && websocket && |payload| < 0x1_0000_0000_0000_0000
      requires opcode == PONG || opcode == BINARY
      modifies `sent, `log
      ensures Framed() && Written() == old(Written()) + if opcode == BINARY then payload else []
      ensures FramesOf(log) == FramesOf(old(log)) + [Frame(true, opcode, payload)]
      // one frame under some key, as section 5.3 of RFC 6455 asks of a client
      ensures |log| == |old(log)| + 1 && log[..|old(log)|] == old(log) && log[|old(log)|].mask.Some?
      ensures sent == old(sent) + EncodeFrame(Frame(true, opcode, payload), log[|old(log)|].mask)
    {
      hide EncodeFrame, Masked, ToBigEndian, Frames, DataBytes, FramesOf;
      var key: Key := *;
      var (len7, ext) := LengthForm(|payload|);
      var buf := new byte[|payload|](i requires 0 <= i < |payload| => payload[i]);
      assert buf[..] == payload;
      MaskInPlace(buf, key);
      var flags: byte, size: byte := 128 + opcode, 128 + len7;
      var bytes := [flags, size] + ext + key + buf[..];
      ghost var frame := Frame(true, opcode, payload);
      Encoded(frame, key, bytes);
      Recorded(log, Sent(frame, Some(key)));
      sent := sent + bytes;
      log := log + [Sent(frame, Some(key))];
    }

    // One frame, answered at once if it is a ping.
    method TakeFrame() returns (r: Option<Frame>)
      requires Valid() && websocket && !failed
      modifies `incoming, `sent, `log, `parsed, `failed
      ensures Valid() && output == old(output)
      ensures var p := ParseFrame(old(incoming));
        if p.Truncated? then r == None && failed && parsed == old(parsed)
        else r == Some(p.frame) && incoming == p.rest && !failed && parsed == old(parsed) + 1
    {
      hide ParseFrame, Framed, Written, Pings, Pongs, FramesOf;
      NextFrame(incoming, []);
      r := ReadFrame();
      if r == None {
        failed := true;
        return;
      }
      var frame := r.value;
      assert frames[parsed..] == [frame] + Frames(incoming);
      assert frames[..parsed + 1] == frames[..parsed] + [frame];
      assert frames[parsed + 1..] == frames[parsed..][1..];
      PingsAppend(frames[..parsed], frame);
      if frame.opcode == PING {
        PingsAppend(FramesOf(log), Frame(true, PONG, frame.payload));
        SendFrame(PONG, frame.payload);
      }
      parsed := parsed + 1;
    }

    // Reads one whole message into the buffer, answering pings on the way.
    method FillBuffer() returns (r: ReadResult<()>)
      requires Valid() && websocket && !failed && readPos == |readBuf|
      modifies `incoming, `sent, `log, `parsed, `readBuf, `readPos, `failed
      ensures Valid() && output == old(output)
      ensures match r
              case Ok(_) =>
                && !failed && readPos == 0 && |incoming| < |old(incoming)|
                && Deliver(Frames(old(incoming)), []) ==
                   (if readBuf == [] then [] else readBuf + Deliver(Frames(incoming), []))
                && old(Ending()) == (if readBuf == [] then End(Eof, parsed) else Ending())
              case Err(error) =>
                failed && Deliver(Frames(old(incoming)), []) == [] && old(Ending()) == End(error, parsed)
    {
      hide ParseFrame, Frames, Deliver, Stop, Framed, Answered, Written;
      var message := [];
      while true
        invariant Valid() && !failed && readPos == |readBuf| && output == old(output)
        invariant Deliver(Frames(old(incoming)), []) == Deliver(Frames(incoming), message)
        invariant var stop := Stop(Frames(incoming), message != []);
          old(Ending()) == End(stop.error, parsed + stop.taken)
        invariant |incoming| <= |old(incoming)|
        decreases |incoming|
      {
        NextFrame(incoming, message);
        var next := TakeFrame();
        if next == None { return Err(Eof); }
        var frame := next.value;
        if frame.opcode == PING || frame.opcode == PONG {
        } else if frame.opcode == CLOSE {
          failed := true;
          return Err(Aborted);
        } else if IsData(frame) {
          message := message + frame.payload;
          if frame.fin {
            readBuf, readPos := message, 0;
            return Ok(());
          }
        } else {
          failed := true;
          return Err(BadOpcode);
        }
      }
    }

    // One read at the packet layer's level: short reads are allowed, no bytes means the end.
    method Read(n: nat) returns (r: ReadResult<seq<byte>>)
      requires Valid() && !failed && n > 0
      modifies `incoming, `sent, `log, `parsed, `readBuf, `readPos, `failed
      ensures Valid() && output == old(output)
      ensures match r
              case Ok(data) =>
                && |data| <= n && !failed
                && (if data == [] then old(Stream()) == [] else data + Stream() == old(Stream()))
                && old(Ending()) == if data == [] then End(Eof, parsed) else Ending()
              case Err(error) => failed && old(Stream()) == [] && old(Ending()) == End(error, parsed)
    {
      hide Frames, Deliver, Stop, Framed, Answered;
      if websocket {
        r := ReadMessage(n);
      } else {
        var data := RawRead(n);
        r := Ok(data);
      }
    }

    method ReadMessage(n: nat) returns (r: ReadResult<seq<byte>>)
      requires Valid() && !failed && n > 0 && websocket
      modifies `incoming, `sent, `log, `parsed, `readBuf, `readPos, `failed
      ensures Valid() && output == old(output)
      ensures match r
              case Ok(data) =>
                && |data| <= n && !failed
                && (if data == [] then old(Stream()) == [] else data + Stream() == old(Stream()))
                && old(Ending()) == if data == [] then End(Eof, parsed) else Ending()
              case Err(error) => failed && old(Stream()) == [] && old(Ending()) == End(error, parsed)
    {
      hide Valid, Stream, Ending;
      var filled := FillIfDrained();
      if filled.Err? { return Err(filled.error); }
      var data := TakeBuffered(n);
      r := Ok(data);
    }

    // Copies what is buffered, as far as there is room.
    method TakeBuffered(n: nat) returns (data: seq<byte>)
      requires Valid() && n > 0 && websocket
      modifies `readPos
      ensures Valid() && |data| <= n && (data == [] <==> old(readPos) == |readBuf|)
      ensures data + Stream() == old(Stream()) && Ending() == old(Ending())
    {
      hide Frames, Deliver, Stop, Framed, Answered, Written;
      var available := |readBuf| - readPos;
      var count := if available < n then available else n;
      data := readBuf[readPos..readPos + count];
      Advance(readBuf, readPos, count, Deliver(Frames(incoming), []));
      readPos := readPos + count;
    }

    method FillIfDrained() returns (r: ReadResult<()>)
      requires Valid() && !failed && websocket
      modifies `incoming, `sent, `log, `parsed, `readBuf, `readPos, `failed
      ensures Valid() && output == old(output)
      ensures match r
              case Ok(_) =>
                && !failed
                && (if readPos == |readBuf| then old(Stream()) == [] else Stream() == old(Stream()))
                && old(Ending()) == if readPos == |readBuf| then End(Eof, parsed) else Ending()
              case Err(error) => failed && old(Stream()) == [] && old(Ending()) == End(error, parsed)
    {
      hide Frames, Deliver, Stop, Framed, Answered, Written;
      r := Ok(());
      if readPos >= |readBuf| {
        assert Stream() == Deliver(Frames(incoming), []);
        r := FillBuffer();
        assert r.Ok? ==> readBuf[readPos..] == readBuf;
      }
    }

    method ReadExact(n: nat) returns (r: ReadResult<seq<byte>>)
      requires Valid() && !failed
      modifies `incoming, `sent, `log, `parsed, `readBuf, `readPos, `failed
      ensures Valid() && output == old(output)
      ensures match r
              case Ok(data) =>
                && !failed && n <= |old(Stream())| && data == old(Stream())[..n]
                && Stream() == old(Stream())[n..] && Ending() == old(Ending())
              case Err(error) => failed && |old(Stream())| < n && old(Ending()) == End(error, parsed)
    {
      hide Valid, Stream, Ending;
      var data := [];
      while |data| < n
        invariant Valid() && !failed && output == old(output)
        invariant |data| <= n && data + Stream() == old(Stream()) && Ending() == old(Ending())
      {
        assert |old(Stream())| == |data| + |Stream()|;
        var more := Read(n - |data|);
        if more.Err? { return Err(more.error); }
        if more.value == [] {
          Fail();
          return Err(Eof);
        }
        Regrouped(data, more.value, Stream());
        data := data + more.value;
      }
      Split(data, Stream());
      r := Ok(data);
    }

    // The reader gives up: nothing more is read from this connection.
    ghost method Fail()
      requires Valid()
      modifies `failed
      ensures Valid() && failed
    {
      failed := true;
    }

    // One header and payload of the packet loop.
    method ReadItem(lz4: Decoder) returns (r: ReadResult<Item>)
      requires Valid() && !failed
      modifies `incoming, `sent, `log, `parsed, `readBuf, `readPos, `failed
      ensures Valid() && output == old(output)
      ensures var item := NextItem(lz4, old(Stream()));
        if !item.Bad? then
          r == Ok(item) && Stream() == old(Stream())[item.used..] && Ending() == old(Ending()) && !failed
        else if item.error == Eof then r.Err? && old(Ending()) == End(r.error, parsed)
        else r == Err(item.error)
    {
      hide Valid, Stream, Ending, FromBigEndian;
      var read := ReadExact(HEADER_SIZE);
      if read.Err? { return Err(read.error); }
      var header := read.value;
      if header[0] != PACKET_MAGIC { return Err(BadMagic); }
      if header[3] >= MAX_CHUNK_INDEX { return Err(BadIndex); }
      assert header[4..8] == old(Stream())[4..8];
      var size := FromBigEndian(header[4..8]);
      read := ReadExact(size);
      if read.Err? { return Err(read.error); }
      assert read.value == old(Stream())[HEADER_SIZE..HEADER_SIZE + size];
      var data := Decompress(lz4, header[2], read.value);
      assert Stream() == old(Stream())[HEADER_SIZE + size..];
      if header[3] != 0 { return Ok(Chunk(header[3], data, HEADER_SIZE + size)); }
      if !HasFlag(header[1], FLAGS_YAML) { return Err(BadEncoding); }
      if data.None? { return Err(BadCompression); }
      r := Ok(Main(data.value, HEADER_SIZE + size));
    }

    // `read_packet`: one packet, or the reason there is none.
    method ReadPacket(lz4: Decoder) returns (r: ReadResult<RawPacket>)
      requires Valid() && !failed
      modifies `incoming, `sent, `log, `parsed, `readBuf, `readPos, `failed
      ensures Valid() && output == old(output)
      ensures match Packets.ReadPacket(lz4, old(Stream()))
              case Got(packet, rest) => r == Ok(packet) && Stream() == rest && Ending() == old(Ending()) && !failed
              case Failed(Eof) => r.Err? && old(Ending()) == End(r.error, parsed)
              case Failed(error) => r == Err(error)
    {
      hide Valid, Stream, Ending, NextItem;
      var chunks: map<byte, seq<byte>> := map[];
      var received := 0;
      while true
        invariant Valid() && !failed && output == old(output) && received < MAX_CHUNKS
        invariant Ending() == old(Ending())
        invariant Packets.ReadPacket(lz4, old(Stream())) == ReadFrom(lz4, Stream(), chunks, received)
        decreases MAX_CHUNKS - received
      {
        var item := ReadItem(lz4);
        if item.Err? { return Err(item.error); }
        if item.value.Main? { return Ok(RawPacket(item.value.payload, chunks)); }
        received := received + 1;
        if received >= MAX_CHUNKS { return Err(TooManyChunks); }
        if item.value.index in chunks { return Err(DuplicateChunk); }
        if item.value.data.Some? {
          chunks := chunks[item.value.index := item.value.data.value];
        }
      }
    }

    // The reader thread: packets until the first failure. Run to the end of the stream, it reports
    // what ended it and has answered every ping the peer sent by then.
    method ReadLoop(lz4: Decoder) returns (packets: seq<RawPacket>, error: Error)
      requires Valid() && !failed
      modifies `incoming, `sent, `log, `parsed, `readBuf, `readPos, `failed
      ensures packets == AllPackets(lz4, old(Stream()))
      ensures Valid() && output == old(output)
      ensures var cause := LoopError(lz4, old(Stream()));
        if cause != Eof then error == cause
        else error == old(Ending()).error && parsed == old(Ending()).taken
      // whatever stopped it, every ping parsed has had its pong
      ensures parsed <= |frames| && Pongs(FramesOf(log)) == Pings(frames[..parsed])
    {
      hide Stream, Packets.ReadPacket, Ending, Written, Framed, Frames, Deliver, Pings, Pongs, FramesOf;
      packets := [];
      while true
        invariant Valid() && !failed && output == old(output)
        invariant AllPackets(lz4, old(Stream())) == packets + AllPackets(lz4, Stream())
        invariant LoopError(lz4, old(Stream())) == LoopError(lz4, Stream()) && Ending() == old(Ending())
        decreases |Stream()|
      {
        var next := ReadPacket(lz4);
        if next.Err? { return packets, next.error; }
        packets := packets + [next.value];
      }
    }

    // `write_packet`: header and payload in one write, which a websocket sends as one binary frame.
    method WritePacket(data: seq<byte>)
      requires Valid() && |data| < 0x8000_0000_0000_0000
      modifies `sent, `log, `output
      ensures Valid() && output == old(output) + Packet(data)
      ensures websocket ==> FramesOf(log) == FramesOf(old(log)) + [Frame(true, 0x2, Packet(data))]
      ensures !websocket ==> sent == old(sent) + Packet(data)
    {
      hide Frames, Deliver, DataBytes, FramesOf;
      var bytes := MakeHeader(data) + data;
      if websocket {
        PingsAppend(FramesOf(log), Frame(true, BINARY, bytes));
        SendFrame(BINARY, bytes);
      } else {
        sent := sent + bytes;
      }
      output := output + bytes;
    }
  }

  lemma Advance(buf: seq<byte>, pos: nat, count: nat, rest: seq<byte>)
    requires pos + count <= |buf|
    ensures buf[pos..] + rest == buf[pos..pos + count] + (buf[pos + count..] + rest)
  {
  }

  lemma Regrouped(a: seq<byte>, b: seq<byte>, c: seq<byte>)
    ensures a + (b + c) == (a + b) + c
  {
  }

  lemma Split(a: seq<byte>, b: seq<byte>)
    ensures (a + b)[..|a|] == a && (a + b)[|a|..] == b
  {
  }

  lemma Encoded(frame: Frame, key: Key, bytes: seq<byte>)
    requires frame.fin
    requires var (len7, ext) := LengthForm(|frame.payload|);
      bytes == [128 + frame.opcode, 128 + len7] + ext + key + Masked(frame.payload, key)
    ensures bytes == EncodeFrame(frame, Some(key))
  {
  }

  lemma Recorded(log: seq<Sent>, next: Sent)
    requires forall s <- log + [next] :: Encodable(s.frame)
    ensures Wire(log + [next]) == Wire(log) + EncodeFrame(next.frame, next.mask)
    ensures FramesOf(log + [next]) == FramesOf(log) + [next.frame]
    ensures DataBytes(Frames(Wire(log + [next]))) ==
            DataBytes(Frames(Wire(log))) + if IsData(next.frame) then next.frame.payload else []
  {
    hide EncodeFrame, ParseFrame;
    WireAppend(log, next);
    WireFrames(log, []);
    WireFrames(log + [next], []);
    NoFrames();
    assert Wire(log) + [] == Wire(log) && Wire(log + [next]) + [] == Wire(log + [next]);
    assert FramesOf(log) + [] == FramesOf(log) && FramesOf(log + [next]) + [] == FramesOf(log + [next]);
    DataAppend(FramesOf(log), next.frame);
  }

  // Two peers with the same data bytes, one plain and one framed in any lawful way without an empty
  // message before data, are read as the same packets.
  lemma SamePacketsThroughWebsocket(lz4: Decoder, sent: seq<Sent>)
    requires forall s <- sent :: Encodable(s.frame)
    requires Lawful(FramesOf(sent), false) && !EmptyThenData(FramesOf(sent), false)
    ensures AllPackets(lz4, Deliver(Frames(Wire(sent)), [])) == AllPackets(lz4, DataBytes(FramesOf(sent)))
  {
    FramingIsTransparent(sent);
  }

  // The reader thread over a peer that keeps to the protocol. When no empty message precedes data it
  // hands over the packets of the peer's data bytes. At the end of the stream it has answered the
  // pings of every frame it parsed, in order: all of them exactly when no empty message has a frame
  // after it.
  method ReadSession(lz4: Decoder, sent: seq<Sent>) returns (packets: seq<RawPacket>, error: Error, c: Connection)
    requires forall s <- sent :: Encodable(s.frame)
    requires Lawful(FramesOf(sent), false)
    ensures var data := Deliver(FramesOf(sent), []);
      && packets == AllPackets(lz4, data) && error == LoopError(lz4, data)
      && (data == DataBytes(FramesOf(sent)) <==> !EmptyThenData(FramesOf(sent), false))
    ensures var taken := Stop(FramesOf(sent), false).taken;
      && taken <= |FramesOf(sent)|
      && (error == Eof ==> Pongs(FramesOf(c.log)) == Pings(FramesOf(sent)[..taken]))
      && (taken == |FramesOf(sent)| <==> !EmptyThenFrame(FramesOf(sent), false))
  {
    hide Deliver, Frames, Stop, Lawful, EmptyThenFrame, EmptyThenData, Pings, Pongs, DataBytes, AllPackets, LoopError;
    c := new Connection(true, Wire(sent));
    SentFrames(sent);
    HeardToTheEnd(FramesOf(sent), false, false);
    FramingIsTransparent(sent);
    packets, error := c.ReadLoop(lz4);
  }

  lemma SentFrames(sent: seq<Sent>)
    requires forall s <- sent :: Encodable(s.frame)
    ensures Frames(Wire(sent)) == FramesOf(sent)
  {
    hide Frames, Wire;
    WireFrames(sent, []);
    NoFrames();
    assert Wire(sent) + [] == Wire(sent) && FramesOf(sent) + [] == FramesOf(sent);
  }

  // What this client writes, over either transport, is read back as the payloads it was given.
  lemma ClientPacketsReadBack(lz4: Decoder, list: seq<seq<byte>>)
    requires forall data <- list :: |data| < 0x1_0000_0000
    ensures AllPackets(lz4, Concatenated(list)) == AsPackets(list)
  {
    StreamRoundTrip(lz4, list, []);
    assert Concatenated(list) + [] == Concatenated(list);
    assert AsPackets(list) + AllPackets(lz4, []) == AsPackets(list);
  }
}
