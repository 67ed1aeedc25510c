/**
 WebSocket framing (src/net/websocket.rs; sections 5.2 to 5.5 of RFC 6455): one frame on the wire,
 and the byte stream that a run of frames delivers to the packet layer.
 */
module WebSocket {
  import opened Wrappers
  import opened Bytes
  import Packets

  const CONTINUATION: byte := 0x0
  const TEXT: byte := 0x1
  const BINARY: byte := 0x2
  const CLOSE: byte := 0x8
  const PING: byte := 0x9
  const PONG: byte := 0xA

  type Key = k: seq<byte> | |k| == 4 witness [0, 0, 0, 0]
  type Opcode = b: byte | b < 16

  datatype Frame = Frame(fin: bool, opcode: Opcode, payload: seq<byte>)

  datatype Parsed = Whole(frame: Frame, rest: seq<byte>) | Truncated

  // ---------------------------------------------------------------- masking

  function Masked(payload: seq<byte>, key: Key): (m: seq<byte>)
    ensures |m| == |payload|
  {
    seq(|payload|, i requires 0 <= i < |payload| => Xor(payload[i], key[i % 4]))
  }

  lemma MaskingInverse(payload: seq<byte>, key: Key)
    ensures Masked(Masked(payload, key), key) == payload
  {
    forall i | 0 <= i < |payload|
      ensures Masked(Masked(payload, key), key)[i] == payload[i]
    {
      XorInverse(payload[i], key[i % 4]);
    }
  }

  // Each digit of a masked byte is that of the payload, turned over where the key's digit is one.
  lemma MaskedDigits(payload: seq<byte>, key: Key, i: nat, k: nat)
    requires i < |payload| && k < 8
    ensures Bit(Masked(payload, key)[i], k) == 1 <==> Bit(payload[i], k) != Bit(key[i % 4], k)
  {
    XorIsExclusiveOr(payload[i], key[i % 4], k);
  }

  // ---------------------------------------------------------------- one frame

  // How many extended length bytes a 7-bit length announces.
  function ExtendedSize(len7: nat): nat {
    if len7 == 126 then 2 else if len7 == 127 then 8 else 0
  }

  // The flags and length that open a frame.
  datatype Head = Head(flags: byte, masked: bool, len: nat, rest: seq<byte>) | NoHead

  function ParseHead(w: seq<byte>): (h: Head)
    ensures h.Head? ==> |h.rest| + 2 <= |w| && h.len < 0x1_0000_0000_0000_0000
  {
    if |w| < 2 then NoHead
    else
      var len7 := w[1] % 128;
      var start := 2 + ExtendedSize(len7);
      if |w| < start then NoHead
      else
        FromBigEndianBound(w[2..start]);
        PowerValues();
        Head(w[0], w[1] >= 128, if start == 2 then len7 else FromBigEndian(w[2..start]), w[start..])
  }

  function ParseBody(h: Head): (p: Parsed)
    requires h.Head?
    ensures p.Whole? ==> |p.rest| <= |h.rest| && |p.frame.payload| == h.len
  {
    var start := if h.masked then 4 else 0;
    if |h.rest| < start || |h.rest| - start < h.len then Truncated
    else
      var body := h.rest[start..start + h.len];
      var payload := if h.masked then Masked(body, h.rest[..4]) else body;
      Whole(Frame(h.flags >= 128, h.flags % 16, payload), h.rest[start + h.len..])
  }

  function ParseFrame(w: seq<byte>): (p: Parsed)
    ensures p.Whole? ==> |p.rest| + 2 <= |w| && Encodable(p.frame)
  {
    var h := ParseHead(w);
    if h.NoHead? then Truncated else ParseBody(h)
  }

  // The shortest length form that holds `len` (section 5.2).
  function LengthForm(len: nat): (form: (nat, seq<byte>))
    ensures form.0 < 128
  {
    if len <= 125 then (len, [])
    else if len <= 0xFFFF then (126, ToBigEndian(len, 2))
    else (127, ToBigEndian(len, 8))
  }

  // A frame as a peer may send it: masked or not.
  function EncodeFrame(f: Frame, mask: Option<Key>): seq<byte> {
    var (len7, ext) := LengthForm(|f.payload|);
    [if f.fin then 128 + f.opcode else f.opcode, if mask.Some? then 128 + len7 else len7] + ext +
    match mask
    case None => f.payload
    case Some(key) => key + Masked(f.payload, key)
  }

  predicate Encodable(f: Frame) {
    |f.payload| < 0x1_0000_0000_0000_0000
  }

  lemma LengthFormRoundTrip(len: nat)
    requires len < 0x1_0000_0000_0000_0000
    ensures var (len7, ext) := LengthForm(len);
      |ext| == ExtendedSize(len7) && len == if ext == [] then len7 else FromBigEndian(ext)
  {
    hide ToBigEndian, FromBigEndian;
    BigEndianLow(len, 2);
    BigEndianLow(len, 8);
  }

  // No shorter form can carry the length.
  lemma LengthFormMinimal(len: nat, len7: nat, ext: seq<byte>)
    requires len7 < 128 && |ext| == ExtendedSize(len7) && len == if ext == [] then len7 else FromBigEndian(ext)
    ensures |LengthForm(len).1| <= |ext|
  {
    FromBigEndianBound(ext);
    PowerValues();
  }

  lemma ParseHeadRoundTrip(b0: byte, b1: byte, ext: seq<byte>, rest: seq<byte>)
    requires |ext| == ExtendedSize(b1 % 128)
    ensures ParseHead([b0, b1] + ext + rest) ==
            Head(b0, b1 >= 128, if ext == [] then b1 % 128 else FromBigEndian(ext), rest)
  {
  }

  lemma ParseBodyRoundTrip(h: Head, key: Key, body: seq<byte>, rest: seq<byte>)
    requires h.Head? && |body| == h.len && h.rest == (if h.masked then key else []) + body + rest
    ensures ParseBody(h) ==
            Whole(Frame(h.flags >= 128, h.flags % 16, if h.masked then Masked(body, key) else body), rest)
  {
  }

  lemma FrameRoundTrip(f: Frame, mask: Option<Key>, rest: seq<byte>)
    requires Encodable(f)
    ensures ParseFrame(EncodeFrame(f, mask) + rest) == Whole(f, rest)
  {
    hide ParseHead, ParseBody, Masked, FromBigEndian, ToBigEndian;
    LengthFormRoundTrip(|f.payload|);
    var (len7, ext) := LengthForm(|f.payload|);
    var b0 := if f.fin then 128 + f.opcode else f.opcode;
    var b1 := if mask.Some? then 128 + len7 else len7;
    var key: Key := if mask.Some? then mask.value else [0, 0, 0, 0];
    var body := if mask.Some? then Masked(f.payload, key) else f.payload;
    var tail := (if mask.Some? then key else []) + body + rest;
    assert EncodeFrame(f, mask) + rest == [b0, b1] + ext + tail;
    ParseHeadRoundTrip(b0, b1, ext, tail);
    MaskingInverse(f.payload, key);
    ParseBodyRoundTrip(Head(b0, mask.Some?, |f.payload|, tail), key, body, rest);
  }

  // How many bytes come before the payload or its key.
  function HeadSize(n: nat): nat {
    if n <= 125 then 2 else if n <= 0xFFFF then 4 else 10
  }

  // A frame byte by byte (section 5.2): FIN and opcode, mask bit and length, the extended length with
  // its most significant byte first, then the key and the masked payload, or the payload itself.
  lemma FrameLayout(f: Frame, mask: Option<Key>)
    requires Encodable(f)
    ensures var w, n := EncodeFrame(f, mask), |f.payload|;
      && |w| == HeadSize(n) + n + (if mask.Some? then 4 else 0)
      && w[0] == (if f.fin then 0x80 else 0) + f.opcode
      && w[1] == (if mask.Some? then 0x80 else 0) + (if n <= 125 then n else if n <= 0xFFFF then 126 else 127)
      && (125 < n <= 0xFFFF ==> w[2] == n / 0x100 && w[3] == n % 0x100)
      && (n > 0xFFFF ==> forall i :: 2 <= i < 10 ==> w[i] == n / PowerOf(256, 9 - i) % 256)
      && w[HeadSize(n)..] == (if mask.Some? then mask.value + Masked(f.payload, mask.value) else f.payload)
  {
    var w, n := EncodeFrame(f, mask), |f.payload|;
    var (len7, ext) := LengthForm(n);
    LengthBytes(n);
    hide LengthForm, Masked;
    assert w[..2 + |ext|] == w[..2] + ext;
    assert forall i :: 0 <= i < |ext| ==> w[2 + i] == ext[i];
    assert w[2 + |ext|..] == (if mask.Some? then mask.value + Masked(f.payload, mask.value) else f.payload);
  }

  lemma LengthBytes(n: nat)
    requires n < 0x1_0000_0000_0000_0000
    ensures var (len7, ext) := LengthForm(n);
      && 2 + |ext| == HeadSize(n) && len7 == (if n <= 125 then n else if n <= 0xFFFF then 126 else 127)
      && (125 < n <= 0xFFFF ==> ext[0] == n / 0x100 && ext[1] == n % 0x100)
      && (n > 0xFFFF ==> forall i :: 0 <= i < 8 ==> ext[i] == n / PowerOf(256, 7 - i) % 256)
  {
    if 125 < n <= 0xFFFF {
      Packets.SmallPowers();
      BigEndianByte(n, 2, 0);
      BigEndianByte(n, 2, 1);
    } else if n > 0xFFFF {
      forall i | 0 <= i < 8 ensures ToBigEndian(n, 8)[i] == n / PowerOf(256, 7 - i) % 256 { BigEndianByte(n, 8, i); }
    }
  }

  // ---------------------------------------------------------------- frames and the bytes they deliver

  // Every whole frame of `w`, in order.
  function Frames(w: seq<byte>): seq<Frame>
    decreases |w|
  {
    match ParseFrame(w)
    case Whole(frame, rest) => [frame] + Frames(rest)
    case Truncated => []
  }

  predicate IsData(f: Frame) {
    f.opcode in {CONTINUATION, TEXT, BINARY}
  }

  predicate IsQuiet(f: Frame) {
    f.opcode in {PING, PONG}
  }

  // The bytes a reader sees from `frames`, when `partial` of the current message has arrived. A
  // close, an unknown opcode or the end of the frames stops the stream; so does an empty message,
  // because a read of no bytes means end of file.
  function Deliver(frames: seq<Frame>, partial: seq<byte>): seq<byte>
    decreases |frames|, 0
  {
    if frames == [] then [] else AfterFrame(frames[0], frames[1..], partial)
  }

  // What a frame does to the message under way, and what is delivered after it.
  function AfterFrame(f: Frame, tail: seq<Frame>, partial: seq<byte>): seq<byte>
    decreases |tail|, 1
  {
    if IsQuiet(f) then Deliver(tail, partial)
    else if !IsData(f) then []
    else if !f.fin then Deliver(tail, partial + f.payload)
    else if partial + f.payload == [] then []
    else partial + f.payload + Deliver(tail, [])
  }

  // Why the stream stops, and how many frames are parsed by then.
  datatype End = End(error: Packets.Error, taken: nat)

  // `partial` says whether the message under way has any bytes yet.
  function Stop(frames: seq<Frame>, partial: bool): End
    decreases |frames|, 0
  {
    if frames == [] then End(Packets.Eof, 0) else StopAfter(frames[0], frames[1..], partial)
  }

  function StopAfter(f: Frame, tail: seq<Frame>, partial: bool): End
    decreases |tail|, 1
  {
    if IsQuiet(f) then Later(Stop(tail, partial))
    else if f.opcode == CLOSE then End(Packets.Aborted, 1)
    else if !IsData(f) then End(Packets.BadOpcode, 1)
    else if !f.fin then Later(Stop(tail, partial || f.payload != []))
    else if partial || f.payload != [] then Later(Stop(tail, false))
    else End(Packets.Eof, 1)
  }

  function Later(e: End): End {
    e.(taken := e.taken + 1)
  }

  lemma NextFrame(w: seq<byte>, partial: seq<byte>)
    ensures var p := ParseFrame(w);
      if p.Truncated? then
           && Frames(w) == [] && Deliver(Frames(w), partial) == []
           && Stop(Frames(w), partial != []) == End(Packets.Eof, 0)
      else
           && Frames(w) == [p.frame] + Frames(p.rest)
           && Deliver(Frames(w), partial) == AfterFrame(p.frame, Frames(p.rest), partial)
           && Stop(Frames(w), partial != []) == StopAfter(p.frame, Frames(p.rest), partial != [])
  {
    hide ParseFrame;
    var p := ParseFrame(w);
    if p.Whole? {
      assert Frames(w)[1..] == Frames(p.rest);
    }
  }

  // What each opcode does to the stream (section 5.2): continuation, text and binary add to the message
  // under way, and the last of them delivers it; ping and pong leave it alone; close and the reserved
  // opcodes end the stream.
  lemma OpcodeMeans(f: Frame, tail: seq<Frame>, partial: seq<byte>)
    ensures var frames, message := [f] + tail, partial + f.payload;
      && (f.opcode in {0x0, 0x1, 0x2} ==>
            Deliver(frames, partial) == if !f.fin then Deliver(tail, message)
                                        else if message == [] then [] else message + Deliver(tail, []))
      && (f.opcode in {0x9, 0xA} ==> Deliver(frames, partial) == Deliver(tail, partial))
      && (f.opcode == 0x8 ==> Deliver(frames, partial) == [] && Stop(frames, partial != []) == End(Packets.Aborted, 1))
      && (0x3 <= f.opcode < 0x8 || f.opcode > 0xA ==>
            Deliver(frames, partial) == [] && Stop(frames, partial != []) == End(Packets.BadOpcode, 1))
    ensures Pings([f] + tail) == (if f.opcode == 0x9 then [f.payload] else []) + Pings(tail)
    ensures Pongs([f] + tail) == (if f.opcode == 0xA then [f.payload] else []) + Pongs(tail)
  {
    assert ([f] + tail)[1..] == tail;
  }

  function Pings(frames: seq<Frame>): seq<seq<byte>> {
    if frames == [] then []
    else (if frames[0].opcode == PING then [frames[0].payload] else []) + Pings(frames[1..])
  }

  function Pongs(frames: seq<Frame>): seq<seq<byte>> {
    if frames == [] then []
    else (if frames[0].opcode == PONG then [frames[0].payload] else []) + Pongs(frames[1..])
  }

  lemma {:induction false} PingsAppend(a: seq<Frame>, f: Frame)
    ensures Pings(a + [f]) == Pings(a) + if f.opcode == PING then [f.payload] else []
    ensures Pongs(a + [f]) == Pongs(a) + if f.opcode == PONG then [f.payload] else []
  {
    if a != [] {
      PingsAppend(a[1..], f);
      assert (a + [f])[1..] == a[1..] + [f];
    }
  }

  // ---------------------------------------------------------------- what a peer sends

  datatype Sent = Sent(frame: Frame, mask: Option<Key>)

  function Wire(sent: seq<Sent>): seq<byte> {
    if sent == [] then [] else EncodeFrame(sent[0].frame, sent[0].mask) + Wire(sent[1..])
  }

  function FramesOf(sent: seq<Sent>): seq<Frame> {
    seq(|sent|, i requires 0 <= i < |sent| => sent[i].frame)
  }

  // Whatever the masks, the reader parses exactly the frames sent and then whatever follows.
  lemma {:induction false} WireFrames(sent: seq<Sent>, rest: seq<byte>)
    requires forall s <- sent :: Encodable(s.frame)
    ensures Frames(Wire(sent) + rest) == FramesOf(sent) + Frames(rest)
  {
    hide ParseFrame, EncodeFrame, Frames, FramesOf, Wire;
    FirstSent(sent, rest);
    if sent != [] {
      FirstFrame(sent[0], Wire(sent[1..]) + rest);
      WireFrames(sent[1..], rest);
      FramesRegroup([sent[0].frame], FramesOf(sent[1..]), Frames(rest));
    }
  }

  lemma FramesRegroup(a: seq<Frame>, b: seq<Frame>, c: seq<Frame>)
    ensures a + (b + c) == (a + b) + c
  {
  }

  lemma FirstSent(sent: seq<Sent>, rest: seq<byte>)
    ensures FramesOf(sent) == if sent == [] then [] else [sent[0].frame] + FramesOf(sent[1..])
    ensures Wire(sent) + rest ==
            if sent == [] then rest else EncodeFrame(sent[0].frame, sent[0].mask) + (Wire(sent[1..]) + rest)
    ensures FramesOf([]) + Frames(rest) == Frames(rest)
  {
    hide EncodeFrame, Frames;
  }

  lemma FirstFrame(s: Sent, tail: seq<byte>)
    requires Encodable(s.frame)
    ensures Frames(EncodeFrame(s.frame, s.mask) + tail) == [s.frame] + Frames(tail)
  {
    hide ParseFrame, EncodeFrame;
    FrameRoundTrip(s.frame, s.mask, tail);
  }

  lemma {:induction false} WireAppend(sent: seq<Sent>, last: Sent)
    ensures Wire(sent + [last]) == Wire(sent) + EncodeFrame(last.frame, last.mask)
    ensures FramesOf(sent + [last]) == FramesOf(sent) + [last.frame]
  {
    hide EncodeFrame, FramesOf;
    FramesAppend(sent, last);
    if sent == [] {
      assert sent + [last] == [last] && [last][1..] == [];
    } else {
      WireAppend(sent[1..], last);
      assert (sent + [last])[1..] == sent[1..] + [last];
    }
  }

  lemma FramesAppend(sent: seq<Sent>, last: Sent)
    ensures FramesOf(sent + [last]) == FramesOf(sent) + [last.frame]
  {
  }

  lemma {:induction false} DataAppend(frames: seq<Frame>, last: Frame)
    ensures DataBytes(frames + [last]) == DataBytes(frames) + if IsData(last) then last.payload else []
  {
    if frames != [] {
      DataAppend(frames[1..], last);
      assert (frames + [last])[1..] == frames[1..] + [last];
    }
  }

  // The application bytes the peer put into its data frames.
  function DataBytes(frames: seq<Frame>): seq<byte> {
    if frames == [] then []
    else (if IsData(frames[0]) then frames[0].payload else []) + DataBytes(frames[1..])
  }

  // A peer that keeps to the protocol: only data, ping and pong frames, and no message left open.
  predicate Lawful(frames: seq<Frame>, open: bool) {
    if frames == [] then !open
    else
      var f := frames[0];
      if IsQuiet(f) then Lawful(frames[1..], open)
      else IsData(f) && Lawful(frames[1..], !f.fin)
  }

  // Some message has no bytes at all, and data follows it.
  predicate EmptyThenData(frames: seq<Frame>, partial: bool) {
    if frames == [] then false
    else
      var f, tail := frames[0], frames[1..];
      if !IsData(f) then EmptyThenData(tail, partial)
      else if !f.fin then EmptyThenData(tail, partial || f.payload != [])
      else if !partial && f.payload == [] then DataBytes(tail) != []
      else EmptyThenData(tail, false)
  }

  // Some message has no bytes at all, and a frame of any kind follows it.
  predicate EmptyThenFrame(frames: seq<Frame>, partial: bool) {
    if frames == [] then false
    else
      var f, tail := frames[0], frames[1..];
      if !IsData(f) then EmptyThenFrame(tail, partial)
      else if f.fin && !partial && f.payload == [] then tail != []
      else EmptyThenFrame(tail, !f.fin && (partial || f.payload != []))
  }

  // A lawful peer is heard to its last frame exactly when no empty message has a frame after it; the
  // stream ends with end of file either way.
  lemma {:induction false} HeardToTheEnd(frames: seq<Frame>, partial: bool, open: bool)
    requires Lawful(frames, open)
    ensures Stop(frames, partial).error == Packets.Eof && Stop(frames, partial).taken <= |frames|
    ensures Stop(frames, partial).taken == |frames| <==> !EmptyThenFrame(frames, partial)
    ensures EmptyThenData(frames, partial) ==> EmptyThenFrame(frames, partial)
  {
    if frames != [] {
      var f, tail := frames[0], frames[1..];
      if IsQuiet(f) {
        HeardToTheEnd(tail, partial, open);
      } else {
        HeardToTheEnd(tail, !f.fin && (partial || f.payload != []), !f.fin);
      }
    }
  }

  // An empty message does precede data here, and the data is lost.
  lemma EmptyMessageCutsOff()
    ensures var frames := [Frame(true, BINARY, []), Frame(true, BINARY, [2])];
      Lawful(frames, false) && EmptyThenData(frames, false) && Deliver(frames, []) == [] && DataBytes(frames) == [2]
  {
    var frames := [Frame(true, BINARY, []), Frame(true, BINARY, [2])];
    assert frames[1..] == [Frame(true, BINARY, [2])] && frames[1..][1..] == [];
  }

  // Framing is transparent, however the bytes are split into messages, fragments, masked or
  // unmasked frames and interleaved control frames, exactly when no empty message precedes data.
  lemma {:induction false} DeliverIsTransparent(frames: seq<Frame>, partial: seq<byte>, open: bool)
    requires Lawful(frames, open) && (partial != [] ==> open)
    ensures Deliver(frames, partial) == partial + DataBytes(frames) <==> !EmptyThenData(frames, partial != [])
  {
    if frames != [] {
      var f, tail := frames[0], frames[1..];
      if IsQuiet(f) {
        DeliverIsTransparent(tail, partial, open);
        assert DataBytes(frames) == DataBytes(tail);
      } else if !f.fin {
        DeliverIsTransparent(tail, partial + f.payload, true);
        MessageContinues(f, tail, partial);
        assert frames == [f] + tail;
      } else {
        DeliverIsTransparent(tail, [], false);
        MessageEnds(f, tail, partial);
        assert frames == [f] + tail;
      }
    }
  }

  lemma MessageContinues(f: Frame, tail: seq<Frame>, partial: seq<byte>)
    requires IsData(f) && !f.fin
    ensures Deliver([f] + tail, partial) == Deliver(tail, partial + f.payload)
    ensures partial + DataBytes([f] + tail) == partial + f.payload + DataBytes(tail)
    ensures EmptyThenData([f] + tail, partial != []) == EmptyThenData(tail, partial + f.payload != [])
  {
  }

  lemma MessageEnds(f: Frame, tail: seq<Frame>, partial: seq<byte>)
    requires IsData(f) && f.fin
    requires Deliver(tail, []) == DataBytes(tail) <==> !EmptyThenData(tail, false)
    ensures Deliver([f] + tail, partial) == partial + DataBytes([f] + tail) <==>
            !EmptyThenData([f] + tail, partial != [])
  {
    var frames, message := [f] + tail, partial + f.payload;
    assert frames[1..] == tail;
    assert partial + DataBytes(frames) == message + DataBytes(tail);
    Cancel(message, Deliver(tail, []), DataBytes(tail));
  }

  lemma Cancel(a: seq<byte>, x: seq<byte>, y: seq<byte>)
    ensures a + x == a + y <==> x == y
  {
    assert (a + x)[|a|..] == x && (a + y)[|a|..] == y;
  }

  // End to end: the reader's byte stream is the peer's data bytes whatever frames carried them.
  lemma FramingIsTransparent(sent: seq<Sent>)
    requires forall s <- sent :: Encodable(s.frame)
    requires Lawful(FramesOf(sent), false)
    ensures Deliver(Frames(Wire(sent)), []) == DataBytes(FramesOf(sent)) <==> !EmptyThenData(FramesOf(sent), false)
  {
    hide Deliver, Frames, Wire;
    WireFrames(sent, []);
    NoFrames();
    assert Wire(sent) + [] == Wire(sent) && FramesOf(sent) + [] == FramesOf(sent);
    DeliverIsTransparent(FramesOf(sent), [], false);
    assert [] + DataBytes(FramesOf(sent)) == DataBytes(FramesOf(sent));
  }

  lemma NoFrames()
    ensures Frames([]) == []
  {
  }
}
