# Verified models of the xpra client

This project models the parts of the client whose behaviour cannot be seen from one function body, and
proves what they are meant to guarantee. Every claim is for all inputs, or for all runs of a state machine
under every interleaving of its threads. `dafny verify dfyconfig.toml` checks everything.

| file | what it models |
|---|---|
| `Wrappers.dfy`, `Ints.dfy`, `Division.dfy`, `Bytes.dfy` | optional values, machine integers, quotients, bytes, exclusive or, big-endian integers |
| `Packets.dfy`, `WebSocket.dfy`, `Connections.dfy` | the packet header and its out-of-band chunks, WebSocket framing, and the reader and writer on top of both |
| `TlsLock.dfy`, `PlainSocket.dfy` | the lock that several threads take around one TLS session, and two threads on a plain socket without one |
| `Mmap.dfy`, `Tokens.dfy`, `Ring.dfy` | the shared-memory picture area: copying an image out of it, its tokens, and the ring buffer shared with the server |
| `DrawSession.dfy`, `DrawFate.dfy`, `Window.dfy` | a draw's life between the UI thread and the decode thread, what becomes of draws that cannot be decoded, and compositing into the framebuffer |
| `Pcm.dfy`, `Jitter.dfy`, `AudioPipeline.dfy`, `AudioSession.dfy`, `AudioDelivery.dfy` | the chunked PCM queue, the adaptive target, one audio stream on the worker, the protocol between server, UI thread and worker, and what it delivers |
| `Clipboard.dfy` | the two threads that keep the clipboards in step |
| `Calendar.dfy` | the date arithmetic of log timestamps |
| `Uri.dfy`, `ShellQuote.dfy`, `Assuan.dfy` | printers and parsers that undo each other |

Imperative code is modelled as methods over arrays, loops and classes, each proved against a specification
function (`Packets.ReadPacket`, `Mmap.IsImage`, `Pcm.Faded`, `WebSocket.Deliver`, ...). What the repository
promises is then proved about those functions. Protocols between threads are state machines: `Enabled`,
`Next`, an invariant, and theorems about every run.

## Properties that hold only under a condition

Some properties the design suggests fail for some inputs. Each is proved to hold if and only if a stated
condition does, and a lemma or method at a concrete input shows that the condition can fail.

- An empty WebSocket message makes `read` return no bytes, which `read_exact` takes for the end of the file
  (`src/net/websocket.rs:159-168`). Framing is transparent if and only if no empty message precedes data
  (`WebSocket.FramingIsTransparent`, `WebSocket.EmptyMessageCutsOff`), and the peer is heard to its last frame,
  every ping answered, if and only if no empty message has a frame after it (`WebSocket.HeardToTheEnd`).
- The packet header stores the low 32 bits of the length, so a payload comes back whole if and only if it is
  shorter than 2^32 bytes (`Packets.WriteThenRead`, `Packets.HugePayloadIsLost`).
- Two threads write to a plain socket through separate handles (`src/net/websocket.rs:45-47`). Their buffers stay
  whole under every interleaving if and only if the socket takes each of them in one call, or one of the threads
  writes nothing (`PlainSocket.WholeExactlyWhenUnsplit`, `PlainSocket.PongInsidePacket`); over TLS the lock keeps
  them whole.
- The comment at `src/client/mmap.rs:19-22` wants every mmap draw released. The code releases it if and only if
  its chunk list parses and the `rgb_format` lookup does not panic: `read_mmap_draw` returns early on a bad list
  (`src/client/client.rs:384`), and the lookup indexes the options without checking for the key
  (`src/net/packet.rs:164-173`). See `Mmap.MmapArea.ReadDraw` and `Mmap.NotAlwaysReleased`.
- The decode thread is alive if and only if every draw it has started on is sound: it has its nine fields, and no
  missing format behind a chunk list that parses (`DrawFate.SoundDrawsAreNeverLost`, `DrawFate.UnsoundDraw`); after
  an unsound one, nothing behind it is ever answered (`DrawFate.DeadOnUnsoundDraw`).
- No draw is lost: however the threads go on, they come to rest, and then every draw received is answered if and
  only if every one is sound and each one still to be painted can be painted in the window it will find
  (`DrawFate.NoDrawIsLost`). A draw whose size wraps can stop the UI thread (`DrawFate.UnpaintableDraw`); draws and
  windows whose sizes do not wrap never do (`DrawFate.SmallDrawsPaint`).
- `framebuffer.len() == width * height` holds if and only if the u32 product does not wrap
  (`Window.XpraWindow.Resize`, `Window.HugeWindow`).
- The byte count check of `paint` keeps its reads inside the pixel data if and only if the usize product of
  sizes does not wrap (`Window.CheckSuffices`, `Window.FourBytesPass`).
- `discard_frames` keeps `frames` right if and only if no more is discarded than is queued
  (`Pcm.PcmBuffer.DiscardFrames`, `Pcm.DiscardTooMany`). The only caller stays within the bound.
- The lowest jitter target is the clamped sum if and only if the u32 sum at `src/client/audio.rs:461` does not
  wrap, or wraps to something the clamp still cuts to the top (`Jitter.FloorIsExact`, `Jitter.FloorMayWrap`).
- The fields of the connection dialog come back from the URI if and only if an ssh user name holds neither `/`
  nor `@` (`Uri.BuildThenParse`, `Uri.SlashInUser`).

## Model

| member | source | states |
|---|---|---|
| `Bytes.XorIsExclusiveOr` | src/net/websocket.rs:93-95 | each of the eight binary digits of the result is one exactly where those of the two bytes differ |
| `Bytes.XorInverse` | src/net/websocket.rs:93-95 | applying a mask byte twice restores the byte |
| `Bytes.BigEndianByte` | src/net/io.rs:133-136 | the byte at place `i` of `count` is the value divided by 256 to the power `count - 1 - i`: most significant first |
| `Bytes.FourBytes` | src/net/io.rs:58-62 | four bytes are read as `a * 2^24 + b * 2^16 + c * 2^8 + d` |
| `Bytes.BigEndianLow` | src/net/io.rs:133-136 | writing a length in 2, 4 or 8 bytes and reading it back gives its low 16, 32 or 64 bits |
| `Packets.HeaderBytes` | src/net/io.rs:126-138 | the eight bytes of a written header, one by one |
| `Packets.HeaderDecides` | src/net/io.rs:45-81 | what each byte of a header read does: magic, index, length, flags, in the order they are checked, with the error each gives |
| `Packets.CompressionByte` | src/net/io.rs:115-123 | digit 4 of the compression byte means lz4, zero means as it is, the rest cannot be read |
| `Packets.OneBytePacket` | src/net/io.rs:45-81 | a nine-byte input read as the one byte it carries |
| `Packets.ChunkLimits` | src/net/io.rs:84-108 | on any input, an accepted packet has at most three chunks, keyed 1 to 15 |
| `Packets.WriteThenRead` | src/net/io.rs:126-145 | a written packet is read back with exactly the rest left over, if and only if it is shorter than 2^32 bytes; longer ones lose a stated part |
| `Packets.HugePayloadIsLost` | src/net/io.rs:126-138 | 2^32 zero bytes read back as an empty packet, with the bytes left over |
| `Packets.StreamRoundTrip` | src/net/io.rs:45-145 | reading the concatenation of written packets returns exactly their payloads, in order, then whatever follows |
| `Packets.ReadPart` | src/net/io.rs:45-81 | one payload is recognised by its index, with what its compression byte makes of it |
| `Packets.PartsReassembled` | src/net/io.rs:16-110 | a packet and its parts are put together again exactly when there are fewer than four parts, unreadable ones counted, and none has the index of a readable one before it; otherwise the exact error, whatever follows |
| `Packets.ThreePartsAndNoMore` | src/net/io.rs:84-108 | three parts are kept under their own indices and a fourth is refused |
| `WebSocket.MaskedDigits` | src/net/websocket.rs:93-95 | each binary digit of a masked byte is the payload's, turned over where that of `key[i % 4]` is one (section 5.3 of RFC 6455) |
| `WebSocket.FrameLayout` | src/net/websocket.rs:76-97 | a frame byte by byte: FIN and opcode, mask bit and length, extended length, key and masked payload (section 5.2) |
| `WebSocket.MaskingInverse` | src/net/websocket.rs:93-95 | masking a payload twice with one key restores it |
| `WebSocket.LengthFormRoundTrip` | src/net/websocket.rs:79-88 | the length form read by its own rules gives the length back |
| `WebSocket.LengthFormMinimal` | src/net/websocket.rs:79-88 | no shorter form of section 5.2 of RFC 6455 carries the length |
| `WebSocket.FrameRoundTrip` | src/net/websocket.rs:76-132 | any frame, masked or not, parses to the same FIN, opcode and payload and leaves what follows |
| `WebSocket.WireFrames` | src/net/websocket.rs:76-132 | a run of frames under any masks is parsed as exactly those frames |
| `WebSocket.OpcodeMeans` | src/net/websocket.rs:133-155 | what each of the sixteen opcodes does to the stream, to the pongs owed and to how it ends |
| `WebSocket.DeliverIsTransparent` | src/net/websocket.rs:101-169 | the delivered bytes are the data bytes of the peer's frames exactly when no empty message precedes data, from any point inside a message |
| `WebSocket.FramingIsTransparent` | src/net/websocket.rs:101-169 | the same from the bytes on the wire: fragments, masks and interleaved pings make no difference |
| `WebSocket.HeardToTheEnd` | src/net/websocket.rs:101-169 | a lawful peer is parsed to its last frame exactly when no empty message has a frame after it; its stream always ends with end of file |
| `WebSocket.EmptyMessageCutsOff` | src/net/websocket.rs:158-169 | an empty message in front of one byte of data: a lawful peer, and the byte is never delivered |
| `Connections.MaskInPlace` | src/net/websocket.rs:128-131 | the in-place loop masks the whole buffer, each digit as `WebSocket.MaskedDigits` says |
| `Connections.Connection.ReadFrame` | src/net/websocket.rs:104-132 | one frame is read from a stream of short reads, consuming exactly its bytes |
| `Connections.Connection.SendFrame` | src/net/websocket.rs:76-97 | the bytes sent are the encoding of one masked frame; under any random key the peer parses one more frame, and its data bytes grow by the payload of a data frame |
| `Connections.Connection.TakeFrame` | src/net/websocket.rs:104-137 | a frame is consumed and, if it is a ping, answered at once with its payload |
| `Connections.Connection.FillBuffer` | src/net/websocket.rs:101-155 | one whole message is put in the buffer and the stream it stands for is unchanged; or the error is the one the peer's frames end with |
| `Connections.Connection.Read` | src/net/websocket.rs:158-169 | a short read returns a prefix of the stream, and nothing only at its end |
| `Connections.Connection.ReadExact` | src/net/io.rs:50-70 | succeeds exactly when the stream is long enough, and takes exactly that prefix; otherwise gives the reason the stream ended |
| `Connections.Connection.ReadItem` | src/net/io.rs:49-81 | one header and payload, with each error in the order the code checks for it |
| `Connections.Connection.ReadPacket` | src/net/io.rs:45-110 | the loop over headers computes the specified packet and leaves exactly the rest of the stream, over either transport |
| `Connections.Connection.ReadLoop` | src/client/client.rs:1009-1043 | all packets of the stream, then the first failure and its cause; whatever stops it, every ping parsed has had one pong with its payload, in order |
| `Connections.Connection.WritePacket` | src/net/io.rs:141-145 | the bytes of the packet go out, in one masked binary frame or as they are; one more packet is what a peer reads, with or without WebSocket framing |
| `Connections.SamePacketsThroughWebsocket` | src/net/io.rs:45-110 | a plain peer and a lawfully framed one with the same data bytes are read as the same packets |
| `Connections.ReadSession` | src/net/websocket.rs:101-169 | reader, framing and wire composed for any lawful peer: the packets are those of the delivered bytes, which are the peer's data bytes exactly under the stated condition; at end of file the pings answered are exactly those parsed, all of them under the other |
| `Connections.ClientPacketsReadBack` | src/net/io.rs:126-145 | what this client writes reads back as the payloads it was given |
| `TlsLock.StepKeepsInv` | src/net/tls.rs:70-98 | every step of any thread keeps the lock's owner unique and the wire equal to finished pieces plus the owner's progress |
| `TlsLock.WritersNeverInterleave` | src/net/tls.rs:62-98 | in every run the wire is a sequence of buffers followed by a prefix of the lock holder's, and one of them is cut short if and only if a write has failed |
| `TlsLock.EveryBufferOnce` | src/net/tls.rs:70-81 | each thread's buffers reach the wire once, in the order it wrote them, and at most one is still on its way |
| `TlsLock.BlockedReadLetsOthersIn` | src/net/tls.rs:83-98 | a read that would block gives the lock up, and then every thread that waits for it can have it |
| `TlsLock.BlockedWriteKeepsLock` | src/net/tls.rs:70-81 | a write that would block keeps it, and no other thread can take it |
| `TlsLock.ReturnFreesLock` | src/net/tls.rs:70-98 | a write or a read that returns, failed or not, leaves the lock free |
| `TlsLock.BufferGoesOut` | src/net/tls.rs:70-81 | whenever the lock is free, a thread puts a whole buffer on the wire through short writes and a wait, and leaves all else as it was |
| `TlsLock.Session.WriteAll` | src/net/tls.rs:70-81 | short writes and retries put exactly the buffer, or a prefix of it, on the wire |
| `PlainSocket.SplitIsCut` | src/net/websocket.rs:41-49 | whichever buffer of two threads is taken in parts, some interleaving cuts it open |
| `PlainSocket.WholeExactlyWhenUnsplit` | src/net/websocket.rs:28-49 | for any two lists of buffers, all stay whole under every interleaving exactly when each is taken in one call or one thread writes nothing |
| `PlainSocket.PongInsidePacket` | src/net/websocket.rs:41-49 | a pong inside a packet taken in two parts |
| `Mmap.LogicalAppend` | src/client/mmap.rs:364-371 | the chunks' byte stream and total length grow by one chunk's own |
| `Mmap.CopyLogical` | src/client/mmap.rs:391-408 | the destination is filled with the logical bytes from the start offset across chunk boundaries, and nothing else is written, each byte read at a moment of its own while the rest of the area may change |
| `Mmap.CheckChunks` | src/client/mmap.rs:364-371 | accepts exactly the lists with every chunk after the header and inside the area, and adds up their lengths |
| `Mmap.ImageIndices` | src/client/mmap.rs:373-382 | every index an image uses is inside the required source bytes and inside the output |
| `Mmap.ImageBytes` | src/client/mmap.rs:354-384 | with a rowstride, output byte `r * 4w + c` is byte `r * rowstride + c` of the chunks; without one it is byte `r * 4w + c` |
| `Mmap.RefusalCases` | src/client/mmap.rs:350-371 | when each refusal is given: no size, rows wider than a given rowstride, a chunk outside the area or in its control words |
| `Mmap.EnoughBytes` | src/client/mmap.rs:373-376 | then exactly `(h - 1) * rowstride + 4w` bytes are enough |
| `Mmap.SecondRow` | src/client/mmap.rs:354-384 | two rows of one pixel, eight bytes apart: the second starts at byte eight |
| `Mmap.Destride` | src/client/mmap.rs:354-384 | refuses exactly the cases of `RefusalCases` and `EnoughBytes`; otherwise the output is the image of the concatenated chunks, which `ImageBytes` gives byte by byte |
| `Mmap.ParseChunks` | src/client/mmap.rs:326-346 | accepts exactly the non-empty lists of non-negative pairs and returns the list itself |
| `Mmap.ListSource` | src/client/mmap.rs:326-346 | the list is the `chunks` entry of the options where there is one, even a bad one, and the data field otherwise |
| `Mmap.MmapArea.Release` | src/client/mmap.rs:281-290 | `data_start` becomes the end of the last chunk in 32 bits; an empty list changes nothing |
| `Mmap.HasListMeans` | src/client/mmap.rs:326-346 | the field-by-field test of a chunk list accepts exactly what lists of pairs look like |
| `Mmap.DrawRefusalCases` | src/client/client.rs:392-407 | which formats are refused, and sizes at or below zero with them |
| `Mmap.NotAlwaysReleased` | src/client/client.rs:392-399 | a draw whose list parses and whose format lookup panics, and a draw with an empty list |
| `Mmap.MmapArea.ReadDraw` | src/client/client.rs:375-407 | the pixels or the exact refusal, a panic exactly for a list that parses without a format, and the ring space given back exactly when the list parses and the lookup does not panic |
| `Tokens.WriteToken` | src/client/mmap.rs:412-418 | the token's bytes, lowest first, and no other byte of the area |
| `Tokens.ReadToken` | src/client/mmap.rs:422-438 | the specified token, or none outside the area or above 128 bits |
| `Tokens.LittleEndianByte` | src/client/mmap.rs:412-418 | the byte at place `i` is the token divided by 256 to the power `i`: least significant first |
| `Tokens.TokenRoundTrip` | src/client/mmap.rs:412-438 | a token reads back if and only if it fits in the bytes it was given |
| `Tokens.PaddedTokenReads` | src/client/mmap.rs:420-438 | a 128-bit token zero-padded to any width reads back |
| `Tokens.GenToken` | src/client/mmap.rs:214-220 | whatever the random numbers, the token lies inside the area, reads back, and spares the control words |
| `Ring.FreeAtFirst` | src/client/mmap.rs:13-22 | a fresh area: both pointers right after the control words and nothing in between |
| `Ring.BetweenMeans` | src/client/mmap.rs:13-22 | what lies between two pointers, with and without passing the end of the area |
| `Ring.DistanceAdds` | src/client/mmap.rs:13-22 | two consecutive stretches that fit on the ring make one, and do not overlap |
| `Ring.LaidSpans` | src/client/mmap.rs:13-22 | the unreleased draws lie between `data_start` and `data_end`, and their lengths add up |
| `Ring.PendingUntouched` | src/client/mmap.rs:13-22 | a server that writes only into free space changes no byte of an unreleased draw |
| `Ring.LogicalDependsOnUsed` | src/client/mmap.rs:386-408 | the bytes read for a draw depend only on the bytes its chunks cover |
| `Ring.ReleaseKeepsPointers` | src/client/mmap.rs:281-290 | the u32 stored is exact for chunks in range, and the next draw starts there |
| `Ring.StepKeeps` | src/client/client.rs:375-390 | every step of server and client keeps the ring's invariant |
| `Ring.NothingLost` | src/client/client.rs:375-390 | released and pending draws together are the draws sent, in order |
| `Ring.EveryDrawReadsItsOwnBytes` | src/client/client.rs:375-390 | in every run, every byte copied of any draw is the byte the server wrote for it, while the server writes elsewhere byte by byte |
| `Ring.FirstDrawFits` | src/client/mmap.rs:13-22 | into a fresh area goes any draw that leaves a byte free, and no larger one |
| `Ring.DrawGoesThrough` | src/client/client.rs:375-390 | any draw the server may send while none is pending is taken, read and released, and both pointers stand at its end |
| `Ring.HeldSteady` | src/client/client.rs:375-390 | while the decode thread holds a draw, no byte of it changes in any run |
| `Ring.ReadHeldDraw` | src/client/mmap.rs:349-408 | the de-striding copy run inside any session, with the server writing between its byte reads, gives an image of the bytes the server wrote for that draw, or the exact refusal |
| `DrawSession.RingDraws` | src/client/client.rs:375-390 | the draws that use the ring: there is an area, the coding is mmap, and some chunk list is what their fields parse to |
| `DrawSession.SoundDraws` | src/client/client.rs:1070-1136 | the draws the decode thread gets through: nine fields, and no list of chunks beside options without a format |
| `DrawSession.OpenMeans` | src/client/client.rs:1910-1960 | a window is open exactly when it was opened and not closed since |
| `DrawSession.DrawIsQueued` | src/client/client.rs:1231-1235 | a draw goes behind the jobs of a live decode thread |
| `DrawSession.WindowEvents` | src/client/client.rs:2268-2278 | windows open, close and change size as they are told |
| `DrawSession.EndsAreQueued` | src/client/client.rs:1208-1221 | the end of a window or a stream goes to the decode thread behind the draws before it |
| `DrawSession.QuitSetsCode` | src/client/client.rs:536-541 | the first cause of an exit sets the code and later ones change nothing |
| `DrawSession.RepliesWritten` | src/client/client.rs:990-1006 | an event that calls for a packet puts one on the wire, while there is no exit code and the write works |
| `DrawSession.ResultIsAcked` | src/client/client.rs:2351-2389 | so does every result whose painting does not stop the UI thread: the ack of that draw |
| `DrawSession.FailedWrite` | src/client/client.rs:1001-1004 | a write that fails sends nothing, sets an exit code and leaves an event that says so |
| `DrawSession.StepConserves` | src/client/client.rs:1060-1162 | each step of either thread keeps every draw in exactly one place, in order |
| `DrawSession.StepKeepsWire` | src/client/client.rs:990-1006 | once an exit code is set it never changes and nothing more is written |
| `DrawSession.StepKeepsOrder` | src/client/client.rs:384-389 | each step keeps releases of the draws `RingDraws` names ahead of acks and in the order of the draws, and one posted result per draw past the decode thread |
| `DrawSession.StepKeepsTruth` | src/client/client.rs:2351-2389 | each step keeps every ack justified by what was decoded, opened and painted before it |
| `DrawSession.RunKeepsInv` | src/client/client.rs:536-541 | all of it in every run; the first exit code wins |
| `DrawSession.ExactlyOnce` | src/client/client.rs:1060-1162 | answered, returned, decoding, queued and waiting draws are the draws received, in order; the acks on the wire are the oldest of them, and all answered ones while there is no exit code |
| `DrawFate.SoundDrawsAreNeverLost` | src/client/client.rs:1092-1136 | the decode thread is alive exactly when every draw it has started on has its fields and no missing format behind a list that parses; if all received draws do, none is stuck or refused |
| `DrawFate.NoDrawIsLost` | src/client/client.rs:1231-1240 | from any state of any run, every way of going on without anything new comes to rest within a known number of steps, whatever the decoders yield and whichever write fails; at rest every received draw is answered exactly when the process was up, all are sound, and all still to be painted fit the windows they find |
| `DrawFate.QuietComes` | src/client/client.rs:1060-1162 | there always is such a way to rest |
| `DrawFate.CodingColors` | src/client/window.rs:65-74 | which decoders yield red first, and that a result is painted where its draw said |
| `DrawFate.SmallDrawsPaint` | src/client/window.rs:56-97 | draws and windows whose sizes do not wrap can all be painted |
| `DrawFate.UnpaintableDraw` | src/client/client.rs:2363-2375 | a sound webp draw of one pixel, announced as 2^31 by 2^31, stops the UI thread |
| `DrawFate.UnsoundDraw` | src/net/packet.rs:164-173 | a complete mmap draw that is not sound |
| `DrawFate.DeadOnUnsoundDraw` | src/client/client.rs:1070-1162 | a dead decode thread died of the next draw in line, which is unsound, and in every continuation that draw and all behind it stay unanswered |
| `DrawFate.PostedOnce` | src/client/client.rs:1141-1157 | the decode thread posts one result per draw, in the order of the draws |
| `DrawSession.ReleasedInOrderBeforeAck` | src/client/client.rs:384-389 | ring space is given back in the order of the draws and once each; every ack of an mmap draw whose chunk list parses, with an area, stands behind that draw's release |
| `DrawSession.AcksTellTheTruth` | src/client/client.rs:2351-2389 | each ack on the wire reports the result the decode thread posted and whether the window was open; a draw was painted exactly when it had a frame and an open window; the results posted are those of the draws at the front, one each |
| `DrawSession.OneDraw` | src/client/client.rs:1060-1162 | a sound draw with nothing else under way: released if it uses the ring, then posted, painted if it has a frame and a window, and acknowledged with the status that says which; all of the trace and the wire |
| `Window.NoWrapCovers` | src/client/window.rs:75-84 | within i32 range a draw covers exactly its rectangle |
| `Window.LandsAt` | src/client/window.rs:76-82 | under i32 wrap-around each source line lands on one coordinate and no other |
| `Window.XpraWindow.constructor` | src/client/window.rs:34-54 | the size is at least one by one, the buffer is blank, and its length is right exactly when the u32 product does not wrap |
| `Window.XpraWindow.Resize` | src/client/window.rs:149-166 | a real change of size clears the buffer; the same size or a refused surface changes nothing |
| `Window.CheckSuffices` | src/client/window.rs:58-62 | the byte count check keeps every read inside the bytes exactly when its usize product does not wrap |
| `Window.FourBytesPass` | src/client/window.rs:58-88 | four bytes pass the check for a 2^31 by 2^31 draw, and painting it on a 2 by 1 window stops at the second pixel |
| `Window.NeverPanics` | src/client/window.rs:75-91 | painting never stops at an index out of bounds when neither product wraps |
| `Window.HugeWindow` | src/client/window.rs:36-46 | a 65536 by 65536 window has an empty framebuffer |
| `Window.XpraWindow.PixelPlace` | src/client/window.rs:88-89 | the pixel at (px, py) is framebuffer entry `py * width + px` |
| `Window.PixelColors` | src/client/window.rs:65-74 | red, green and blue of a painted pixel are named bytes of the source, in either order of the decoder |
| `Window.ResizeBlanks` | src/client/window.rs:149-166 | a new window is blank, a real change of size blanks it again, and no other resize changes a pixel |
| `Window.XpraWindow.Paint` | src/client/window.rs:56-97 | exactly the covered pixels change, each to its own converted source pixel; too few bytes change nothing; it stops at an index out of bounds exactly when some covered pixel has no bytes or no place |
| `Window.Replay` | src/client/window.rs:56-166 | any run goes on to the first paint that stops; until then the buffer is as long as the wrapped product, one entry per pixel exactly when it does not wrap, and each entry is the specified one |
| `Window.LastPaintWins` | src/client/window.rs:56-97 | a pixel shows the last complete paint covering it |
| `Window.MmapPixelsAreServerBytes` | src/client/mmap.rs:354-384 | de-striding and painting composed: pixel (x+col, y+row) shows the server's bytes at `row * stride + 4 * col` |
| `Pcm.FlatLength` | src/client/audio.rs:303-307 | the flat queue holds exactly the counted frames |
| `Pcm.AdvancedFlat` | src/client/audio.rs:354-358 | using up part of the front chunk drops that prefix of the flat queue and leaves no exhausted chunk |
| `Pcm.FlatJoin` | src/client/audio.rs:326-336 | the flat queue of a list of chunks is that of its two parts joined |
| `Pcm.FadedMeans` | src/client/audio.rs:393-413 | each sample of a faded frame is scaled by that frame's place in the fade, and the rest are left alone |
| `Pcm.HeldMeans` | src/client/audio.rs:354-358 | a chunk holds its samples from its own offset on |
| `Pcm.CappedMeans` | src/client/audio.rs:364-374 | 24000 frames are left alone; of more, the newest 24000 stay and their first 240 are faded in |
| `Pcm.FadedSplits` | src/client/audio.rs:393-413 | fading two stretches one after the other is fading them as one |
| `Pcm.PcmBuffer.constructor` | src/client/audio.rs:310-316 | an empty queue with at least one channel |
| `Pcm.PcmBuffer.Push` | src/client/audio.rs:326-336 | the flat queue grows by the whole frames pushed |
| `Pcm.PcmBuffer.PopInto` | src/client/audio.rs:338-362 | exactly the flat prefix is copied out and removed, whatever the chunk boundaries; the rest of the destination is untouched |
| `Pcm.PcmBuffer.DiscardFrames` | src/client/audio.rs:376-391 | drops the flat prefix when it is queued; past that the queue is empty and the wrapping count is what could not be dropped |
| `Pcm.DiscardTooMany` | src/client/audio.rs:376-391 | two frames discarded from a queue of one leave it empty with a count of one |
| `Pcm.PcmBuffer.FadeIn` | src/client/audio.rs:393-413 | fading chunk by chunk is fading the flat queue by frame position |
| `Pcm.PcmBuffer.EnforceHardCap` | src/client/audio.rs:364-374 | at most 24000 frames stay, they are the newest, and the new head is faded in only if some were dropped |
| `Jitter.PercentileIsP95` | src/client/audio.rs:470-478 | an element of the window with at least 95% of the samples not above it, and no higher rank than that |
| `Jitter.FloorIsExact` | src/client/audio.rs:461 | the floor is the clamped sum exactly when the u32 sum does not wrap harmfully |
| `Jitter.FloorMayWrap` | src/client/audio.rs:461 | one jitter sample of 2^31 ms puts the floor at the bottom instead of the top |
| `Jitter.FloorMeans` | src/client/audio.rs:461 | without a wrap, 80 and twice the percentile, cut to 400, with two examples |
| `Jitter.SampleMeans` | src/client/audio.rs:440-450 | a sample is how far the time between two packets is from the packet's duration, either way; a clock that went back counts as no time |
| `Jitter.AdaptiveJitter.ObservePacket` | src/client/audio.rs:440-450 | one sample per packet after the first; the window is the newest 256 |
| `Jitter.AdaptiveJitter.Underrun` | src/client/audio.rs:452-455 | the target rises by 40 up to 400 and the stable period restarts |
| `Jitter.AdaptiveJitter.UpdateStable` | src/client/audio.rs:457-468 | the target falls by at most 10 and never below the floor, and only after 30 stable seconds |
| `Jitter.AdaptiveJitter.LoweredRarely` | src/client/audio.rs:457-468 | over the whole life of the controller any two falls are 30 seconds apart, so they number at most one per 30 seconds |
| `Jitter.RateFollowsQueue` | src/client/audio.rs:480-488 | in f32 arithmetic, for any rounding that keeps order: the rate is monotone in the queue, exactly one within 20 ms of the target, and within the half percent it reaches from 100 ms on |
| `Jitter.ExactRate` | src/client/audio.rs:480-488 | without rounding it is one only there, at its limits only from 100 ms on, and a straight line in between |
| `AudioPipeline.KeptFrames` | src/client/windows_audio.rs:491-496 | skipping whole frames leaves the other whole frames |
| `AudioPipeline.KeptMeans` | src/client/windows_audio.rs:491-496 | what stays of a packet is the slice from the end of the pre-skip to its last whole frame |
| `AudioPipeline.WhenItPlays` | src/client/windows_audio.rs:599-622 | with a device that answers: playing starts once the queue holds the target, stops when it cannot fill the room, and how many frames each turn takes |
| `AudioPipeline.Pipeline.constructor` | src/client/windows_audio.rs:560-571 | a stream starts with nothing decoded or queued and its whole pre-skip ahead |
| `AudioPipeline.Pipeline.DecodePacket` | src/client/windows_audio.rs:573-597 | the queue becomes the capped queue with the packet's frames after the pre-skip, and every frame is accounted for; a decoder failure leaves the queue as it is |
| `AudioPipeline.Pipeline.SkipsExactly` | src/client/windows_audio.rs:491-496 | the pre-skip takes the first frames of the stream and no others (section 4.2 of RFC 7845); decoded = skipped + dropped + played + queued |
| `AudioPipeline.Pipeline.WriteFrames` | src/client/windows_audio.rs:769-789 | a device buffer gets the oldest frames, then silence only if they run out; frames are taken exactly when the buffer locks |
| `AudioPipeline.Pipeline.ServiceOutput` | src/client/windows_audio.rs:599-622 | whatever the device answers, what is taken is the head of the queue with no silence mixed in; exactly when it plays on, when the turn succeeds, and the rate asked for |
| `AudioPipeline.Pipeline.Turn` | src/client/windows_audio.rs:287-315 | the target may fall first; the worker goes on exactly when the turn succeeded or a lost device was rebuilt, which is then silent with its queue kept |
| `AudioSession.QueueAppend` | src/client/windows_audio.rs:236-285 | what queueing one command does to the pipeline the worker ends with, and to whether every packet decodes |
| `AudioSession.StepKeeps` | src/client/client.rs:1591-1817 | every handler and every worker command keeps the protocol's invariant, and the sequence never goes back |
| `AudioSession.EveryPacketDecodes` | src/client/windows_audio.rs:261-276 | in every run the next packet finds a pipeline configured for its own sequence: the two dropping branches are dead |
| `AudioDelivery.EverythingWantedIsQueued` | src/client/client.rs:1610-1740 | over every run in which the worker keeps up, the commands given to it are exactly those its packets call for, in order |
| `AudioDelivery.TakenInOrder` | src/client/windows_audio.rs:236-285 | what the worker took, followed by what is queued, is what it was given, in order |
| `AudioDelivery.DataDelivers` | src/client/client.rs:1610-1740 | one packet that is heard appends exactly the commands it calls for |
| `AudioDelivery.StreamIsQueued` | src/client/client.rs:1610-1740 | a stream from start to end, with room for it: the worker is given a reset and the header, every payload in order, and the end, and the next sequence is up |
| `AudioDelivery.PayloadIsQueued` | src/client/client.rs:1697-1740 | a payload behind a header is queued under the current sequence |
| `AudioDelivery.StartIsQueued` | src/client/client.rs:1610-1724 | a start with header and payload queues reset, configure and packet of the new sequence |
| `AudioDelivery.EndIsQueued` | src/client/client.rs:1657-1670 | an end of stream queues the end of the current sequence |
| `AudioDelivery.FullQueue` | src/client/client.rs:1743-1769 | a payload that finds 96 commands queued is dropped and nothing else changes; a start, an end, another codec or a header that does gives up the worker |
| `AudioDelivery.DeadWorker` | src/client/client.rs:1743-1769 | a worker that has died is given up at the next command for it |
| `AudioDelivery.HandshakeStarts` | src/client/client.rs:1591-1607 | a server that asks gets capabilities and start, once each, and the sync packet if it asked for that |
| `AudioDelivery.LatencyReports` | src/client/client.rs:1777-1784 | a latency is reported exactly when it is 40 ms or more from the last one reported, or is the first |
| `AudioDelivery.WorkerCommands` | src/client/windows_audio.rs:236-285 | what each command does to whether a packet decodes |
| `AudioSession.AnnouncementsRise` | src/client/audio.rs:287-292 | each new-sequence packet exceeds every sequence used or sent before it, short of the u64 limit |
| `AudioSession.StopsAreAnnounced` | src/client/client.rs:1787-1817 | each stop packet is followed at once by the next sequence unless the exit cuts it off, and a new sequence is sent only after a stop or an end of stream |
| `AudioSession.DisableSilences` | src/client/client.rs:1805-1817 | in every run, from the moment the worker is given up the log never grows and the queue never lengthens |
| `AudioSession.SilenceLasts` | src/client/client.rs:1610-1817 | a state without worker and negotiation stays so and adds nothing to the log or the queue |
| `Clipboard.StepKeeps` | src/client/clipboard.rs:48-86 | every step of either thread or of a local program keeps what is sent, queued or about to be noticed among the local copies |
| `Clipboard.WithinWithout` | src/client/client.rs:1872-1882 | dropping a queued change keeps the rest in order among the copies |
| `Clipboard.NoFeedback` | src/client/client.rs:1872-1908 | in every run the clipboard-data packets are, in order, texts local programs copied, each copy at most once |
| `Clipboard.CopyIsForwarded` | src/client/clipboard.rs:61-69 | from a quiet state a local copy is reported with the next tick and sent with the next event exactly when neither thread has it as its last text |
| `Clipboard.RemoteTextArrives` | src/client/client.rs:1826-1908 | from a quiet state a text from the server reaches the clipboard exactly when sync is on and it is not empty, and is not sent back |
| `Calendar.YearOfEraFits` | src/client/remote_logging.rs:130-132 | the branch-free formula finds the year whose span holds the day, the last day of an era included |
| `Calendar.Located` | src/client/remote_logging.rs:128-138 | the date is that of the March year and day in it that counting years gives |
| `Calendar.CivilIsValid` | src/client/remote_logging.rs:127-138 | the result is a valid Gregorian date for every integer |
| `Calendar.CivilNextDay` | src/client/remote_logging.rs:127-138 | the next day number gives the calendar successor, negative days included |
| `Calendar.DayNumberNext` | src/client/remote_logging.rs:123-126 | counting days one at a time adds one per calendar day, the reference calendar's own law |
| `Calendar.CountingUndoesCivil` | src/client/remote_logging.rs:127-138 | counting days to the computed date gives the day number back |
| `Calendar.CivilUndoesCounting` | src/client/remote_logging.rs:127-138 | every valid date is reached from its own count: the two maps are inverse bijections |
| `Calendar.CivilPreservesOrder` | src/client/remote_logging.rs:127-138 | earlier days give earlier dates, and only they do |
| `Calendar.TimestampRoundTrip` | src/client/remote_logging.rs:109-121 | the printed fields are in range and determine the second they came from |
| `Uri.WithoutScheme` | src/net/uri.rs:27-43 | a bare absolute path is a socket, and any other target without a scheme a plain tcp address |
| `Uri.SocketTarget` | src/net/uri.rs:48-65 | a socket scheme needs an absolute path, with the two errors otherwise |
| `Uri.RefusedTargets` | src/net/uri.rs:67-87 | which targets have no host and which an unknown scheme |
| `Uri.SchemeWords` | src/net/uri.rs:75-87 | schemes are told by their letters, whatever their case |
| `Uri.SshTargets` | src/net/uri.rs:93-104 | ssh without a port goes to 22, and what follows the slash is the display |
| `Uri.ParseWhole` | src/net/uri.rs:27-105 | a built URI parses to the scheme, address, path and user that were meant |
| `Uri.BuildThenParse` | src/client/connect_dialog.rs:666-680 | it does so exactly when an ssh user name has neither slash nor at sign |
| `Uri.SlashInUser` | src/client/connect_dialog.rs:676-679 | the user "a/b" on host "h" parses as the host "a" with the rest as its path |
| `Uri.AddressSplits` | src/net/uri.rs:152-157 | `host_only` of the address is the bracketed host, and the rest is the port |
| `Uri.TrimMeans` | src/client/connect_dialog.rs:633-661 | white space around a field does not count, and white space alone is nothing |
| `Uri.PortNumbers` | src/client/connect_dialog.rs:633-661 | a port is read back from its digits up to 65535 and no further, and nothing else is a number |
| `Uri.BuiltText` | src/client/connect_dialog.rs:666-685 | the URI text for every kind of target, with brackets around a host that has a colon |
| `Uri.ConnectDialog.Submit` | src/client/connect_dialog.rs:633-661 | connects exactly for an allowed host and a port of 1 to 65535, with a URI that stands for the fields; otherwise names the field at fault |
| `ShellQuote.QuotedIsLiteral` | src/net/ssh.rs:62-64 | anywhere on a line a quoted string is read as exactly its text, added to the word under way (section 2.2.2 of the POSIX Shell Command Language) |
| `ShellQuote.QuotedIsOneWord` | src/net/ssh.rs:62-64 | alone it is one word, for every string |
| `ShellQuote.OuterCommand` | src/net/ssh.rs:56-60 | the login shell sees `sh`, `-c` and the whole script as one argument |
| `ShellQuote.InnerScript` | src/net/ssh.rs:56-60 | in that script the display is one argument of the proxy command, and the words around it are the same for every display |
| `ShellQuote.CommandText` | src/net/ssh.rs:56-64 | the text of the whole command: the script in single quotes, and the display, if any, in its own inside it |
| `ShellQuote.GuardText` | src/net/ssh.rs:56-60 | the script up to the proxy command, spelled out |
| `ShellQuote.FallbackText` | src/net/ssh.rs:56-60 | the script behind it, spelled out |
| `Assuan.Escape` | src/client/pinentry.rs:143-154 | the loop computes the specified escaping |
| `Assuan.Unescape` | src/client/pinentry.rs:157-175 | the index loop computes the specified decoding, incomplete escapes included |
| `Assuan.EscapeTable` | src/client/pinentry.rs:143-154 | the three bytes that are escaped and what they become; every other byte is itself |
| `Assuan.HexDigits` | src/client/pinentry.rs:157-175 | two hex digits in either case after a percent sign are one byte, and a percent sign at the end is itself |
| `Assuan.EscapeUndone` | src/client/pinentry.rs:143-175 | decoding undoes escaping for every text |
| `Assuan.OneLine` | src/client/pinentry.rs:142-154 | an escaped text has no carriage return or line feed |
| `Assuan.UnchangedExactlyWhenPlain` | src/client/pinentry.rs:142-154 | it is the text itself exactly when nothing needed escaping |

## How the environment is modelled

- The random mask key, token numbers and short-read lengths are arbitrary values; codecs, lz4, the Opus decoder,
  the f32 fade gain, the f32 rounding of the playback rate and the audio device's answers are parameters.
- The xpra server appears as an environment that keeps the rule at `src/client/mmap.rs:13-22` and sends its
  draws in order; the WebSocket peer may send any frames unless a theorem asks for lawful ones.
- The mapping starts zero-filled; the server reads a pointer into the two control words as the first byte after
  them.
- In `Connections` the client's frames reach the socket whole. Over TLS `TlsLock` proves it; on a plain socket it
  holds under the condition proved in `PlainSocket`.
- A local program may copy to the clipboard at any moment, reads and writes of the OS clipboard may fail, and a
  socket write may fail at any moment in `DrawSession` and `AudioSession`.
- The reserved bits of a WebSocket frame are ignored, as the code ignores them.
- A text the clipboard thread could not read at start-up counts as the first local copy, because the code then
  forwards it.
- The conversion `as u32` in `release`, the u32, i32 and usize arithmetic of the framebuffer, the subtraction in
  `discard_frames` and the jitter floor are modelled with their wrap-around, as in a release build.
- A panic of the decode thread ends only that thread in an unwinding build, and the whole process in a build with
  `panic = "abort"`, as the release profile has it (`Cargo.toml:76-81`); `DrawSession` models both. A UI thread that
  stops ends the process.
- What a draw's decoder makes of it is part of the draw: each draw is decoded once.
- The unlocked part of a step (a thread's sleep between retries, the time between a tick and the event it
  posts) is a place where any other step may come in between.

## Left out

- Connections.Connection.ReadFrame: a frame announcing 2^63 bytes or more makes the source's buffer panic (`src/net/websocket.rs:126`) where the model reports a truncated frame; running out of memory for a shorter one is not modelled either.
- Connections.Connection.ReadPacket: end of the stream is the only failure of the socket below it; other I/O errors and failed writes are not modelled here (a failed write is in `DrawSession` and `AudioSession`).
- Connections.Connection.SendFrame: the frame reaches a plain socket in one piece, which `PlainSocket` shows is not so when the socket splits it; failed writes are not modelled here.
- Connections.Connection.WritePacket: the same holds of the packets written.
- TlsLock.Session.WriteAll: the library's answers are a finite list, so a wait without end shows as `StillBlocked`.
- Tokens.GenToken: the area is at least 16 bytes long; `src/client/mmap.rs:178-182` refuses one below 64 MB, and sizing the file is not modelled.
- Mmap.Destride: sizes are below 2^31, as in the draw packet's i32 fields; the length sums are unbounded, so the 64-bit overflow of a chunk list with more bytes than an address space is not modelled, nor is running out of memory.
- Mmap.MmapArea.ReadDraw: `data_start` is a field beside the area rather than its first four bytes; the chunks never touch those.
- Window.XpraWindow.Paint: the debug border is off.
- DrawFate.NoDrawIsLost: a panic inside a codec is not modelled.
- AudioPipeline.Pipeline.ServiceOutput: `set_rate` skips a rate close to the last one; the rate is the one asked for.
- Calendar.CivilIsValid: days are unbounded integers; the i64 limits are not modelled.
- ShellQuote.QuotedIsLiteral: the lexer covers quoting, blanks and operators; a line that needs an expansion outside quotes is outside the model.
- Assuan.Unescape: on bytes; the lossy UTF-8 conversion at the end is not modelled, and is the identity on the valid UTF-8 of the round trip.
- The WebSocket and TLS handshakes, sha1, sha256, HMAC and base64.
- YAML and JSON parsing and the layout of the packets sent; packets are taken as parsed fields.
- `OpusHeader::parse` and `opus_packet_frames`: single-branch table look-ups.
- The clipboard-request and contents replies, and convergence of the two clipboards.
- Media Foundation, WASAPI, the tray, image codecs, winit windows, fonts, keyboard tables and dialog drawing.
- Opening sockets and ssh, pinentry's process, environment variables, and creating and unlinking the mmap file.
