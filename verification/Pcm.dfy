/**
 The chunked PCM queue between the Opus decoder and the audio device (src/client/audio.rs), against
 one flat queue of interleaved samples.
 */
module Pcm {
  import opened Ints

  const HARD_CAP_FRAMES: nat := 24_000   // 500ms at 48kHz
  const FADE_FRAMES: nat := 240          // 5ms

  // Gain applied to one sample of the frame at a position of a fade so many frames long. The f32
  // arithmetic is left open: everything below holds for any such function.
  type Gain = (int, nat, nat) -> int

  datatype Chunk = Chunk(samples: seq<int>, offset: nat)

  // ---------------------------------------------------------------- frames and samples

  function Span(frames: nat, channels: nat): nat {
    frames * channels
  }

  lemma SpanAdds(a: nat, b: nat, channels: nat)
    ensures Span(a + b, channels) == Span(a, channels) + Span(b, channels)
  {
  }

  lemma {:induction false} SpanDivides(frames: nat, extra: nat, channels: nat)
    requires extra < channels
    ensures (Span(frames, channels) + extra) / channels == frames
    ensures (Span(frames, channels) + extra) % channels == extra
  {
    var n := Span(frames, channels) + extra;
    var q, r := n / channels, n % channels;
    assert n == channels * q + r;
    if q < frames {
      SpanAdds(q, frames - q, channels);
      SpanAtLeast(frames - q, channels);
    } else if q > frames {
      SpanAdds(frames, q - frames, channels);
      SpanAtLeast(q - frames, channels);
    }
  }

  lemma SpanAtLeast(frames: nat, channels: nat)
    requires frames > 0
    ensures Span(frames, channels) >= channels
  {
  }

  lemma SpanOrders(a: nat, b: nat, channels: nat)
    requires channels > 0
    ensures a < b <==> Span(a, channels) < Span(b, channels)
  {
  }

  // How many whole frames so many samples hold.
  lemma WholeFrames(samples: nat, channels: nat)
    requires channels > 0
    ensures Span(samples / channels, channels) + samples % channels == samples
  {
  }

  function Available(c: Chunk, channels: nat): int
    requires channels > 0
  {
    |c.samples| / channels - c.offset
  }

  // Whole frames only, and never exhausted.
  predicate ChunkOk(c: Chunk, channels: nat)
    requires channels > 0
  {
    |c.samples| % channels == 0 && Available(c, channels) > 0
  }

  predicate ChunksOk(chunks: seq<Chunk>, channels: nat)
    requires channels > 0
  {
    forall i :: 0 <= i < |chunks| ==> ChunkOk(chunks[i], channels)
  }

  lemma ChunkSpan(c: Chunk, channels: nat)
    requires channels > 0 && |c.samples| % channels == 0 && Available(c, channels) >= 0
    ensures Span(c.offset, channels) + Span(Available(c, channels), channels) == |c.samples|
  {
  }

  // What a chunk still holds.
  function Held(c: Chunk, channels: nat): (s: seq<int>)
    requires channels > 0 && ChunkOk(c, channels)
    ensures |s| == Span(Available(c, channels), channels)
  {
    ChunkSpan(c, channels);
    c.samples[Span(c.offset, channels)..]
  }

  // The flat queue the chunks stand for.
  function Flat(chunks: seq<Chunk>, channels: nat): seq<int>
    requires channels > 0 && ChunksOk(chunks, channels)
  {
    if chunks == [] then [] else Held(chunks[0], channels) + Flat(chunks[1..], channels)
  }

  function FrameCount(chunks: seq<Chunk>, channels: nat): nat
    requires channels > 0 && ChunksOk(chunks, channels)
  {
    if chunks == [] then 0 else Available(chunks[0], channels) + FrameCount(chunks[1..], channels)
  }

  lemma {:induction false} FlatLength(chunks: seq<Chunk>, channels: nat)
    requires channels > 0 && ChunksOk(chunks, channels)
    ensures |Flat(chunks, channels)| == Span(FrameCount(chunks, channels), channels)
  {
    if chunks != [] {
      FlatLength(chunks[1..], channels);
      SpanAdds(Available(chunks[0], channels), FrameCount(chunks[1..], channels), channels);
    }
  }

  lemma {:induction false} FlatAppend(chunks: seq<Chunk>, c: Chunk, channels: nat)
    requires channels > 0 && ChunksOk(chunks, channels) && ChunkOk(c, channels)
    ensures ChunksOk(chunks + [c], channels)
    ensures Flat(chunks + [c], channels) == Flat(chunks, channels) + Held(c, channels)
    ensures FrameCount(chunks + [c], channels) == FrameCount(chunks, channels) + Available(c, channels)
  {
    hide Held, ChunkOk, Available;
    if chunks == [] {
      assert [c][1..] == [];
    } else {
      FlatAppend(chunks[1..], c, channels);
      assert (chunks + [c])[1..] == chunks[1..] + [c];
    }
  }

  // The front chunk after `take` of its frames are used up: gone if that was all of them.
  function Advanced(chunks: seq<Chunk>, channels: nat, take: nat): seq<Chunk>
    requires channels > 0 && chunks != []
  {
    var front := chunks[0].(offset := chunks[0].offset + take);
    if front.offset == |front.samples| / channels then chunks[1..] else [front] + chunks[1..]
  }

  lemma HeldAdvances(c: Chunk, channels: nat, take: nat)
    requires channels > 0 && ChunkOk(c, channels) && take <= Available(c, channels)
    ensures Span(take, channels) <= |Held(c, channels)|
    ensures take == Available(c, channels) ==> Span(take, channels) == |Held(c, channels)|
    ensures var next := c.(offset := c.offset + take);
      take < Available(c, channels) ==>
        && ChunkOk(next, channels) && Available(next, channels) == Available(c, channels) - take
        && Held(next, channels) == Held(c, channels)[Span(take, channels)..]
  {
    ChunkSpan(c, channels);
    SpanAdds(take, Available(c, channels) - take, channels);
    SpanAdds(c.offset, take, channels);
    SpanAdds(c.offset + take, Available(c, channels) - take, channels);
    hide Span;
  }

  lemma AdvancedFlat(chunks: seq<Chunk>, channels: nat, take: nat)
    requires channels > 0 && chunks != [] && ChunksOk(chunks, channels) && take <= Available(chunks[0], channels)
    ensures ChunksOk(Advanced(chunks, channels, take), channels)
    ensures Span(take, channels) <= |Held(chunks[0], channels)| <= |Flat(chunks, channels)|
    ensures Flat(Advanced(chunks, channels, take), channels) == Flat(chunks, channels)[Span(take, channels)..]
    ensures FrameCount(Advanced(chunks, channels, take), channels) == FrameCount(chunks, channels) - take
    ensures Held(chunks[0], channels)[..Span(take, channels)] == Flat(chunks, channels)[..Span(take, channels)]
  {
    var c, rest := chunks[0], chunks[1..];
    HeldAdvances(c, channels, take);
    var next := Advanced(chunks, channels, take);
    hide Held, Span, ChunkOk;
    DropFront(Held(c, channels), Flat(rest, channels), Span(take, channels));
    if take < Available(c, channels) {
      assert next == [c.(offset := c.offset + take)] + rest && next[1..] == rest;
      AllOk(next, channels);
    } else {
      assert next == rest;
    }
  }

  lemma DropFront(a: seq<int>, b: seq<int>, k: nat)
    requires k <= |a|
    ensures (a + b)[k..] == a[k..] + b && (a + b)[..k] == a[..k]
    ensures k == |a| ==> (a + b)[k..] == b
  {
  }

  lemma AllOk(chunks: seq<Chunk>, channels: nat)
    requires channels > 0 && chunks != [] && ChunkOk(chunks[0], channels) && ChunksOk(chunks[1..], channels)
    ensures ChunksOk(chunks, channels)
  {
  }

  // ---------------------------------------------------------------- the queue

  // The first `frames` frames of a flat queue, faded by position alone; the first one is at `position`
  // of a fade over `length` frames.
  function Faded(flat: seq<int>, channels: nat, frames: nat, position: nat, length: nat, gain: Gain): (s: seq<int>)
    requires channels > 0
    ensures |s| == |flat|
  {
    seq(|flat|, i requires 0 <= i < |flat| =>
      if i < Span(frames, channels) then gain(flat[i], position + i / channels, length) else flat[i])
  }

  lemma WholeChunk(samples: seq<int>, channels: nat)
    requires channels > 0
    ensures var whole := samples[..|samples| - |samples| % channels];
      && |whole| / channels == |samples| / channels
      && (|samples| / channels == 0 ==> whole == [])
      && (|samples| / channels > 0 ==>
            ChunkOk(Chunk(whole, 0), channels) && Available(Chunk(whole, 0), channels) == |samples| / channels
            && Held(Chunk(whole, 0), channels) == whole)
  {
    var n := |samples| / channels;
    WholeFrames(|samples|, channels);
    SpanDivides(n, 0, channels);
  }

  lemma Pieces(q: seq<int>, a: nat, b: nat)
    requires a + b <= |q|
    ensures q[..a] + q[a..][..b] == q[..a + b] && q[a..][b..] == q[a + b..]
  {
  }

  function Min(a: int, b: int): int {
    if a < b then a else b
  }

  // How many frames are over the cap.
  function Excess(frames: nat): nat {
    if frames <= HARD_CAP_FRAMES then 0 else frames - HARD_CAP_FRAMES
  }

  // The flat queue after the cap: the newest frames, the first of them faded in if any were lost.
  function Capped(flat: seq<int>, channels: nat, gain: Gain): seq<int>
    requires channels > 0
  {
    var over := Excess(|flat| / channels);
    SpanFits(over, |flat|, channels);
    if over == 0 then flat
    else Faded(flat[Span(over, channels)..], channels, FADE_FRAMES, 0, FADE_FRAMES, gain)
  }

  // Each sample of the faded frames is scaled by how far its frame is into the fade; the others stay.
  lemma FadedMeans(flat: seq<int>, channels: nat, frames: nat, position: nat, length: nat, gain: Gain, frame: nat, channel: nat)
    requires channels > 0 && channel < channels && frame * channels + channel < |flat|
    ensures var i := frame * channels + channel;
      Faded(flat, channels, frames, position, length, gain)[i] ==
      if frame < frames then gain(flat[i], position + frame, length) else flat[i]
  {
    SpanDivides(frame, channel, channels);
    SpanOrders(frame, frames, channels);
    if frame < frames {
      SpanAdds(frame, frames - frame, channels);
      SpanAtLeast(frames - frame, channels);
    } else {
      SpanAdds(frames, frame - frames, channels);
    }
    hide Span;
    assert Span(frame, channels) == frame * channels by { SpanIs(frame, channels); }
  }

  lemma SpanIs(frames: nat, channels: nat)
    ensures Span(frames, channels) == frames * channels
  {
  }

  // Half a second of audio, 24000 frames, is left alone; of a longer queue the newest 24000 frames stay,
  // the first 240 of them faded in.
  lemma CappedMeans(frames: nat, flat: seq<int>, channels: nat, gain: Gain)
    requires channels > 0 && |flat| == frames * channels
    ensures frames <= 24_000 ==> Capped(flat, channels, gain) == flat
    ensures frames > 24_000 ==>
              |flat| >= 24_000 * channels
              && Capped(flat, channels, gain) ==
                 Faded(flat[|flat| - 24_000 * channels..], channels, 240, 0, 240, gain)
  {
    SpanIs(frames, channels);
    SpanDivides(frames, 0, channels);
    if frames > 24_000 {
      SpanIs(24_000, channels);
      SpanIs(frames - 24_000, channels);
      SpanAdds(frames - 24_000, 24_000, channels);
    }
    hide Span, Faded;
  }

  // A chunk holds its samples from the frame at its offset on.
  lemma HeldMeans(c: Chunk, channels: nat, i: nat)
    requires channels > 0 && ChunkOk(c, channels) && c.offset * channels + i < |c.samples|
    ensures i < |Held(c, channels)| && Held(c, channels)[i] == c.samples[c.offset * channels + i]
  {
    ChunkSpan(c, channels);
  }

  class PcmBuffer {
    const channels: nat
    var chunks: seq<Chunk>
    var frames: int

    ghost predicate Sound()
      reads this
    {
      channels > 0 && ChunksOk(chunks, channels)
    }

    // The chunks hold whole frames, none is exhausted, and `frames` counts them.
    ghost predicate Valid()
      reads this
    {
      Sound() && frames == FrameCount(chunks, channels)
    }

    ghost function Queue(): seq<int>
      reads this
      requires Sound()
    {
      Flat(chunks, channels)
    }

    constructor (channels: nat)
      ensures Valid() && Queue() == [] && this.channels == if channels < 1 then 1 else channels
    {
      this.channels := if channels < 1 then 1 else channels;
      chunks, frames := [], 0;
    }

    // A trailing partial frame is cut off.
    method Push(samples: seq<int>)
      requires Valid()
      modifies this
      ensures Valid() && Queue() == old(Queue()) + samples[..|samples| - |samples| % channels]
      ensures frames == old(frames) + |samples| / channels
    {
      hide Span, Held, Available, ChunkOk;
      var whole := samples[..|samples| - |samples| % channels];
      WholeChunk(samples, channels);
      var count := |whole| / channels;
      if count != 0 {
        FlatAppend(chunks, Chunk(whole, 0), channels);
        frames := frames + count;
        chunks := chunks + [Chunk(whole, 0)];
      }
    }

    // Uses up `take` frames of the front chunk.
    method AdvanceFront(take: nat)
      requires Sound() && chunks != [] && take <= Available(chunks[0], channels)
      modifies `chunks
      ensures Sound()
      ensures Span(take, channels) <= |old(Queue())| && Queue() == old(Queue())[Span(take, channels)..]
      ensures FrameCount(chunks, channels) == old(FrameCount(chunks, channels)) - take
      ensures chunks == Advanced(old(chunks), channels, take)
    {
      AdvancedFlat(chunks, channels, take);
      var front := chunks[0].(offset := chunks[0].offset + take);
      chunks := if front.offset == |front.samples| / channels then chunks[1..] else [front] + chunks[1..];
    }

    // One turn of the copying loop: as much of the front chunk as is wanted.
    method CopyFront(destination: array<int>, copied: nat, wanted: nat) returns (take: nat)
      requires Sound() && chunks != [] && wanted > 0
      requires Span(copied + wanted, channels) <= destination.Length
      modifies `chunks, destination
      ensures Sound() && 0 < take <= wanted
      ensures FrameCount(chunks, channels) == old(FrameCount(chunks, channels)) - take
      ensures Span(take, channels) <= |old(Queue())| && Queue() == old(Queue())[Span(take, channels)..]
      ensures Span(copied, channels) + Span(take, channels) <= destination.Length
      ensures destination[..] == old(destination[..Span(copied, channels)]) + old(Queue())[..Span(take, channels)]
                                 + old(destination[Span(copied, channels) + Span(take, channels)..])
    {
      var front := chunks[0];
      var available := |front.samples| / channels - front.offset;
      FirstChunkOk(chunks, channels);
      take := Min(available, wanted);
      AdvancedFlat(chunks, channels, take);
      HeldSamples(front, channels, take);
      SpanAdds(copied, take, channels);
      SpanAdds(copied + take, wanted - take, channels);
      hide Span, Held, Flat, ChunksOk;
      CopySamples(front.samples, Span(front.offset, channels), Span(take, channels), destination, Span(copied, channels));
      AdvanceFront(take);
    }

    // `copy_from_slice` into part of the destination.
    method CopySamples(source: seq<int>, from: nat, count: nat, destination: array<int>, at: nat)
      requires from + count <= |source| && at + count <= destination.Length
      modifies destination
      ensures destination[..] == old(destination[..at]) + source[from..from + count] + old(destination[at + count..])
    {
      forall k | at <= k < at + count {
        destination[k] := source[from + (k - at)];
      }
    }

    // Copies the flat prefix, whatever the chunk boundaries.
    method PopInto(destination: array<int>, requested: nat) returns (copied: nat)
      requires Valid()
      modifies this, destination
      ensures Valid() && copied == Min(Min(requested, old(frames)), destination.Length / channels)
      ensures Span(copied, channels) <= destination.Length && Span(copied, channels) <= |old(Queue())|
      ensures destination[..Span(copied, channels)] == old(Queue())[..Span(copied, channels)]
      ensures destination[Span(copied, channels)..] == old(destination[Span(copied, channels)..])
      ensures Queue() == old(Queue())[Span(copied, channels)..] && frames == old(frames) - copied
    {
      hide Span, Flat, Held, ChunksOk;
      var want := Min(Min(requested, frames), destination.Length / channels);
      copied := 0;
      ghost var q := Queue();
      SpanZero(channels);
      SpanFits(want, destination.Length, channels);
      while copied < want
        invariant Sound() && copied <= want && frames == old(frames)
        invariant FrameCount(chunks, channels) == frames - copied
        invariant Span(copied, channels) <= destination.Length && Span(copied, channels) <= |q|
        invariant Queue() == q[Span(copied, channels)..]
        invariant destination[..Span(copied, channels)] == q[..Span(copied, channels)]
        invariant destination[Span(copied, channels)..] == old(destination[..])[Span(copied, channels)..]
      {
        if chunks == [] { break; }
        SpanFits(want, destination.Length, channels);
        var take := CopyFront(destination, copied, want - copied);
        Pieces(q, Span(copied, channels), Span(take, channels));
        SpanAdds(copied, take, channels);
        copied := copied + take;
      }
      frames := frames - copied;
    }

    // Drops frames from the front. The count is right exactly when no more is dropped than is queued;
    // past that the two subtractions, which wrap, leave what could not be dropped in `frames`.
    method DiscardFrames(n: nat)
      requires Valid()
      modifies this
      ensures n <= old(frames) ==>
        && Valid() && frames == old(frames) - n
        && Span(n, channels) <= |old(Queue())| && Queue() == old(Queue())[Span(n, channels)..]
      ensures old(frames) < n < M64 ==> chunks == [] && frames == n - old(frames) && !Valid()
    {
      hide Span, Flat, Held, ChunksOk;
      var original := Min(n, frames);
      FlatLength(chunks, channels);
      var left := DropFrames(n);
      NoneLeft(chunks, channels);
      frames := Minus64(frames, Minus64(original, left));
    }

    // The loop: what it could not drop is returned.
    method DropFrames(n: nat) returns (left: nat)
      requires Valid()
      modifies `chunks
      ensures Sound() && left == if n <= frames then 0 else n - frames
      ensures FrameCount(chunks, channels) == frames - (n - left)
      ensures Span(n - left, channels) <= |old(Queue())| && Queue() == old(Queue())[Span(n - left, channels)..]
    {
      hide Span, Flat, Held, ChunksOk;
      left := n;
      ghost var q := Queue();
      SpanZero(channels);
      while left != 0
        invariant Sound() && left <= n
        invariant FrameCount(chunks, channels) == frames - (n - left)
        invariant Span(n - left, channels) <= |q| && Queue() == q[Span(n - left, channels)..]
      {
        NoneLeft(chunks, channels);
        if chunks == [] { break; }
        CountsFirst(chunks, channels);
        var front := chunks[0];
        var available: nat := |front.samples| / channels - front.offset;
        var take: nat := if available < left then available else left;
        Pieces2(q, n - left, take, channels, Queue());
        AdvanceFront(take);
        left := left - take;
      }
    }

    // Fades the head of the queue in, chunk by chunk.
    method FadeIn(length: nat, gain: Gain)
      requires Valid()
      modifies `chunks
      ensures Valid() && frames == old(frames)
      ensures Queue() == Faded(old(Queue()), channels, Min(length, frames), 0, if length == 0 then 1 else length, gain)
    {
      hide Span, Flat, Held, ChunksOk, Faded, ChunkOk, FrameCount;
      var remaining: nat, position: nat := Min(length, frames), 0;
      ghost var q := Queue();
      ghost var goal := Faded(q, channels, remaining, 0, Max1(length), gain);
      ghost var was := chunks;
      assert chunks[..0] == [] && chunks[0..] == chunks;
      NoChunks(channels);
      var count := |chunks|;
      for k := 0 to count
        invariant |chunks| == |was|
        invariant ChunksOk(chunks[..k], channels) && ChunksOk(chunks[k..], channels)
        invariant goal == Flat(chunks[..k], channels) +
                          Faded(Flat(chunks[k..], channels), channels, remaining, position, Max1(length), gain)
        invariant FrameCount(chunks[..k], channels) + FrameCount(chunks[k..], channels) == frames
      {
        FirstOf(chunks, k, channels);
        var chunk := chunks[k];
        var available: nat := |chunk.samples| / channels - chunk.offset;
        var take: nat := Min(available, remaining);
        ghost var rest := Flat(chunks[k + 1..], channels);
        FadedSplits(Held(chunk, channels), rest, available, channels, remaining, position, Max1(length), gain);
        var faded := FadeChunk(chunk, take, position, Max1(length), gain);
        position := position + take;
        remaining := remaining - take;
        Regroup(Flat(chunks[..k], channels), Held(faded, channels),
                Faded(rest, channels, remaining, position, Max1(length), gain));
        FlatAppend(chunks[..k], faded, channels);
        UpdateSplits(chunks, k, faded);
        chunks := chunks[k := faded];
        if remaining == 0 {
          FadedNothing(rest, channels, position, Max1(length), gain);
          FlatJoin(chunks, k + 1, channels);
          return;
        }
      }
      assert chunks[..|was|] == chunks && chunks[|was|..] == [];
    }

    method FadeChunk(c: Chunk, take: nat, position: nat, length: nat, gain: Gain) returns (faded: Chunk)
      requires channels > 0 && ChunkOk(c, channels) && take <= Available(c, channels)
      ensures ChunkOk(faded, channels) && Available(faded, channels) == Available(c, channels)
      ensures Held(faded, channels) == Faded(Held(c, channels), channels, take, position, length, gain)
    {
      hide Span, FadedUpTo, Held;
      var samples := c.samples;
      ghost var start := Span(c.offset, channels);
      SpanZero(channels);
      HeldSamples(c, channels, take);
      NothingFaded(c.samples, start, channels, position, length, gain);
      for frame := 0 to take
        invariant |samples| == |c.samples|
        invariant FadedUpTo(samples, c.samples, start, Span(frame, channels), channels, position, length, gain)
      {
        var base := (c.offset + frame) * channels;
        FrameInside(c, channels, frame, take);
        for channel := 0 to channels
          invariant |samples| == |c.samples|
          invariant FadedUpTo(samples, c.samples, start, Span(frame, channels) + channel, channels, position, length, gain)
        {
          OneMoreFaded(samples, c.samples, start, frame, channel, channels, position, length, gain);
          samples := samples[base + channel := gain(samples[base + channel], position + frame, length)];
        }
        SpanOne(frame, channels);
      }
      faded := Chunk(samples, c.offset);
      ChunkFaded(c, faded, channels, take, position, length, gain);
    }

    // Over the cap, the oldest frames go and the new head is faded in.
    method EnforceHardCap(gain: Gain) returns (dropped: nat)
      requires Valid()
      modifies this
      ensures Valid() && dropped == Excess(old(frames)) && frames == old(frames) - dropped <= HARD_CAP_FRAMES
      ensures Span(dropped, channels) <= |old(Queue())|
      ensures Queue() == Capped(old(Queue()), channels, gain)
    {
      hide Span, Faded, Flat;
      FlatLength(chunks, channels);
      SpanZero(channels);
      SpanDivides(frames, 0, channels);
      if frames <= HARD_CAP_FRAMES { return 0; }
      dropped := frames - HARD_CAP_FRAMES;
      DiscardFrames(dropped);
      FadeIn(FADE_FRAMES, gain);
    }
  }

  // Two frames discarded from a queue of one: the queue is empty, and counts one.
  method DiscardTooMany() returns (b: PcmBuffer)
    ensures b.chunks == [] && b.frames == 1 && !b.Valid()
  {
    b := new PcmBuffer(1);
    b.Push([7]);
    b.DiscardFrames(2);
  }

  lemma NothingFaded(was: seq<int>, start: nat, channels: nat, position: nat, length: nat, gain: Gain)
    requires channels > 0 && start <= |was|
    ensures FadedUpTo(was, was, start, 0, channels, position, length, gain)
  {
  }

  lemma SpanOne(frame: nat, channels: nat)
    ensures Span(frame + 1, channels) == Span(frame, channels) + channels
  {
  }

  lemma OneMoreFaded(now: seq<int>, was: seq<int>, start: nat, frame: nat, channel: nat, channels: nat,
                     position: nat, length: nat, gain: Gain)
    requires channel < channels && start + Span(frame, channels) + channel < |was|
    requires FadedUpTo(now, was, start, Span(frame, channels) + channel, channels, position, length, gain)
    ensures var at := start + Span(frame, channels) + channel;
      FadedUpTo(now[at := gain(now[at], position + frame, length)], was, start, Span(frame, channels) + channel + 1,
                channels, position, length, gain)
  {
    SpanDivides(frame, channel, channels);
  }

  lemma ChunkFaded(c: Chunk, faded: Chunk, channels: nat, take: nat, position: nat, length: nat, gain: Gain)
    requires channels > 0 && ChunkOk(c, channels) && take <= Available(c, channels) && faded.offset == c.offset
    requires FadedUpTo(faded.samples, c.samples, Span(c.offset, channels), Span(take, channels), channels, position, length, gain)
    ensures ChunkOk(faded, channels) && Available(faded, channels) == Available(c, channels)
    ensures Held(faded, channels) == Faded(Held(c, channels), channels, take, position, length, gain)
  {
  }

  lemma FirstChunkOk(chunks: seq<Chunk>, channels: nat)
    requires channels > 0 && chunks != [] && ChunksOk(chunks, channels)
    ensures ChunkOk(chunks[0], channels)
  {
  }

  lemma HeldSamples(c: Chunk, channels: nat, take: nat)
    requires channels > 0 && ChunkOk(c, channels) && take <= Available(c, channels)
    ensures Span(c.offset, channels) + Span(take, channels) <= |c.samples|
    ensures Span(take, channels) <= |Held(c, channels)|
    ensures Held(c, channels)[..Span(take, channels)] ==
            c.samples[Span(c.offset, channels)..Span(c.offset, channels) + Span(take, channels)]
  {
    ChunkSpan(c, channels);
    SpanAdds(take, Available(c, channels) - take, channels);
  }

  lemma NoChunks(channels: nat)
    requires channels > 0
    ensures ChunksOk([], channels) && Flat([], channels) == [] && FrameCount([], channels) == 0
  {
  }

  lemma FirstOf(chunks: seq<Chunk>, k: nat, channels: nat)
    requires channels > 0 && k < |chunks| && ChunksOk(chunks[k..], channels)
    ensures ChunkOk(chunks[k], channels) && ChunksOk(chunks[k + 1..], channels)
    ensures Flat(chunks[k..], channels) == Held(chunks[k], channels) + Flat(chunks[k + 1..], channels)
    ensures FrameCount(chunks[k..], channels) == Available(chunks[k], channels) + FrameCount(chunks[k + 1..], channels)
  {
  }

  lemma {:induction false} FlatJoin(chunks: seq<Chunk>, k: nat, channels: nat)
    requires channels > 0 && k <= |chunks| && ChunksOk(chunks[..k], channels) && ChunksOk(chunks[k..], channels)
    ensures ChunksOk(chunks, channels)
    ensures Flat(chunks, channels) == Flat(chunks[..k], channels) + Flat(chunks[k..], channels)
    ensures FrameCount(chunks, channels) == FrameCount(chunks[..k], channels) + FrameCount(chunks[k..], channels)
    decreases k
  {
    if k == 0 {
      assert chunks[0..] == chunks;
    } else {
      hide Held, ChunkOk, Available;
      var tail := chunks[1..];
      assert chunks[..k][1..] == tail[..k - 1] && chunks[k..] == tail[k - 1..];
      assert chunks[..k][0] == chunks[0];
      FlatJoin(tail, k - 1, channels);
      AllOk(chunks, channels);
    }
  }

  lemma UpdateSplits(chunks: seq<Chunk>, k: nat, c: Chunk)
    requires k < |chunks|
    ensures chunks[k := c][..k + 1] == chunks[..k] + [c] && chunks[k := c][k + 1..] == chunks[k + 1..]
  {
  }

  lemma Regroup(a: seq<int>, b: seq<int>, c: seq<int>)
    ensures a + (b + c) == (a + b) + c
  {
  }

  // From `start` on, the first `count` samples are faded and the others are as they were.
  predicate FadedUpTo(now: seq<int>, was: seq<int>, start: nat, count: nat, channels: nat, position: nat, length: nat, gain: Gain)
    requires channels > 0
  {
    |now| == |was| && start + count <= |was| &&
    forall i :: 0 <= i < |was| ==>
      now[i] == if start <= i < start + count then gain(was[i], position + (i - start) / channels, length) else was[i]
  }

  lemma FrameInside(c: Chunk, channels: nat, frame: nat, take: nat)
    requires channels > 0 && ChunkOk(c, channels) && frame < take <= Available(c, channels)
    ensures (c.offset + frame) * channels == Span(c.offset, channels) + Span(frame, channels)
    ensures Span(c.offset, channels) + Span(frame, channels) + channels <= |c.samples|
  {
    SpanAdds(c.offset, frame, channels);
    SpanAdds(frame, 1, channels);
    SpanAdds(frame + 1, Available(c, channels) - frame - 1, channels);
    ChunkSpan(c, channels);
  }

  function Max1(n: nat): nat {
    if n < 1 then 1 else n
  }

  lemma CountsFirst(chunks: seq<Chunk>, channels: nat)
    requires channels > 0 && chunks != [] && ChunksOk(chunks, channels)
    ensures FrameCount(chunks, channels) >= Available(chunks[0], channels) > 0
  {
  }

  lemma NoneLeft(chunks: seq<Chunk>, channels: nat)
    requires channels > 0 && ChunksOk(chunks, channels)
    ensures FrameCount(chunks, channels) == 0 <==> chunks == []
  {
  }

  lemma Pieces2(q: seq<int>, done: nat, take: nat, channels: nat, rest: seq<int>)
    requires Span(done, channels) <= |q| && rest == q[Span(done, channels)..]
    ensures Span(take, channels) <= |rest| ==>
              Span(done + take, channels) <= |q| && rest[Span(take, channels)..] == q[Span(done + take, channels)..]
  {
  }

  lemma SpanFits(frames: nat, length: nat, channels: nat)
    requires channels > 0 && frames <= length / channels
    ensures Span(frames, channels) <= length
  {
  }

  // ---------------------------------------------------------------- fading

  lemma FadedNothing(flat: seq<int>, channels: nat, position: nat, length: nat, gain: Gain)
    requires channels > 0
    ensures Faded(flat, channels, 0, position, length, gain) == flat
  {
  }

  // Fading two stretches one after the other is fading them as one.
  lemma FadedSplits(a: seq<int>, b: seq<int>, held: nat, channels: nat, frames: nat, position: nat, length: nat, gain: Gain)
    requires channels > 0 && |a| == Span(held, channels)
    ensures var take := Min(held, frames);
      Faded(a + b, channels, frames, position, length, gain) ==
      Faded(a, channels, take, position, length, gain) + Faded(b, channels, frames - take, position + take, length, gain)
  {
    var take := Min(held, frames);
    var whole, x, y := Faded(a + b, channels, frames, position, length, gain),
                       Faded(a, channels, take, position, length, gain),
                       Faded(b, channels, frames - take, position + take, length, gain);
    forall i | 0 <= i < |whole| ensures whole[i] == (x + y)[i] {
      FadedAt(a, b, held, channels, frames, position, length, gain, i);
    }
  }

  lemma FadedAt(a: seq<int>, b: seq<int>, held: nat, channels: nat, frames: nat, position: nat, length: nat, gain: Gain, i: nat)
    requires channels > 0 && |a| == Span(held, channels) && i < |a| + |b|
    ensures var take := Min(held, frames);
      Faded(a + b, channels, frames, position, length, gain)[i] ==
      (Faded(a, channels, take, position, length, gain) +
       Faded(b, channels, frames - take, position + take, length, gain))[i]
  {
    hide Span;
    var take := Min(held, frames);
    SpanOrders(take, frames, channels);
    if i >= |a| {
      var j := i - |a|;
      WholeFrames(j, channels);
      SpanAdds(held, j / channels, channels);
      SpanDivides(held + j / channels, j % channels, channels);
      if frames >= held { SpanAdds(held, frames - held, channels); } else { SpanOrders(frames, held, channels); SpanZero(channels); }
    } else {
      SpanOrders(held, frames, channels);
    }
  }

  lemma SpanZero(channels: nat)
    ensures Span(0, channels) == 0
  {
  }
}
