/**
 One audio stream on the worker thread (src/client/windows_audio.rs): decoded packets lose their
 pre-skip (section 4.2 of RFC 7845), are queued under a hard cap, and are handed to the device in
 whole buffers. The decoder and the device are parameters, and any of their calls may fail.
 */
module AudioPipeline {
  import opened Wrappers
  import opened Pcm
  import Jitter
  import opened Ints

  // Frames at the head of a decoded packet that the pre-skip takes.
  function SkippedNow(samples: seq<int>, channels: nat, preSkip: nat): nat
    requires channels > 0
  {
    Min(|samples| / channels, preSkip)
  }

  // What is left to queue: a trailing partial frame is dropped by the queue.
  function Kept(samples: seq<int>, channels: nat, preSkip: nat): (k: seq<int>)
    requires channels > 0
  {
    var skip := SkippedNow(samples, channels, preSkip);
    SpanFits(skip, |samples|, channels);
    hide Span;
    var rest := samples[Span(skip, channels)..];
    PartialFrame(|rest|, channels);
    rest[..|rest| - |rest| % channels]
  }

  lemma PartialFrame(length: nat, channels: nat)
    requires channels > 0
    ensures 0 <= length % channels <= length
  {
    WholeFrames(length, channels);
  }

  lemma KeptFrames(samples: seq<int>, channels: nat, preSkip: nat)
    requires channels > 0
    ensures var skip := SkippedNow(samples, channels, preSkip);
      && Span(skip, channels) <= |samples|
      && (|samples| - Span(skip, channels)) / channels == |samples| / channels - skip
  {
    var skip := SkippedNow(samples, channels, preSkip);
    WholeFrames(|samples|, channels);
    var left := |samples| / channels - skip;
    SpanAdds(skip, left, channels);
    SpanDivides(left, |samples| % channels, channels);
  }

  // What is kept of a packet: its whole frames from the end of the pre-skip on.
  lemma KeptMeans(samples: seq<int>, channels: nat, preSkip: nat)
    requires channels > 0
    ensures var n := |samples| / channels; var skip := if preSkip < n then preSkip else n;
      && skip * channels <= n * channels <= |samples|
      && Kept(samples, channels, preSkip) == samples[skip * channels..n * channels]
  {
    var n := |samples| / channels;
    var skip := if preSkip < n then preSkip else n;
    WholeFrames(|samples|, channels);
    SpanFits(skip, |samples|, channels);
    SpanAdds(skip, n - skip, channels);
    SpanDivides(n - skip, |samples| % channels, channels);
    SpanIs(skip, channels);
    SpanIs(n, channels);
    hide Span;
    var rest := samples[skip * channels..];
    assert |rest| % channels == |samples| % channels;
    assert rest[..|rest| - |rest| % channels] == samples[skip * channels..n * channels];
  }

  // Drops the pre-skip from the head of a decoded packet.
  method SkipHead(samples: seq<int>, channels: nat, preSkip: nat) returns (result: seq<int>, left: nat)
    requires channels > 0
    ensures Span(SkippedNow(samples, channels, preSkip), channels) <= |samples|
    ensures result == samples[Span(SkippedNow(samples, channels, preSkip), channels)..]
    ensures left == preSkip - SkippedNow(samples, channels, preSkip)
  {
    result, left := samples, preSkip;
    KeptFrames(samples, channels, preSkip);
    SpanZero(channels);
    if preSkip != 0 && result != [] {
      var frames := |result| / channels;
      var count := Min(frames, preSkip);
      result := result[Span(count, channels)..];
      left := preSkip - count;
    }
  }

  function LatencyMs(frames: nat): nat {
    frames * 1000 / 48_000
  }

  // What the device answers to the calls of one turn: the room in its buffer, locking and releasing
  // that buffer, starting, stopping, what it still has to play in ms, and setting the rate.
  datatype Device = Device(room: Option<nat>, locks: bool, releases: bool, starts: bool, stops: bool,
                           padding: Option<nat>, rates: bool)

  // How many frames a turn takes from the queue.
  function Taken(playing: bool, frames: nat, target: nat, d: Device): nat {
    if d.room.None? || !d.locks then 0
    else if !playing then (if LatencyMs(frames) >= target then Min(d.room.value, frames) else 0)
    else if d.room.value <= frames then d.room.value
    else 0
  }

  // Whether filling the device buffer with so many frames goes through.
  predicate Fills(count: nat, d: Device) {
    count == 0 || (d.locks && d.releases)
  }

  // Whether the device is playing after a turn: it starts once the queue reaches the target and the
  // first buffer is in, and stops when the queue cannot fill the room there is.
  predicate PlaysOn(playing: bool, frames: nat, target: nat, d: Device) {
    if !playing then
      LatencyMs(frames) >= target && d.room.Some? && Fills(Min(d.room.value, frames), d) && d.starts
    else
      !(d.room.Some? && frames < d.room.value && d.stops)
  }

  // Whether every call a turn makes succeeds.
  predicate Serves(playing: bool, frames: nat, target: nat, d: Device) {
    && d.padding.Some? && d.rates
    && if !playing then LatencyMs(frames) >= target ==> PlaysOn(playing, frames, target, d)
       else d.room.Some? && if frames < d.room.value then d.stops else Fills(d.room.value, d)
  }

  // 48 frames to the millisecond.
  lemma LatencyMeans(ms: nat, more: nat)
    requires more < 48
    ensures LatencyMs(48 * ms + more) == ms
  {
  }

  // With a device that answers: playing starts with the first buffer once the queue holds the target,
  // stops when it cannot fill the room there is, and otherwise goes on.
  lemma WhenItPlays(frames: nat, target: nat, room: nat, padding: nat)
    ensures var d := Device(Some(room), true, true, true, true, Some(padding), true);
      && (PlaysOn(false, frames, target, d) <==> frames >= 48 * target)
      && (PlaysOn(true, frames, target, d) <==> frames >= room)
      && Serves(false, frames, target, d) && Serves(true, frames, target, d)
      && Taken(false, frames, target, d) == (if frames < 48 * target then 0 else if room < frames then room else frames)
      && Taken(true, frames, target, d) == (if frames < room then 0 else room)
  {
    LatencyMeans(frames / 48, frames % 48);
  }

  class Pipeline {
    const pcm: PcmBuffer
    const jitter: Jitter.AdaptiveJitter
    var preSkip: nat
    var playing: bool
    // frames decoded, and where they went; `played` is what was taken for the device
    ghost const toSkip: nat
    ghost var decoded: nat
    ghost var skipped: nat
    ghost var dropped: nat
    ghost var played: nat

    ghost predicate Valid()
      reads this, pcm, jitter
    {
      && pcm.Valid() && jitter.Valid() && pcm.frames <= HARD_CAP_FRAMES
      && decoded == skipped + dropped + played + pcm.frames
      && skipped + preSkip == toSkip
      && (preSkip > 0 ==> decoded == skipped)
    }

    constructor (channels: nat, preSkip: nat, now: nat)
      ensures Valid() && fresh(pcm) && fresh(jitter) && toSkip == preSkip && decoded == 0 && !playing
      ensures pcm.Queue() == []
    {
      pcm := new PcmBuffer(channels);
      jitter := new Jitter.AdaptiveJitter(now);
      this.preSkip, playing, toSkip := preSkip, false, preSkip;
      decoded, skipped, dropped, played := 0, 0, 0, 0;
    }

    // At every moment the pre-skip has taken the first frames decoded and no others, and every frame
    // decoded is accounted for.
    lemma SkipsExactly()
      requires Valid()
      ensures skipped == Min(toSkip, decoded)
      ensures decoded == skipped + dropped + played + pcm.frames
    {
    }

    // `decoder` is what the decoder made of one packet; without it the queue stays as it is.
    method DecodePacket(decoder: Option<seq<int>>, arrival: nat, duration: u32, gain: Gain) returns (ok: bool)
      requires Valid()
      modifies this, pcm, jitter
      ensures Valid() && playing == old(playing) && played == old(played) && ok == decoder.Some?
      ensures match decoder
              case None => decoded == old(decoded) && skipped == old(skipped) && pcm.Queue() == old(pcm.Queue())
              case Some(samples) =>
                && decoded == old(decoded) + |samples| / pcm.channels
                && skipped == old(skipped) + SkippedNow(samples, pcm.channels, old(preSkip))
                && pcm.Queue() ==
                   Capped(old(pcm.Queue()) + Kept(samples, pcm.channels, old(preSkip)), pcm.channels, gain)
    {
      hide Span, Faded, Flat, ChunksOk, Capped;
      jitter.ObservePacket(arrival, duration);
      if decoder.None? { return false; }
      Queue(decoder.value, gain);
      ok := true;
    }

    method Queue(samples: seq<int>, gain: Gain)
      requires Valid()
      modifies this, pcm
      ensures Valid() && playing == old(playing) && played == old(played)
      ensures decoded == old(decoded) + |samples| / pcm.channels
      ensures skipped == old(skipped) + SkippedNow(samples, pcm.channels, old(preSkip))
      ensures pcm.Queue() == Capped(old(pcm.Queue()) + Kept(samples, pcm.channels, old(preSkip)), pcm.channels, gain)
    {
      hide Span, Faded, Flat, ChunksOk, Capped;
      ghost var skip := SkippedNow(samples, pcm.channels, preSkip);
      KeptFrames(samples, pcm.channels, preSkip);
      var result, left := SkipHead(samples, pcm.channels, preSkip);
      preSkip := left;
      pcm.Push(result);
      var lost := pcm.EnforceHardCap(gain);
      decoded, skipped, dropped := decoded + |samples| / pcm.channels, skipped + skip, dropped + lost;
    }

    // Fills one device buffer, with silence after the queue's last frame. Releasing the buffer may fail
    // after the frames are taken.
    method WriteFrames(count: nat, locks: bool, releases: bool) returns (ok: bool, buffer: seq<int>)
      requires Valid()
      modifies this, pcm
      ensures Valid() && playing == old(playing) && preSkip == old(preSkip) && decoded == old(decoded)
      ensures skipped == old(skipped) && dropped == old(dropped)
      ensures ok == (count == 0 || (locks && releases))
      ensures var written := if locks then Min(count, old(pcm.frames)) else 0;
        && played == old(played) + written && pcm.frames == old(pcm.frames) - written
        && Span(written, pcm.channels) <= |old(pcm.Queue())|
        && |buffer| == Span(if locks then count else 0, pcm.channels)
        && buffer == old(pcm.Queue())[..Span(written, pcm.channels)] +
                     seq(|buffer| - Span(written, pcm.channels), _ => 0)
        && pcm.Queue() == old(pcm.Queue())[Span(written, pcm.channels)..]
    {
      hide Span, Flat, ChunksOk;
      SpanDivides(count, 0, pcm.channels);
      FlatLength(pcm.chunks, pcm.channels);
      SpanZero(pcm.channels);
      if count == 0 { return true, []; }
      if !locks { return false, []; }
      var samples := new int[Span(count, pcm.channels)](_ => 0);
      ghost var q := pcm.Queue();
      var written := pcm.PopInto(samples, count);
      var start := Span(written, pcm.channels);
      if written < count {
        forall i | start <= i < samples.Length { samples[i] := 0; }
      }
      played := played + written;
      ok, buffer := releases, samples[..];
      Filled(buffer, q[..start], start);
    }

    // The first buffer, then the start.
    method Begin(d: Device) returns (ok: bool, buffer: seq<int>)
      requires Valid() && !playing && LatencyMs(pcm.frames) >= jitter.target
      modifies this, pcm
      ensures Valid() && decoded == old(decoded) && skipped == old(skipped) && dropped == old(dropped)
      ensures buffer + pcm.Queue() == old(pcm.Queue()) && played - old(played) == old(pcm.frames) - pcm.frames
      ensures |buffer| == Span(Taken(false, old(pcm.frames), jitter.target, d), pcm.channels)
      ensures ok == playing == PlaysOn(false, old(pcm.frames), jitter.target, d)
    {
      hide Span, Flat, ChunksOk;
      FlatLength(pcm.chunks, pcm.channels);
      SpanZero(pcm.channels);
      if d.room.None? { return false, []; }
      ok, buffer := WriteFrames(Min(d.room.value, pcm.frames), d.locks, d.releases);
      ok := ok && d.starts;
      playing := ok;
    }

    // The next buffer, or a stop when the queue cannot fill the room there is.
    method Continue(now: nat, d: Device) returns (ok: bool, buffer: seq<int>)
      requires Valid() && playing && now >= jitter.clock
      modifies this, pcm, jitter
      ensures Valid() && decoded == old(decoded) && skipped == old(skipped) && dropped == old(dropped)
      ensures buffer + pcm.Queue() == old(pcm.Queue()) && played - old(played) == old(pcm.frames) - pcm.frames
      ensures |buffer| == Span(Taken(true, old(pcm.frames), old(jitter.target), d), pcm.channels)
      ensures playing == PlaysOn(true, old(pcm.frames), old(jitter.target), d)
      ensures ok == (d.room.Some? && if old(pcm.frames) < d.room.value then d.stops else Fills(d.room.value, d))
      ensures if playing then jitter.target == old(jitter.target) && jitter.clock == old(jitter.clock)
              else jitter.stableSince == now
    {
      hide Span, Flat, ChunksOk;
      FlatLength(pcm.chunks, pcm.channels);
      SpanZero(pcm.channels);
      ok, buffer := true, [];
      if d.room.None? { return false, []; }
      if d.room.value != 0 && pcm.frames < d.room.value {
        if !d.stops { return false, []; }
        playing := false;
        jitter.Underrun(now);
      } else if d.room.value != 0 {
        ok, buffer := WriteFrames(d.room.value, d.locks, d.releases);
      }
    }

    // One turn with the device. What is taken for it is the head of the queue and never silence; the
    // rate asked for follows what is queued and still to be played.
    method ServiceOutput(now: nat, d: Device, fl: Jitter.Rounding) returns (ok: bool, buffer: seq<int>, rate: real)
      requires Valid() && now >= jitter.clock
      modifies this, pcm, jitter
      ensures Valid() && decoded == old(decoded) && skipped == old(skipped) && dropped == old(dropped)
      ensures buffer + pcm.Queue() == old(pcm.Queue()) && played - old(played) == old(pcm.frames) - pcm.frames
      ensures |buffer| == Span(Taken(old(playing), old(pcm.frames), old(jitter.target), d), pcm.channels)
      ensures playing == PlaysOn(old(playing), old(pcm.frames), old(jitter.target), d)
      ensures ok == Serves(old(playing), old(pcm.frames), old(jitter.target), d)
      ensures old(playing) && !playing ==> jitter.stableSince == now
      ensures playing || !old(playing) ==> jitter.target == old(jitter.target)
      ensures ok ==> rate == Jitter.PlaybackRate(fl, LatencyMs(pcm.frames) + d.padding.value, jitter.target)
    {
      hide Span, Flat, ChunksOk, LatencyMs, Jitter.PlaybackRate;
      ok, buffer, rate := true, [], 1.0;
      SpanZero(pcm.channels);
      assert [] + pcm.Queue() == pcm.Queue();
      if !playing && LatencyMs(pcm.frames) >= jitter.target {
        ok, buffer := Begin(d);
      } else if playing {
        ok, buffer := Continue(now, d);
      }
      if !ok || d.padding.None? { return false, buffer, rate; }
      rate := Jitter.PlaybackRate(fl, LatencyMs(pcm.frames) + d.padding.value, jitter.target);
      ok := d.rates;
    }

    // The worker's turn around it: the target may fall first, and a device that has gone is rebuilt, silent
    // but with the queue kept; any other failure ends the worker.
    method Turn(now: nat, d: Device, fl: Jitter.Rounding, invalidated: bool, rebuilds: bool)
      returns (running: bool, buffer: seq<int>)
      requires Valid() && now >= jitter.clock
      modifies this, pcm, jitter
      ensures Valid() && decoded == old(decoded) && skipped == old(skipped) && dropped == old(dropped)
      ensures buffer + pcm.Queue() == old(pcm.Queue())
      ensures var target := old(jitter.Lowered(now));
        && |buffer| == Span(Taken(old(playing), old(pcm.frames), target, d), pcm.channels)
        && running == (Serves(old(playing), old(pcm.frames), target, d) || (invalidated && rebuilds))
        && (running ==> playing == (Serves(old(playing), old(pcm.frames), target, d) &&
                                    PlaysOn(old(playing), old(pcm.frames), target, d)))
    {
      hide Flat, ChunksOk, Serves, PlaysOn, Taken, Jitter.Floor;
      var lowered := jitter.UpdateStable(now);
      var rate;
      running, buffer, rate := ServiceOutput(now, d, fl);
      if !running && invalidated && rebuilds {
        playing := false;
        running := true;
      }
    }
  }

  lemma Filled(buffer: seq<int>, head: seq<int>, start: nat)
    requires |head| == start <= |buffer| && buffer[..start] == head
    requires forall i :: start <= i < |buffer| ==> buffer[i] == 0
    ensures buffer == head + seq(|buffer| - start, _ => 0)
  {
  }
}
