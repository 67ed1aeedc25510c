/**
 The adaptive jitter target (src/client/audio.rs): a window of arrival jitter, a target that rises on
 underruns and falls slowly, and the playback rate that follows the queue.
 */
module Jitter {
  import opened Wrappers
  import opened Ints

  const START_TARGET: nat := 120
  const MIN_TARGET: nat := 80
  const MAX_TARGET: nat := 400
  const WINDOW: nat := 256
  const STABLE_MS: nat := 30_000

  // ---------------------------------------------------------------- the 95th percentile

  predicate Sorted(s: seq<u32>) {
    forall i, j :: 0 <= i < j < |s| ==> s[i] <= s[j]
  }

  function CountAtMost(s: seq<u32>, v: u32): nat {
    if s == [] then 0 else (if s[0] <= v then 1 else 0) + CountAtMost(s[1..], v)
  }

  function CountBelow(s: seq<u32>, v: u32): nat {
    if s == [] then 0 else (if s[0] < v then 1 else 0) + CountBelow(s[1..], v)
  }

  function Insert(s: seq<u32>, v: u32): (r: seq<u32>)
    ensures |r| == |s| + 1
  {
    if s == [] || v <= s[0] then [v] + s else [s[0]] + Insert(s[1..], v)
  }

  // Stands for the library's sort.
  function SortedCopy(s: seq<u32>): (r: seq<u32>)
    ensures |r| == |s|
  {
    if s == [] then [] else Insert(SortedCopy(s[1..]), s[0])
  }

  function Percentile(window: seq<u32>): u32 {
    if window == [] then 0
    else
      var index := ((|window| - 1) * 95 + 99) / 100;
      SortedCopy(window)[index]
  }

  lemma {:induction false} InsertSorted(s: seq<u32>, v: u32)
    requires Sorted(s)
    ensures Sorted(Insert(s, v))
    ensures s != [] ==> Insert(s, v)[0] == if v <= s[0] then v else s[0]
  {
    if s != [] && v > s[0] { InsertSorted(s[1..], v); }
  }

  lemma {:induction false} InsertCounts(s: seq<u32>, v: u32, x: u32)
    ensures CountAtMost(Insert(s, v), x) == CountAtMost(s, x) + if v <= x then 1 else 0
    ensures CountBelow(Insert(s, v), x) == CountBelow(s, x) + if v < x then 1 else 0
    ensures x in Insert(s, v) <==> x in s || x == v
  {
    if s == [] || v <= s[0] {
      assert ([v] + s)[1..] == s;
    } else {
      InsertCounts(s[1..], v, x);
      assert ([s[0]] + Insert(s[1..], v))[1..] == Insert(s[1..], v);
    }
  }

  lemma {:induction false} SortedCopyCounts(s: seq<u32>, x: u32)
    ensures Sorted(SortedCopy(s))
    ensures CountAtMost(SortedCopy(s), x) == CountAtMost(s, x) && CountBelow(SortedCopy(s), x) == CountBelow(s, x)
    ensures x in SortedCopy(s) <==> x in s
  {
    if s != [] {
      SortedCopyCounts(s[1..], x);
      InsertSorted(SortedCopy(s[1..]), s[0]);
      InsertCounts(SortedCopy(s[1..]), s[0], x);
    }
  }

  // In a sorted sequence the value at an index has at least that many before it and none of them above.
  lemma {:induction false} SortedRank(s: seq<u32>, i: nat)
    requires Sorted(s) && i < |s|
    ensures CountAtMost(s, s[i]) >= i + 1 && CountBelow(s, s[i]) <= i
  {
    if i == 0 {
      NoneBelow(s, s[0]);
    } else {
      SortedRank(s[1..], i - 1);
    }
  }

  lemma {:induction false} NoneBelow(s: seq<u32>, v: u32)
    requires forall i :: 0 <= i < |s| ==> v <= s[i]
    ensures CountBelow(s, v) == 0
  {
    if s != [] { NoneBelow(s[1..], v); }
  }

  lemma {:induction false} CountsMean(s: seq<u32>, v: u32)
    ensures CountAtMost(s, v) == |set i: nat | i < |s| && s[i] <= v|
    ensures CountBelow(s, v) == |set i: nat | i < |s| && s[i] < v|
  {
    if s != [] {
      CountsMean(s[1..], v);
      assert forall i: nat :: i < |s| - 1 ==> s[1..][i] == s[i + 1];
      MovedUp(set i: nat | i < |s[1..]| && s[1..][i] <= v, set i: nat | i < |s| && s[i] <= v);
      MovedUp(set i: nat | i < |s[1..]| && s[1..][i] < v, set i: nat | i < |s| && s[i] < v);
    }
  }

  predicate Follows(a: set<nat>, b: set<nat>, i: nat) {
    i in a <==> i + 1 in b
  }

  // The same places one further up, and perhaps the first.
  lemma {:induction false} MovedUp(a: set<nat>, b: set<nat>)
    requires forall i: nat :: Follows(a, b, i)
    ensures |b| == |a| + if 0 in b then 1 else 0
    decreases a
  {
    if a == {} {
      forall x <- b ensures x == 0 { assert x > 0 ==> Follows(a, b, x - 1); }
      if 0 in b { assert b == {0}; } else { assert b == {}; }
    } else {
      var x :| x in a;
      assert Follows(a, b, x);
      var a', b' := a - {x}, b - {x + 1};
      forall i: nat ensures Follows(a', b', i) { assert Follows(a, b, i); }
      MovedUp(a', b');
    }
  }

  // It is an element of the window, at least 95% of the samples are not above it, and no more than
  // the rank asks for are below.
  lemma {:induction false} PercentileIsP95(window: seq<u32>)
    requires window != []
    ensures var v := Percentile(window);
      && v in window
      && 100 * CountAtMost(window, v) >= 95 * |window|
      && 100 * CountBelow(window, v) <= 95 * (|window| - 1) + 99
  {
    var index := ((|window| - 1) * 95 + 99) / 100;
    var sorted := SortedCopy(window);
    SortedCopyCounts(window, sorted[index]);
    SortedRank(sorted, index);
  }

  // ---------------------------------------------------------------- the controller

  // The lowest target the jitter allows; the doubling is a u32 operation and wraps.
  function Floor(window: seq<u32>): (f: nat)
    ensures MIN_TARGET <= f <= MAX_TARGET
  {
    Clamp((MIN_TARGET + 2 * Percentile(window)) % M32)
  }

  function Clamp(n: nat): nat {
    if n < MIN_TARGET then MIN_TARGET else if n > MAX_TARGET then MAX_TARGET else n
  }

  // Cut to what a target may be, and left alone in between.
  lemma ClampMeans(n: nat)
    ensures Clamp(n) == if n <= 80 then 80 else if n >= 400 then 400 else n
  {
  }

  // The floor a window asks for, while the u32 sum does not wrap: 80 and twice the 95th percentile, cut
  // to 400. A steady stream allows 80 and 100 ms of jitter 280.
  lemma FloorMeans(window: seq<u32>)
    requires Percentile(window) < 0x7FFF_FF00
    ensures var sum := 80 + 2 * Percentile(window); Floor(window) == if sum >= 400 then 400 else sum
    ensures Floor([]) == 80 && Floor([100]) == 280
  {
    PercentileIsP95([100]);
  }

  // It is the clamped sum exactly when the u32 sum does not wrap, or wraps to something the clamp
  // still cuts to the top.
  lemma FloorIsExact(window: seq<u32>)
    ensures var sum := MIN_TARGET + 2 * Percentile(window);
      Floor(window) == Clamp(sum) <==> sum < M32 || sum % M32 >= MAX_TARGET
  {
  }

  // One jitter sample of 2^31 ms wraps the sum, and the floor falls to the bottom instead of the top.
  lemma FloorMayWrap()
    ensures Floor([0x8000_0000]) == MIN_TARGET && Clamp(MIN_TARGET + 2 * Percentile([0x8000_0000])) == MAX_TARGET
  {
    PercentileIsP95([0x8000_0000]);
  }

  function Minus(a: nat, b: nat): nat {
    if a < b then 0 else a - b
  }

  function AbsDiff(a: u32, b: u32): u32 {
    if a < b then b - a else a - b
  }

  // One jitter sample: how far the time since the last packet is from that packet's duration, either
  // way; a clock that went back counts as no time.
  lemma SampleMeans(now: nat, last: nat, duration: u32)
    ensures now >= last && now - last < 0x1_0000_0000 ==>
              var late: int := now - last - duration;
              AbsDiff(Minus(now, last), duration) == if late >= 0 then late else -late
    ensures now < last ==> AbsDiff(Minus(now, last), duration) == duration
  {
  }

  // Times at which the target was lowered: each at least 30s after the one before, the first at
  // least 30s after `start`.
  predicate Spaced(start: nat, times: seq<nat>) {
    forall i :: 0 <= i < |times| ==> SpacedAt(start, times, i)
  }

  predicate SpacedAt(start: nat, times: seq<nat>, i: nat)
    requires i < |times|
  {
    times[i] >= (if i == 0 then start else times[i - 1]) + STABLE_MS
  }

  method Newest(all: seq<u32>) returns (window: seq<u32>)
    ensures window == if |all| <= WINDOW then all else all[|all| - WINDOW..]
  {
    window := all;
    while |window| > WINDOW
      invariant |window| <= |all| && window == all[|all| - |window|..]
      invariant |window| >= WINDOW || window == all
    {
      window := window[1..];
    }
  }

  class AdaptiveJitter {
    var target: nat
    var window: seq<u32>
    var lastArrival: Option<nat>
    var lastDuration: u32
    var stableSince: nat
    // when the controller was made, the latest time it was told, and when it lowered its target
    ghost const start: nat
    ghost var clock: nat
    ghost var lowered: seq<nat>

    ghost predicate Valid()
      reads this
    {
      && MIN_TARGET <= target <= MAX_TARGET && |window| <= WINDOW
      && start <= stableSince <= clock
      && Spaced(start, lowered)
      && (lowered != [] ==> lowered[|lowered| - 1] <= stableSince)
    }

    constructor (now: nat)
      ensures Valid() && target == 120 && window == [] && start == clock == now && lowered == []
    {
      target, window, lastArrival, lastDuration, stableSince := START_TARGET, [], None, 0, now;
      start, clock, lowered := now, now, [];
    }

    // One jitter sample per packet after the first; only the newest 256 are kept.
    method ObservePacket(now: nat, duration: u32)
      requires Valid()
      modifies `window, `lastArrival, `lastDuration
      ensures Valid() && target == old(target) && lowered == old(lowered) && stableSince == old(stableSince)
      ensures clock == old(clock) && lastArrival == Some(now) && lastDuration == duration
      ensures match old(lastArrival)
              case None => window == old(window)
              case Some(last) =>
                var gap := Minus(now, last);
                var all := old(window) + [AbsDiff(if gap < M32 then gap else M32 - 1, old(lastDuration))];
                window == if |all| <= 256 then all else all[|all| - 256..]
    {
      hide Spaced;
      if lastArrival.Some? {
        var gap := Minus(now, lastArrival.value);
        var actual: u32 := if gap < M32 then gap else M32 - 1;
        window := Newest(window + [AbsDiff(actual, lastDuration)]);
      }
      lastArrival, lastDuration := Some(now), duration;
    }

    method Underrun(now: nat)
      requires Valid() && now >= clock
      modifies this
      ensures Valid() && target == (if old(target) + 40 > 400 then 400 else old(target) + 40)
      ensures clock == stableSince == now && lowered == old(lowered) && window == old(window)
    {
      target := if target + 40 > MAX_TARGET then MAX_TARGET else target + 40;
      stableSince := now;
      clock := now;
    }

    // The target once the stable time is looked at.
    ghost function Lowered(now: nat): nat
      reads this
    {
      if now < stableSince + STABLE_MS || target <= Floor(window) then target
      else if target - 10 > Floor(window) then target - 10
      else Floor(window)
    }

    // Lowers the target by at most 10, never below the floor, and at most once in 30s.
    method UpdateStable(now: nat) returns (changed: bool)
      requires Valid() && now >= clock
      modifies this
      ensures Valid() && clock == now && window == old(window)
      ensures changed <==> now >= old(stableSince) + 30_000 && old(target) > Floor(window)
      ensures target == if !changed then old(target)
                        else if old(target) - 10 > Floor(window) then old(target) - 10 else Floor(window)
      ensures lowered == if changed then old(lowered) + [now] else old(lowered)
      ensures target == old(Lowered(now))
    {
      clock := now;
      if Minus(now, stableSince) < STABLE_MS { return false; }
      var floor := Floor(window);
      var before := target;
      if target > floor {
        target := if Minus(target, 10) > floor then Minus(target, 10) else floor;
      }
      stableSince := now;
      changed := target != before;
      if changed {
        SpacedAppend(start, lowered, now);
        lowered := lowered + [now];
      }
    }

    lemma StaysInRange()
      requires Valid()
      ensures 80 <= target <= 400 && |window| <= 256
    {
    }

    // Over the whole life of the controller it was lowered at most once per 30s of clock.
    lemma LoweredRarely()
      requires Valid()
      ensures 30_000 * |lowered| <= clock - start
      ensures forall i, j :: 0 <= i < j < |lowered| ==> lowered[i] + 30_000 <= lowered[j]
    {
      SpacedSpan(start, lowered);
      forall i, j | 0 <= i < j < |lowered| ensures lowered[i] + STABLE_MS <= lowered[j] {
        SpacedPair(start, lowered, i, j);
      }
    }
  }

  lemma SpacedAppend(start: nat, times: seq<nat>, now: nat)
    requires Spaced(start, times) && now >= (if times == [] then start else times[|times| - 1]) + STABLE_MS
    ensures Spaced(start, times + [now])
  {
    forall i | 0 <= i < |times| + 1 ensures SpacedAt(start, times + [now], i) {
      if i < |times| { assert SpacedAt(start, times, i); }
    }
  }

  lemma {:induction false} SpacedSpan(start: nat, times: seq<nat>)
    requires Spaced(start, times)
    ensures times != [] ==> times[|times| - 1] - start >= STABLE_MS * |times|
  {
    if |times| == 1 {
      assert SpacedAt(start, times, 0);
    } else if |times| > 1 {
      var before := times[..|times| - 1];
      forall i | 0 <= i < |before| ensures SpacedAt(start, before, i) {
        assert SpacedAt(start, times, i);
      }
      assert SpacedAt(start, times, |before|);
      SpacedSpan(start, before);
    }
  }

  lemma {:induction false} SpacedPair(start: nat, times: seq<nat>, i: nat, j: nat)
    requires Spaced(start, times) && i < j < |times|
    ensures times[j] - times[i] >= STABLE_MS
  {
    assert SpacedAt(start, times, j);
    if i < j - 1 { SpacedPair(start, times, i, j - 1); }
  }

  // ---------------------------------------------------------------- the playback rate

  // How a computed value becomes an f32: all that is used of the rounding is that it keeps order and
  // leaves 0, 1, 80 and what is already rounded alone.
  type Rounding = real -> real

  function Round(fl: Rounding, x: real): real {
    fl(x)
  }

  ghost predicate Rounds(fl: Rounding) {
    && (forall x: real, y: real :: x <= y ==> Round(fl, x) <= Round(fl, y))
    && (forall x: real :: Round(fl, Round(fl, x)) == Round(fl, x))
    && Round(fl, 0.0) == 0.0 && Round(fl, 1.0) == 1.0 && Round(fl, 80.0) == 80.0
  }

  // The share of the half percent, from how far outside the deadband the queue is.
  function Share(fl: Rounding, beyond: nat): real {
    var scaled := Round(fl, Round(fl, beyond as real) / 80.0);
    if scaled < 1.0 then scaled else 1.0
  }

  function Magnitude(fl: Rounding, beyond: nat): real {
    Round(fl, Times(Share(fl, beyond), Round(fl, 0.005)))
  }

  function PlaybackRate(fl: Rounding, queued: int, target: int): real {
    var error := queued - target;
    var size := if error < 0 then -error else error;
    if size <= 20 then 1.0
    else if error > 0 then Round(fl, 1.0 + Magnitude(fl, size - 20))
    else Round(fl, 1.0 - Magnitude(fl, size - 20))
  }

  function Times(x: real, y: real): real {
    x * y
  }

  lemma Grows(x: real, y: real, k: real)
    requires x <= y && k >= 0.0
    ensures Times(x, k) <= Times(y, k) && Times(0.0, k) == 0.0 && Times(1.0, k) == k
  {
    assert (y - x) * k >= 0.0;
  }

  lemma RoundGrows(fl: Rounding, x: real, y: real)
    requires Rounds(fl) && x <= y
    ensures Round(fl, x) <= Round(fl, y) && Round(fl, Round(fl, x)) == Round(fl, x)
    ensures Round(fl, Round(fl, y)) == Round(fl, y) && Round(fl, 0.0) == 0.0
  {
  }

  lemma ShareGrows(fl: Rounding, a: nat, b: nat)
    requires Rounds(fl) && a <= b
    ensures 0.0 <= Share(fl, a) <= Share(fl, b) <= 1.0
    ensures a >= 80 ==> Share(fl, a) == 1.0
  {
    var x, y := Round(fl, a as real), Round(fl, b as real);
    assert 0.0 <= x <= y;
    assert 0.0 <= x / 80.0 <= y / 80.0;
  }

  lemma MagnitudeGrows(fl: Rounding, a: nat, b: nat)
    requires Rounds(fl) && a <= b
    ensures 0.0 <= Magnitude(fl, a) <= Magnitude(fl, b) <= Round(fl, 0.005)
    ensures a >= 80 ==> Magnitude(fl, a) == Round(fl, 0.005)
  {
    hide Share, Rounds;
    ShareGrows(fl, a, b);
    var k := Round(fl, 0.005);
    RoundGrows(fl, 0.0, 0.005);
    var x, y := Times(Share(fl, a), k), Times(Share(fl, b), k);
    Grows(Share(fl, a), Share(fl, b), k);
    Grows(0.0, Share(fl, a), k);
    Grows(Share(fl, b), 1.0, k);
    RoundGrows(fl, 0.0, x);
    RoundGrows(fl, x, y);
    RoundGrows(fl, y, k);
    hide Times;
  }

  function Beyond(queued: int, target: int): nat {
    var size := if queued < target then target - queued else queued - target;
    if size <= 20 then 0 else size - 20
  }

  // In f32 arithmetic, whatever its rounding: a longer queue never plays slower, the rate is normal
  // within 20ms of the target, and it stays within the half percent it reaches 100ms from it.
  lemma RateFollowsQueue(fl: Rounding, a: int, b: int, target: int)
    requires Rounds(fl) && a <= b
    ensures PlaybackRate(fl, a, target) <= PlaybackRate(fl, b, target)
    ensures Round(fl, 1.0 - Round(fl, 0.005)) <= PlaybackRate(fl, a, target) <= Round(fl, 1.0 + Round(fl, 0.005))
    ensures -20 <= a - target <= 20 ==> PlaybackRate(fl, a, target) == 1.0
    ensures a - target >= 100 ==> PlaybackRate(fl, a, target) == Round(fl, 1.0 + Round(fl, 0.005))
    ensures a - target <= -100 ==> PlaybackRate(fl, a, target) == Round(fl, 1.0 - Round(fl, 0.005))
  {
    hide Magnitude;
    var x, y := Beyond(a, target), Beyond(b, target);
    MagnitudeGrows(fl, x, x);
    MagnitudeGrows(fl, y, y);
    if x <= y { MagnitudeGrows(fl, x, y); } else { MagnitudeGrows(fl, y, x); }
  }

  // Without rounding, the rate is normal only there and at its limits only from there on, and a straight
  // line in between.
  lemma ExactRate(queued: int, target: int)
    ensures var rate := PlaybackRate(x => x, queued, target);
      && (rate == 1.0 <==> -20 <= queued - target <= 20)
      && (rate == 1.005 <==> queued - target >= 100) && (rate == 0.995 <==> queued - target <= -100)
      && (20 <= queued - target <= 100 ==> 16000.0 * (rate - 1.0) == (queued - target - 20) as real)
      && (20 <= target - queued <= 100 ==> 16000.0 * (1.0 - rate) == (target - queued - 20) as real)
  {
  }
}
