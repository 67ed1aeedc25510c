/**
 The shared ring buffer over whole runs (the layout and rule stated in src/client/mmap.rs:13-22).
 The server is an environment: it changes only bytes that `data_start` says are free and sends its
 draws in order; this client's decode thread takes draws first in, first out, copies bytes one at a
 time and then stores the end of the last chunk in `data_start`.
 */
module Ring {
  import opened Wrappers
  import opened Bytes
  import Mmap

  type Chunk = Mmap.Chunk

  // A draw and the bytes the server wrote for it.
  datatype Draw = Draw(chunks: seq<Chunk>, bytes: seq<byte>)

  // What the decode thread has copied of the draw at the head of the queue.
  datatype Reader = Waiting | Copying(copied: map<nat, byte>)

  datatype State = State(
    mem: seq<byte>,
    start: nat,                  // the word data_start; zero until the first release
    end: nat,                    // the word data_end; zero until the first draw
    pending: seq<Draw>,          // sent, not yet released
    reader: Reader,
    released: seq<(Draw, map<nat, byte>)>)   // released draws, and what was copied of each

  // ---------------------------------------------------------------- positions on the ring

  // The mapping starts zero-filled. The server takes a pointer into the control words for the first
  // byte after them.
  function Pointer(word: nat): nat {
    if word < Mmap.HEADER_SIZE then Mmap.HEADER_SIZE else word
  }

  function Start(s: State): nat { Pointer(s.start) }

  function End(s: State): nat { Pointer(s.end) }

  // The ring's bytes are 8..size; a position is where a pointer may stand, `size` included.
  predicate Position(size: nat, p: nat) {
    Mmap.HEADER_SIZE <= p <= size
  }

  // Byte `p` lies in the stretch from `a` forward to `b`.
  predicate Between(a: nat, b: nat, p: nat) {
    if a <= b then a <= p < b else p >= a || p < b
  }

  // How many bytes that stretch holds.
  function Distance(size: nat, a: nat, b: nat): int
    requires size >= Mmap.HEADER_SIZE
  {
    if a <= b then b - a else b - a + (size - Mmap.HEADER_SIZE)
  }

  lemma DistanceAdds(size: nat, a: nat, b: nat, c: nat, p: nat)
    requires size > Mmap.HEADER_SIZE && Position(size, a) && Position(size, b) && Position(size, c)
    requires Distance(size, a, b) + Distance(size, b, c) < size - Mmap.HEADER_SIZE
    requires Mmap.HEADER_SIZE <= p < size
    ensures Distance(size, a, c) == Distance(size, a, b) + Distance(size, b, c)
    ensures Between(a, c, p) <==> Between(a, b, p) || Between(b, c, p)
    ensures !(Between(a, b, p) && Between(b, c, p))
  {
  }

  // ---------------------------------------------------------------- steps

  datatype Action =
    | Scribble(mem: seq<byte>)   // the server changes free bytes, in any order, in any amount
    | Send(draw: Draw)           // ... and sends a draw over bytes it has written
    | Take                       // the decode thread starts on the oldest draw
    | Copy(index: nat)           // ... reads one logical byte of it
    | Release                    // ... and gives its space back

  function Capacity(s: State): int {
    |s.mem| - Mmap.HEADER_SIZE
  }

  ghost predicate Placed(size: nat, a: nat, d: Draw) {
    && d.chunks != []
    && (forall i :: 0 <= i < |d.chunks| ==> Mmap.HEADER_SIZE <= d.chunks[i].offset && d.chunks[i].offset + d.chunks[i].length <= size)
    && forall p :: Mmap.Uses(d.chunks, p) ==> Between(a, Mmap.EndOf(d.chunks), p)
  }

  ghost predicate Enabled(s: State, a: Action) {
    |s.mem| > Mmap.HEADER_SIZE &&
    match a
    case Scribble(mem) =>
      |mem| == |s.mem| && forall p :: Mmap.HEADER_SIZE <= p < |mem| && Between(Start(s), End(s), p) ==> mem[p] == s.mem[p]
    case Send(d) =>
      // the new stretch begins where the last ended and stops short of data_start
      && Placed(|s.mem|, End(s), d)
      && Distance(|s.mem|, Start(s), End(s)) + Distance(|s.mem|, End(s), Mmap.EndOf(d.chunks)) < Capacity(s)
      && Mmap.Logical(s.mem, d.chunks) == d.bytes
    case Take => s.reader.Waiting? && s.pending != []
    case Copy(index) =>
      && s.reader.Copying? && s.pending != [] && Mmap.AllInRange(s.mem, s.pending[0].chunks)
      && index < |Mmap.Logical(s.mem, s.pending[0].chunks)|
    case Release => s.reader.Copying? && s.pending != [] && s.pending[0].chunks != []
  }

  function Next(s: State, a: Action): State
    requires Enabled(s, a)
  {
    match a
    case Scribble(mem) => s.(mem := mem)
    case Send(d) => s.(pending := s.pending + [d], end := Mmap.EndOf(d.chunks))
    case Take => s.(reader := Copying(map[]))
    case Copy(index) =>
      s.(reader := Copying(s.reader.copied[index := Mmap.Logical(s.mem, s.pending[0].chunks)[index]]))
    case Release =>
      s.(start := Mmap.EndOf(s.pending[0].chunks) % 0x1_0000_0000, pending := s.pending[1..], reader := Waiting,
         released := s.released + [(s.pending[0], s.reader.copied)])
  }

  predicate Initial(s: State) {
    && Mmap.HEADER_SIZE < |s.mem| <= Mmap.MAX_SIZE
    && s.start == s.end == 0 && s.pending == [] && s.reader == Waiting && s.released == []
  }

  ghost predicate Runs(s: State, actions: seq<Action>)
    decreases |actions|
  {
    actions != [] ==> Enabled(s, actions[0]) && Runs(Next(s, actions[0]), actions[1..])
  }

  function After(s: State, actions: seq<Action>): State
    requires Runs(s, actions)
    decreases |actions|
  {
    if actions == [] then s else After(Next(s, actions[0]), actions[1..])
  }

  // At first both pointers stand right after the control words, and all but one byte is free.
  lemma FreeAtFirst(s: State)
    requires Initial(s)
    ensures Start(s) == 8 && End(s) == 8 && Capacity(s) == |s.mem| - 8
    ensures Distance(|s.mem|, Start(s), End(s)) == 0
    ensures forall p: nat :: 8 <= p < |s.mem| ==> !Between(Start(s), End(s), p)
  {
  }

  // What lies between the pointers: on from the first, around the end and back to the second.
  lemma BetweenMeans(size: nat, a: nat, b: nat, p: nat)
    requires 8 <= a <= size && 8 <= b <= size && 8 <= p < size
    ensures a <= b ==> (Between(a, b, p) <==> a <= p < b) && Distance(size, a, b) == b - a
    ensures a > b ==> (Between(a, b, p) <==> p >= a || p < b) && Distance(size, a, b) == (size - a) + (b - 8)
  {
  }

  // ---------------------------------------------------------------- the invariant

  // The pending draws follow one another from `a` to `e`.
  ghost predicate Laid(size: nat, a: nat, pending: seq<Draw>, e: nat)
    decreases |pending|
  {
    if pending == [] then a == e
    else Placed(size, a, pending[0]) && Laid(size, Mmap.EndOf(pending[0].chunks), pending[1..], e)
  }

  function Total(size: nat, a: nat, pending: seq<Draw>): int
    requires size >= Mmap.HEADER_SIZE && forall d <- pending :: d.chunks != []
    decreases |pending|
  {
    if pending == [] then 0
    else Distance(size, a, Mmap.EndOf(pending[0].chunks)) + Total(size, Mmap.EndOf(pending[0].chunks), pending[1..])
  }

  predicate Agrees(copied: map<nat, byte>, bytes: seq<byte>) {
    forall i <- copied :: i < |bytes| && copied[i] == bytes[i]
  }

  predicate Intact(mem: seq<byte>, d: Draw) {
    Mmap.AllInRange(mem, d.chunks) && Mmap.Logical(mem, d.chunks) == d.bytes
  }

  ghost predicate Pointers(s: State) {
    && Mmap.HEADER_SIZE < |s.mem| <= Mmap.MAX_SIZE && Position(|s.mem|, Start(s)) && Position(|s.mem|, End(s))
    && (forall d <- s.pending :: d.chunks != [])
    && Laid(|s.mem|, Start(s), s.pending, End(s)) && Total(|s.mem|, Start(s), s.pending) < Capacity(s)
  }

  ghost predicate Contents(s: State) {
    && (forall i :: 0 <= i < |s.pending| ==> Intact(s.mem, s.pending[i]))
    && (s.reader.Copying? ==> s.pending != [] && Agrees(s.reader.copied, s.pending[0].bytes))
    && (forall i :: 0 <= i < |s.released| ==> Agrees(s.released[i].1, s.released[i].0.bytes))
  }

  // Every byte of the chunks is on the ring, between `a` and `e`.
  ghost predicate Covered(size: nat, a: nat, e: nat, chunks: seq<Chunk>) {
    forall p: nat :: Mmap.Uses(chunks, p) ==> Mmap.HEADER_SIZE <= p < size && Between(a, e, p)
  }

  lemma PlacedCovered(size: nat, a: nat, d: Draw, e: nat)
    requires size > Mmap.HEADER_SIZE && Position(size, a) && Position(size, e) && Placed(size, a, d)
    requires Distance(size, a, Mmap.EndOf(d.chunks)) + Distance(size, Mmap.EndOf(d.chunks), e) < size - Mmap.HEADER_SIZE
    ensures Covered(size, a, e, d.chunks)
  {
  }

  lemma CoveredFurther(size: nat, a: nat, b: nat, e: nat, chunks: seq<Chunk>)
    requires size > Mmap.HEADER_SIZE && Position(size, a) && Position(size, b) && Position(size, e)
    requires Distance(size, a, b) + Distance(size, b, e) < size - Mmap.HEADER_SIZE
    requires Covered(size, b, e, chunks)
    ensures Covered(size, a, e, chunks)
  {
  }

  lemma {:induction false} LaidSpans(size: nat, a: nat, pending: seq<Draw>, e: nat)
    requires size > Mmap.HEADER_SIZE && Position(size, a) && (forall d <- pending :: d.chunks != [])
    requires Laid(size, a, pending, e) && Total(size, a, pending) < size - Mmap.HEADER_SIZE
    ensures Position(size, e) && Distance(size, a, e) == Total(size, a, pending) >= 0
    ensures forall i :: 0 <= i < |pending| ==> Covered(size, a, e, pending[i].chunks)
    decreases |pending|
  {
    hide Covered;
    if pending != [] {
      var b, rest := Mmap.EndOf(pending[0].chunks), pending[1..];
      LaidSpans(size, b, rest, e);
      DistanceAdds(size, a, b, e, Mmap.HEADER_SIZE);
      PlacedCovered(size, a, pending[0], e);
      forall i | 1 <= i < |pending|
        ensures Covered(size, a, e, pending[i].chunks)
      {
        assert pending[i] == rest[i - 1];
        CoveredFurther(size, a, b, e, rest[i - 1].chunks);
      }
    }
  }

  // ---------------------------------------------------------------- each step keeps it

  ghost predicate SameUsed(mem: seq<byte>, mem': seq<byte>, chunks: seq<Chunk>) {
    |mem| == |mem'| && forall p: nat :: Mmap.Uses(chunks, p) ==> p < |mem| && mem[p] == mem'[p]
  }

  lemma {:induction false} LogicalDependsOnUsed(mem: seq<byte>, mem': seq<byte>, chunks: seq<Chunk>)
    requires Mmap.AllInRange(mem, chunks) && SameUsed(mem, mem', chunks)
    ensures Mmap.AllInRange(mem', chunks) && Mmap.Logical(mem', chunks) == Mmap.Logical(mem, chunks)
  {
    if chunks != [] {
      var c := chunks[0];
      forall p: nat | c.offset <= p < c.offset + c.length ensures mem[p] == mem'[p] {
        assert Mmap.Uses(chunks, p);
      }
      forall p: nat | Mmap.Uses(chunks[1..], p) ensures p < |mem| && mem[p] == mem'[p] {
        var i :| 0 <= i < |chunks[1..]| && chunks[1..][i].offset <= p < chunks[1..][i].offset + chunks[1..][i].length;
        assert chunks[i + 1] == chunks[1..][i];
        assert Mmap.Uses(chunks, p);
      }
      LogicalDependsOnUsed(mem, mem', chunks[1..]);
      assert mem[c.offset..c.offset + c.length] == mem'[c.offset..c.offset + c.length];
    }
  }

  // No unreleased byte is ever overwritten by the server.
  lemma PendingUntouched(s: State, mem: seq<byte>)
    requires Pointers(s) && Enabled(s, Scribble(mem))
    ensures forall i :: 0 <= i < |s.pending| ==> SameUsed(s.mem, mem, s.pending[i].chunks)
  {
    LaidSpans(|s.mem|, Start(s), s.pending, End(s));
    forall i | 0 <= i < |s.pending|
      ensures SameUsed(s.mem, mem, s.pending[i].chunks)
    {
      assert Covered(|s.mem|, Start(s), End(s), s.pending[i].chunks);
    }
  }

  lemma ScribbleKeepsContents(s: State, mem: seq<byte>)
    requires Pointers(s) && Contents(s) && Enabled(s, Scribble(mem))
    ensures Pointers(Next(s, Scribble(mem))) && Contents(Next(s, Scribble(mem)))
  {
    PendingUntouched(s, mem);
    forall i | 0 <= i < |s.pending| ensures Intact(mem, s.pending[i]) {
      assert Intact(s.mem, s.pending[i]);
      LogicalDependsOnUsed(s.mem, mem, s.pending[i].chunks);
    }
  }

  lemma {:induction false} LaidAppend(size: nat, a: nat, pending: seq<Draw>, e: nat, d: Draw)
    requires size >= Mmap.HEADER_SIZE && (forall x <- pending :: x.chunks != [])
    requires Laid(size, a, pending, e) && Placed(size, e, d)
    ensures forall x <- pending + [d] :: x.chunks != []
    ensures Laid(size, a, pending + [d], Mmap.EndOf(d.chunks))
    ensures Total(size, a, pending + [d]) == Total(size, a, pending) + Distance(size, e, Mmap.EndOf(d.chunks))
    decreases |pending|
  {
    if pending == [] {
      assert [d][1..] == [];
    } else {
      LaidAppend(size, Mmap.EndOf(pending[0].chunks), pending[1..], e, d);
      assert (pending + [d])[1..] == pending[1..] + [d];
    }
  }

  lemma SendKeeps(s: State, d: Draw)
    requires Pointers(s) && Contents(s) && Enabled(s, Send(d))
    ensures Pointers(Next(s, Send(d))) && Contents(Next(s, Send(d)))
  {
    LaidSpans(|s.mem|, Start(s), s.pending, End(s));
    LaidAppend(|s.mem|, Start(s), s.pending, End(s), d);
    assert Intact(s.mem, d);
  }

  // The stored end of the last chunk is exact, and the next draw starts there.
  lemma ReleaseKeepsPointers(s: State)
    requires Pointers(s) && Enabled(s, Release)
    ensures Start(Next(s, Release)) == Next(s, Release).start == Mmap.EndOf(s.pending[0].chunks)
    ensures Pointers(Next(s, Release))
  {
    hide Placed;
    LaidSpans(|s.mem|, Start(s), s.pending, End(s));
    EndIsPosition(|s.mem|, Start(s), s.pending[0]);
    LaidSpans(|s.mem|, Mmap.EndOf(s.pending[0].chunks), s.pending[1..], End(s));
  }

  lemma EndIsPosition(size: nat, a: nat, d: Draw)
    requires Placed(size, a, d)
    ensures Position(size, Mmap.EndOf(d.chunks))
  {
  }

  lemma ReleaseKeepsContents(s: State)
    requires Contents(s) && Enabled(s, Release)
    ensures Contents(Next(s, Release))
  {
  }

  lemma StepKeeps(s: State, a: Action)
    requires Pointers(s) && Contents(s) && Enabled(s, a)
    ensures Pointers(Next(s, a)) && Contents(Next(s, a))
  {
    match a
    case Scribble(mem) => ScribbleKeepsContents(s, mem);
    case Send(d) => SendKeeps(s, d);
    case Take =>
    case Copy(index) => assert Intact(s.mem, s.pending[0]);
    case Release =>
      ReleaseKeepsPointers(s);
      ReleaseKeepsContents(s);
  }

  lemma {:induction false} RunKeeps(s: State, actions: seq<Action>)
    requires Pointers(s) && Contents(s) && Runs(s, actions)
    ensures Pointers(After(s, actions)) && Contents(After(s, actions))
    decreases |actions|
  {
    hide Pointers, Contents, Enabled, Next;
    if actions != [] {
      StepKeeps(s, actions[0]);
      RunKeeps(Next(s, actions[0]), actions[1..]);
    }
  }

  // ---------------------------------------------------------------- whole runs

  // The draws the server sent, in order.
  function Sends(actions: seq<Action>): seq<Draw> {
    if actions == [] then []
    else (if actions[0].Send? then [actions[0].draw] else []) + Sends(actions[1..])
  }

  function Draws(released: seq<(Draw, map<nat, byte>)>): seq<Draw> {
    seq(|released|, i requires 0 <= i < |released| => released[i].0)
  }

  // Every draw so far, released or pending, oldest first.
  function History(s: State): seq<Draw> {
    Draws(s.released) + s.pending
  }

  lemma StepConserves(s: State, a: Action)
    requires Enabled(s, a)
    ensures History(Next(s, a)) == History(s) + if a.Send? then [a.draw] else []
  {
  }

  lemma NothingSent()
    ensures Sends([]) == []
  {
  }

  lemma FirstSend(actions: seq<Action>)
    requires actions != []
    ensures Sends(actions) == (if actions[0].Send? then [actions[0].draw] else []) + Sends(actions[1..])
  {
  }

  lemma {:induction false} NothingLost(s: State, actions: seq<Action>)
    requires Runs(s, actions)
    ensures History(After(s, actions)) == History(s) + Sends(actions)
    decreases |actions|
  {
    hide Enabled, Next, History, Sends;
    if actions == [] {
      NothingSent();
    } else {
      StepConserves(s, actions[0]);
      FirstSend(actions);
      NothingLost(Next(s, actions[0]), actions[1..]);
    }
  }

  // Ring safety: in every run, the draws are released in the order they were sent, and every byte the
  // decode thread copied of any of them is the byte the server wrote for it.
  lemma EveryDrawReadsItsOwnBytes(s: State, actions: seq<Action>)
    requires Initial(s) && Runs(s, actions)
    ensures var e := After(s, actions);
      && History(e) == Sends(actions)
      && (forall i :: 0 <= i < |e.released| ==> Agrees(e.released[i].1, e.released[i].0.bytes))
      && (e.reader.Copying? ==> e.pending != [] && Agrees(e.reader.copied, e.pending[0].bytes))
      && (forall i :: 0 <= i < |e.pending| ==> Intact(e.mem, e.pending[i]))
  {
    InitialKeeps(s);
    hide Runs, After, Pointers, Sends, Intact, Agrees, Draws, Initial;
    RunKeeps(s, actions);
    NothingLost(s, actions);
    assert [] + Sends(actions) == Sends(actions);
  }

  lemma InitialKeeps(s: State)
    requires Initial(s)
    ensures Pointers(s) && Contents(s) && History(s) == []
  {
  }

  // ---------------------------------------------------------------- de-striding inside a run

  // The mapping after the first `t` steps of a run.
  function MemAfter(s: State, actions: seq<Action>, t: nat): seq<byte>
    requires Runs(s, actions)
    decreases |actions|
  {
    if t == 0 || actions == [] then s.mem else MemAfter(Next(s, actions[0]), actions[1..], t - 1)
  }

  lemma HeldStep(s: State, a: Action)
    requires Pointers(s) && Contents(s) && Enabled(s, a) && s.reader.Copying? && a != Release
    ensures var n := Next(s, a);
      && n.reader.Copying? && s.pending != [] && n.pending != [] && n.pending[0] == s.pending[0]
      && SameUsed(s.mem, n.mem, s.pending[0].chunks)
  {
    UsedInside(s.mem, s.pending[0].chunks);
    if a.Scribble? { PendingUntouched(s, a.mem); }
  }

  lemma UsedInside(mem: seq<byte>, chunks: seq<Chunk>)
    requires Mmap.AllInRange(mem, chunks)
    ensures SameUsed(mem, mem, chunks)
  {
    forall p: nat | Mmap.Uses(chunks, p) ensures p < |mem| {
      var i :| 0 <= i < |chunks| && chunks[i].offset <= p < chunks[i].offset + chunks[i].length;
    }
  }

  // While the decode thread holds a draw, no byte of it changes, whatever the server does meanwhile.
  lemma {:induction false} HeldSteady(s: State, actions: seq<Action>, t: nat)
    requires Pointers(s) && Contents(s) && Runs(s, actions) && s.reader.Copying? && Release !in actions
    ensures s.pending != [] && SameUsed(s.mem, MemAfter(s, actions, t), s.pending[0].chunks)
    decreases |actions|
  {
    hide Pointers, Contents, Enabled, Next, SameUsed;
    if t == 0 || actions == [] {
      HeldNow(s);
    } else {
      var n := Next(s, actions[0]);
      assert actions[0] in actions && forall a <- actions[1..] :: a in actions;
      StepKeeps(s, actions[0]);
      HeldStep(s, actions[0]);
      HeldSteady(n, actions[1..], t - 1);
      SameTwice(s.mem, n.mem, MemAfter(n, actions[1..], t - 1), s.pending[0].chunks);
    }
  }

  lemma HeldNow(s: State)
    requires Contents(s) && s.reader.Copying?
    ensures s.pending != [] && SameUsed(s.mem, s.mem, s.pending[0].chunks)
  {
    assert Intact(s.mem, s.pending[0]);
    UsedInside(s.mem, s.pending[0].chunks);
  }

  lemma SameTwice(a: seq<byte>, b: seq<byte>, c: seq<byte>, chunks: seq<Chunk>)
    requires SameUsed(a, b, chunks) && SameUsed(b, c, chunks)
    ensures SameUsed(a, c, chunks)
  {
  }

  // ---------------------------------------------------------------- draws do go through

  lemma RunFirst(s: State, a: Action, actions: seq<Action>)
    requires Enabled(s, a) && Runs(Next(s, a), actions)
    ensures Runs(s, [a] + actions) && After(s, [a] + actions) == After(Next(s, a), actions)
  {
    assert ([a] + actions)[1..] == actions;
  }

  lemma RunNothing(s: State)
    ensures Runs(s, []) && After(s, []) == s
  {
  }

  // The server may send any draw that leaves one byte of the ring free, and no larger one.
  lemma FirstDrawFits(s: State, length: nat)
    requires Initial(s)
    requires length > 0
    requires 8 + length <= |s.mem|
    ensures Enabled(s, Send(Draw([Mmap.Chunk(8, length)], s.mem[8..8 + length]))) <==> length < |s.mem| - 8
  {
    var chunks := [Mmap.Chunk(8, length)];
    assert chunks[1..] == [];
    assert Mmap.Logical(s.mem, chunks) == s.mem[8..8 + length];
    assert Mmap.EndOf(chunks) == 8 + length;
  }

  const READS: seq<Action> := [Take] + ([Copy(0)] + ([Release] + []))

  lemma HeadIsRead(s: State, d: Draw)
    requires |s.mem| > Mmap.HEADER_SIZE && s.pending == [d] && s.reader.Waiting?
    requires Intact(s.mem, d) && d.bytes != [] && d.chunks != []
    ensures Runs(s, READS)
    ensures After(s, READS) == s.(start := Mmap.EndOf(d.chunks) % 0x1_0000_0000, pending := [],
                                  released := s.released + [(d, map[0 := d.bytes[0]])])
  {
    hide Runs, After, Mmap.Logical, Mmap.AllInRange, Placed;
    var taken := Next(s, Take);
    var copied := Next(taken, Copy(0));
    var end := Next(copied, Release);
    assert copied.reader.copied == map[0 := d.bytes[0]];
    RunNothing(end);
    RunFirst(copied, Release, []);
    RunFirst(taken, Copy(0), [Release] + []);
    RunFirst(s, Take, [Copy(0)] + ([Release] + []));
  }

  lemma SentIsHead(s: State, d: Draw)
    requires Enabled(s, Send(d)) && s.pending == [] && |s.mem| <= Mmap.MAX_SIZE
    ensures var sent := Next(s, Send(d));
      sent == s.(pending := [d], end := Mmap.EndOf(d.chunks)) && Intact(s.mem, d) && d.chunks != []
    ensures Mmap.EndOf(d.chunks) % 0x1_0000_0000 == Mmap.EndOf(d.chunks)
  {
    EndIsPosition(|s.mem|, End(s), d);
  }

  // Any draw the server may send while none is pending is read and given back, and the next one
  // may begin where it ended.
  lemma DrawGoesThrough(s: State, d: Draw)
    requires Enabled(s, Send(d)) && s.pending == [] && s.reader.Waiting? && |s.mem| <= Mmap.MAX_SIZE
    requires d.bytes != []
    ensures var actions := [Send(d)] + READS;
      && Runs(s, actions)
      && var e := After(s, actions);
         && e.pending == [] && e.released == s.released + [(d, map[0 := d.bytes[0]])]
         && e.reader == Waiting && e.mem == s.mem && e.start == e.end == Mmap.EndOf(d.chunks)
  {
    SentIsHead(s, d);
    var sent := Next(s, Send(d));
    assert |s.mem| > Mmap.HEADER_SIZE;
    hide Enabled, Next, Runs, After, Intact, READS, Mmap.EndOf;
    HeadIsRead(sent, d);
    RunFirst(s, Send(d), READS);
  }

  // The de-striding copy run in the middle of a session: `before` led to the decode thread holding a
  // draw, and `during` is what happens while it copies, each byte read at any moment of it. The image
  // is an image of the bytes the server wrote for that draw.
  method ReadHeldDraw(s: State, before: seq<Action>, during: seq<Action>, w: nat, h: nat, rowstride: nat)
    returns (r: Mmap.Result<seq<byte>>)
    requires Initial(s) && Runs(s, before) && After(s, before).reader.Copying?
    requires Runs(After(s, before), during) && Release !in during
    requires w < 0x8000_0000 && h < 0x8000_0000 && rowstride < 0x8000_0000
    ensures var e := After(s, before);
      && e.pending != []
      && match Mmap.Refusal(e.mem, e.pending[0].chunks, w, h, rowstride)
         case Some(error) => r == Mmap.Err(error)
         case None => r.Ok? && Mmap.IsImage(r.value, e.pending[0].bytes, w, h, Mmap.Stride(w, rowstride))
  {
    hide Runs, After, MemAfter, SameUsed, Mmap.Refusal, Mmap.IsImage;
    var e := After(s, before);
    RunKeeps(s, before);
    var mem: Mmap.Memory := t => MemAfter(e, during, t);
    HeldNow(e);
    SteadyDuring(e, during, mem);
    assert Intact(e.mem, e.pending[0]);
    r := Mmap.Destride(mem, |e.mem|, e.mem, e.pending[0].chunks, w, h, rowstride);
  }

  lemma SteadyDuring(s: State, actions: seq<Action>, mem: Mmap.Memory)
    requires Pointers(s) && Contents(s) && Runs(s, actions) && s.reader.Copying? && Release !in actions
    requires forall t: nat :: Mmap.Moment(mem, t) == MemAfter(s, actions, t)
    ensures s.pending != [] && Mmap.Steady(mem, s.mem, s.pending[0].chunks)
  {
    hide MemAfter, Pointers, Runs;
    HeldNow(s);
    forall t: nat ensures Mmap.SameBytes(Mmap.Moment(mem, t), s.mem, s.pending[0].chunks) {
      HeldSteady(s, actions, t);
    }
  }
}
