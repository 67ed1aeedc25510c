/**
 The lock around a TLS session shared by the reader and writer threads (src/net/tls.rs).
 Threads are the ids of a map, so there may be any number of them; a step is what one thread does
 between two points where another may run.
 */
module TlsLock {
  import opened Wrappers
  import opened Bytes

  // What the TLS library says to one attempt to write.
  datatype Attempt = Took(count: nat) | WouldBlock | Broken

  datatype Phase =
    | Idle
    | WantsWrite(buf: seq<byte>)
    | Writing(buf: seq<byte>, offset: nat)
    | WantsRead
    | Reading

  // A buffer a thread gave to `write_all`, and how much of it went out before it returned.
  datatype Piece = Piece(owner: nat, buf: seq<byte>, written: nat)

  datatype State = State(threads: map<nat, Phase>, holder: Option<nat>, wire: seq<byte>,
                         finished: seq<Piece>, failed: bool)

  datatype Action =
    | CallWrite(buf: seq<byte>)
    | LockToWrite
    | TryWrite(result: Attempt)
    | ReturnFromWrite
    | CallRead
    | LockToRead
    | ReadWouldBlock      // drops the lock, sleeps, tries again
    | ReadReturns

  predicate Enabled(s: State, t: nat, a: Action) {
    t in s.threads &&
    var p := s.threads[t];
    match a
    case CallWrite(_) => p.Idle?
    case CallRead => p.Idle?
    case LockToWrite => p.WantsWrite? && s.holder.None?
    case LockToRead => p.WantsRead? && s.holder.None?
    case TryWrite(result) =>
      p.Writing? && p.offset < |p.buf| && (result.Took? ==> result.count <= |p.buf| - p.offset)
    case ReturnFromWrite => p.Writing? && p.offset == |p.buf|
    case ReadWouldBlock => p.Reading?
    case ReadReturns => p.Reading?
  }

  function Next(s: State, t: nat, a: Action): State
    requires Enabled(s, t, a)
  {
    var p := s.threads[t];
    match a
    case CallWrite(buf) => s.(threads := s.threads[t := WantsWrite(buf)])
    case CallRead => s.(threads := s.threads[t := WantsRead])
    case LockToWrite => s.(threads := s.threads[t := Writing(p.buf, 0)], holder := Some(t))
    case LockToRead => s.(threads := s.threads[t := Reading], holder := Some(t))
    case TryWrite(Took(count)) =>
      s.(threads := s.threads[t := Writing(p.buf, p.offset + count)],
         wire := s.wire + p.buf[p.offset..p.offset + count])
    case TryWrite(WouldBlock) => s   // sleeps with the lock held
    case TryWrite(Broken) =>
      s.(threads := s.threads[t := Idle], holder := None,
         finished := s.finished + [Piece(t, p.buf, p.offset)], failed := true)
    case ReturnFromWrite =>
      s.(threads := s.threads[t := Idle], holder := None,
         finished := s.finished + [Piece(t, p.buf, p.offset)])
    case ReadWouldBlock => s.(threads := s.threads[t := WantsRead], holder := None)
    case ReadReturns => s.(threads := s.threads[t := Idle], holder := None)
  }

  predicate Initial(s: State) {
    s.holder.None? && s.wire == [] && s.finished == [] && !s.failed && forall t <- s.threads :: s.threads[t].Idle?
  }

  datatype Event = Event(thread: nat, action: Action)

  // The states of a run that starts at `s` and takes `events` in turn.
  predicate Runs(s: State, events: seq<Event>)
    decreases |events|
  {
    events != [] ==>
      Enabled(s, events[0].thread, events[0].action) &&
      Runs(Next(s, events[0].thread, events[0].action), events[1..])
  }

  function After(s: State, events: seq<Event>): State
    requires Runs(s, events)
    decreases |events|
  {
    if events == [] then s else After(Next(s, events[0].thread, events[0].action), events[1..])
  }

  // ---------------------------------------------------------------- what is on the wire

  // What of a buffer has gone out.
  function Prefix(buf: seq<byte>, count: nat): seq<byte> {
    if count <= |buf| then buf[..count] else []
  }

  function PieceBytes(pieces: seq<Piece>): seq<byte> {
    if pieces == [] then []
    else PieceBytes(pieces[..|pieces| - 1]) + Prefix(pieces[|pieces| - 1].buf, pieces[|pieces| - 1].written)
  }

  function InProgress(s: State): seq<byte> {
    if s.holder.Some? && s.holder.value in s.threads && s.threads[s.holder.value].Writing? then
      Prefix(s.threads[s.holder.value].buf, s.threads[s.holder.value].offset)
    else []
  }

  predicate Holds(p: Phase) {
    p.Writing? || p.Reading?
  }

  // The lock belongs to the one thread inside a write or a read attempt, if any.
  predicate LockInv(s: State) {
    && (forall t <- s.threads :: Holds(s.threads[t]) ==> s.holder == Some(t))
    && (s.holder.Some? ==> s.holder.value in s.threads && Holds(s.threads[s.holder.value]))
    && (forall t <- s.threads :: s.threads[t].Writing? ==> s.threads[t].offset <= |s.threads[t].buf|)
  }

  // A write has failed exactly when some piece is cut short.
  predicate PiecesInv(s: State) {
    && (forall p <- s.finished :: p.written <= |p.buf|)
    && (s.failed <==> exists p <- s.finished :: p.written < |p.buf|)
  }

  predicate Inv(s: State) {
    LockInv(s) && PiecesInv(s) && s.wire == PieceBytes(s.finished) + InProgress(s)
  }

  lemma PieceBytesAppend(pieces: seq<Piece>, p: Piece)
    ensures PieceBytes(pieces + [p]) == PieceBytes(pieces) + Prefix(p.buf, p.written)
  {
  }

  lemma StepKeepsLock(s: State, t: nat, a: Action)
    requires LockInv(s) && Enabled(s, t, a)
    ensures LockInv(Next(s, t, a))
  {
  }

  lemma StepKeepsPieces(s: State, t: nat, a: Action)
    requires LockInv(s) && PiecesInv(s) && Enabled(s, t, a)
    ensures PiecesInv(Next(s, t, a))
  {
  }

  predicate Ends(a: Action) {
    a == ReturnFromWrite || a == TryWrite(Broken)
  }

  // Returning hands what was in progress over to the finished pieces.
  lemma EndMovesPiece(s: State, t: nat, a: Action)
    requires LockInv(s) && Enabled(s, t, a) && Ends(a)
    ensures var n := Next(s, t, a);
      n.wire == s.wire && PieceBytes(n.finished) + InProgress(n) == PieceBytes(s.finished) + InProgress(s)
  {
    var p := s.threads[t];
    PieceBytesAppend(s.finished, Piece(t, p.buf, p.offset));
    assert InProgress(s) == Prefix(p.buf, p.offset);
    assert InProgress(Next(s, t, a)) == [];
  }

  // The bytes this step puts on the wire.
  function Accepted(s: State, t: nat, a: Action): seq<byte>
    requires Enabled(s, t, a)
  {
    if a.TryWrite? && a.result.Took? then s.threads[t].buf[s.threads[t].offset..][..a.result.count] else []
  }

  // Only the holder's accepted bytes change what is in progress.
  lemma ProgressFollowsWire(s: State, t: nat, a: Action)
    requires LockInv(s) && Enabled(s, t, a) && !Ends(a)
    ensures var n := Next(s, t, a);
      && n.wire == s.wire + Accepted(s, t, a) && n.finished == s.finished
      && InProgress(n) == InProgress(s) + Accepted(s, t, a)
  {
    if a.TryWrite? && a.result.Took? {
      var buf, offset, count := s.threads[t].buf, s.threads[t].offset, a.result.count;
      assert s.holder == Some(t);
      assert Accepted(s, t, a) == buf[offset..offset + count];
      assert buf[..offset + count] == buf[..offset] + buf[offset..offset + count];
    } else {
      assert Accepted(s, t, a) == [] && s.wire + [] == s.wire && InProgress(s) + [] == InProgress(s);
    }
  }

  lemma StepKeepsInv(s: State, t: nat, a: Action)
    requires Inv(s) && Enabled(s, t, a)
    ensures Inv(Next(s, t, a))
  {
    StepKeepsLock(s, t, a);
    StepKeepsPieces(s, t, a);
    hide LockInv, PiecesInv, PieceBytes, InProgress, Enabled, Next, Accepted;
    if Ends(a) {
      EndMovesPiece(s, t, a);
    } else {
      ProgressFollowsWire(s, t, a);
      var pieces, progress, more := PieceBytes(s.finished), InProgress(s), Accepted(s, t, a);
      assert (pieces + progress) + more == pieces + (progress + more);
    }
  }

  lemma {:induction false} RunKeepsInv(s: State, events: seq<Event>)
    requires Inv(s) && Runs(s, events)
    ensures Inv(After(s, events))
    decreases |events|
  {
    hide Inv, Enabled, Next;
    if events != [] {
      StepKeepsInv(s, events[0].thread, events[0].action);
      RunKeepsInv(Next(s, events[0].thread, events[0].action), events[1..]);
    }
  }

  // Under every interleaving: the wire carries the buffers in the order their writers held the lock,
  // then a prefix of the holder's buffer, and never bytes of two buffers mixed. One of them is cut
  // short if and only if a write has failed.
  lemma WritersNeverInterleave(s: State, events: seq<Event>)
    requires Initial(s) && Runs(s, events)
    ensures var e := After(s, events);
      && (forall p <- e.finished :: p.written <= |p.buf|)
      && (e.failed <==> exists p <- e.finished :: p.written < |p.buf|)
      && e.wire == PieceBytes(e.finished) + InProgress(e)
  {
    RunKeepsInv(s, events);
  }

  // ---------------------------------------------------------------- who waits for whom

  // A read that would block gives the lock up before it sleeps, so any thread that waits for it can
  // have it; a write that would block keeps the lock and sends nothing.
  lemma BlockedReadLetsOthersIn(s: State, t: nat)
    requires Inv(s) && Enabled(s, t, ReadWouldBlock)
    ensures var n := Next(s, t, ReadWouldBlock);
      && n.holder == None && n.threads[t] == WantsRead && n.wire == s.wire
      && forall u <- n.threads ::
           && (n.threads[u].WantsWrite? ==> Enabled(n, u, LockToWrite))
           && (n.threads[u].WantsRead? ==> Enabled(n, u, LockToRead))
  {
  }

  lemma BlockedWriteKeepsLock(s: State, t: nat, u: nat)
    requires Inv(s) && Enabled(s, t, TryWrite(WouldBlock))
    ensures var n := Next(s, t, TryWrite(WouldBlock));
      && n.holder == Some(t) && n.threads[t] == s.threads[t] && n.wire == s.wire
      && !Enabled(n, u, LockToWrite) && !Enabled(n, u, LockToRead)
  {
  }

  // Returning from a write or a read gives the lock up too.
  lemma ReturnFreesLock(s: State, t: nat, a: Action)
    requires Inv(s) && Enabled(s, t, a) && (a == ReturnFromWrite || a == TryWrite(Broken) || a == ReadReturns)
    ensures Next(s, t, a).holder == None && Next(s, t, a).threads[t] == Idle
  {
  }

  lemma RunFirst(s: State, e: Event, events: seq<Event>)
    requires Enabled(s, e.thread, e.action) && Runs(Next(s, e.thread, e.action), events)
    ensures Runs(s, [e] + events) && After(s, [e] + events) == After(Next(s, e.thread, e.action), events)
  {
    assert ([e] + events)[1..] == events;
  }

  lemma RunNothing(s: State)
    ensures Runs(s, []) && After(s, []) == s
  {
  }

  function Writes(t: nat, buf: seq<byte>, count: nat): seq<Event>
    requires count <= |buf|
  {
    [Event(t, TryWrite(Took(count)))] + ([Event(t, TryWrite(WouldBlock))] +
    ([Event(t, TryWrite(Took(|buf| - count)))] + ([Event(t, ReturnFromWrite)] + [])))
  }

  lemma HolderWrites(s: State, t: nat, buf: seq<byte>, count: nat)
    requires t in s.threads && s.threads[t] == Writing(buf, 0) && count < |buf|
    ensures Runs(s, Writes(t, buf, count))
    ensures After(s, Writes(t, buf, count)) ==
            s.(threads := s.threads[t := Idle], holder := None, wire := s.wire + buf,
               finished := s.finished + [Piece(t, buf, |buf|)])
  {
    var first, wait, second := Event(t, TryWrite(Took(count))), Event(t, TryWrite(WouldBlock)), Event(t, TryWrite(Took(|buf| - count)));
    var part := Next(s, t, first.action);
    var whole := Next(part, t, second.action);
    var end := Next(whole, t, ReturnFromWrite);
    assert s.wire + buf[0..count] + buf[count..|buf|] == s.wire + buf;
    assert end.threads == s.threads[t := Idle];
    hide Runs, After;
    RunNothing(end);
    RunFirst(whole, Event(t, ReturnFromWrite), []);
    var last := [Event(t, ReturnFromWrite)] + [];
    RunFirst(part, second, last);
    RunFirst(part, wait, [second] + last);
    RunFirst(s, first, [wait] + ([second] + last));
  }

  // Whenever the lock is free, a thread with nothing to do can put a whole buffer on the wire: here in
  // two writes with a wait between them. Nothing else has changed then.
  lemma BufferGoesOut(s: State, t: nat, buf: seq<byte>, count: nat)
    requires s.holder.None? && t in s.threads && s.threads[t].Idle? && count < |buf|
    ensures var events := [Event(t, CallWrite(buf))] + ([Event(t, LockToWrite)] + Writes(t, buf, count));
      && Runs(s, events)
      && After(s, events) == s.(wire := s.wire + buf, finished := s.finished + [Piece(t, buf, |buf|)])
  {
    var called := Next(s, t, CallWrite(buf));
    var locked := Next(called, t, LockToWrite);
    hide Runs, After, Writes;
    HolderWrites(locked, t, buf, count);
    assert locked.threads[t := Idle] == s.threads;
    RunFirst(called, Event(t, LockToWrite), Writes(t, buf, count));
    RunFirst(s, Event(t, CallWrite(buf)), [Event(t, LockToWrite)] + Writes(t, buf, count));
  }

  // ---------------------------------------------------------------- every buffer once

  // The buffers thread `t` asks to write, in order.
  function Asked(events: seq<Event>, t: nat): seq<seq<byte>> {
    if events == [] then []
    else
      var e := events[0];
      (if e.thread == t && e.action.CallWrite? then [e.action.buf] else []) + Asked(events[1..], t)
  }

  // The buffers of the pieces thread `t` put on the wire.
  function Finished(pieces: seq<Piece>, t: nat): seq<seq<byte>> {
    if pieces == [] then []
    else
      var p := pieces[|pieces| - 1];
      Finished(pieces[..|pieces| - 1], t) + if p.owner == t then [p.buf] else []
  }

  function Pending(s: State, t: nat): seq<seq<byte>> {
    if t !in s.threads then []
    else match s.threads[t]
         case WantsWrite(buf) => [buf]
         case Writing(buf, _) => [buf]
         case _ => []
  }

  // Returning moves the caller's buffer from pending to finished; calling makes it pending.
  lemma PendingStep(s: State, e: Event, t: nat)
    requires Enabled(s, e.thread, e.action)
    ensures var n := Next(s, e.thread, e.action);
      if Ends(e.action) && e.thread == t then Pending(s, t) == [s.threads[t].buf] && Pending(n, t) == []
      else if e.action.CallWrite? && e.thread == t then Pending(s, t) == [] && Pending(n, t) == [e.action.buf]
      else Pending(n, t) == Pending(s, t)
  {
  }

  lemma FinishedStep(s: State, e: Event, t: nat)
    requires Enabled(s, e.thread, e.action)
    ensures var n := Next(s, e.thread, e.action);
      Finished(n.finished, t) == Finished(s.finished, t) +
        if Ends(e.action) && e.thread == t then [s.threads[t].buf] else []
  {
    hide Finished;
    if Ends(e.action) {
      var p := s.threads[e.thread];
      FinishedAppend(s.finished, Piece(e.thread, p.buf, p.offset), t);
    }
  }

  lemma StepKeepsBuffers(s: State, e: Event, t: nat)
    requires Enabled(s, e.thread, e.action)
    ensures var n := Next(s, e.thread, e.action);
      Finished(n.finished, t) + Pending(n, t) == Finished(s.finished, t) + Pending(s, t) + Asked([e], t)
  {
    AskedOne(e, t);
    PendingStep(s, e, t);
    FinishedStep(s, e, t);
    hide Finished, Pending, Asked, Enabled, Next;
  }

  lemma FinishedAppend(pieces: seq<Piece>, p: Piece, t: nat)
    ensures Finished(pieces + [p], t) == Finished(pieces, t) + if p.owner == t then [p.buf] else []
  {
  }

  lemma AskedOne(e: Event, t: nat)
    ensures Asked([e], t) == if e.thread == t && e.action.CallWrite? then [e.action.buf] else []
  {
  }

  lemma AskedFirst(events: seq<Event>, t: nat)
    requires events != []
    ensures Asked(events, t) == Asked([events[0]], t) + Asked(events[1..], t)
  {
  }

  // Each thread's buffers reach the wire in the order it wrote them, each of them once; at most the
  // last is still on its way.
  lemma {:induction false} EveryBufferOnce(s: State, events: seq<Event>, t: nat)
    requires Runs(s, events)
    ensures var e := After(s, events);
      Finished(e.finished, t) + Pending(e, t) == Finished(s.finished, t) + Pending(s, t) + Asked(events, t)
    ensures |Pending(After(s, events), t)| <= 1
    decreases |events|
  {
    hide Enabled, Next, Finished, Asked;
    if events == [] {
      NothingAsked(t);
    } else {
      var n := Next(s, events[0].thread, events[0].action);
      StepKeepsBuffers(s, events[0], t);
      AskedFirst(events, t);
      EveryBufferOnce(n, events[1..], t);
    }
  }

  lemma NothingAsked(t: nat)
    ensures Asked([], t) == []
  {
  }

  // ---------------------------------------------------------------- the loop under the lock

  datatype WriteResult = Done | Failed | StillBlocked

  // The TLS session behind the lock; `wire` is what it has taken so far.
  class Session {
    var wire: seq<byte>

    constructor ()
      ensures wire == []
    {
      wire := [];
    }

    // `write_all` while it holds the lock. `attempts` is what the library answers, call by call; the
    // source waits for ever, here the answers may run out first.
    method WriteAll(buf: seq<byte>, attempts: seq<Attempt>) returns (r: WriteResult, offset: nat)
      requires forall a <- attempts :: a.Took? ==> a.count <= |buf|
      modifies this
      ensures offset <= |buf| && wire == old(wire) + buf[..offset]
      ensures r == Done <==> offset == |buf|
      ensures r == Failed ==> Broken in attempts
    {
      offset := 0;
      var i := 0;
      while offset < |buf|
        invariant offset <= |buf| && i <= |attempts| && wire == old(wire) + buf[..offset]
        decreases |attempts| - i
      {
        if i == |attempts| { return StillBlocked, offset; }
        match attempts[i] {
          case Took(n) =>
            // a write never takes more than it was offered
            var count := if n <= |buf| - offset then n else |buf| - offset;
            assert buf[..offset] + buf[offset..offset + count] == buf[..offset + count];
            wire := wire + buf[offset..offset + count];
            offset := offset + count;
          case WouldBlock =>
          case Broken => return Failed, offset;
        }
        i := i + 1;
      }
      r := Done;
    }
  }
}
