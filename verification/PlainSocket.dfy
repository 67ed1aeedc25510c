/**
 Two threads writing to one plain socket through separate handles (src/net/websocket.rs): there is no
 lock, so a buffer the socket takes in several parts may be cut open by the other thread's.
 */
module PlainSocket {
  import opened Bytes

  // What the socket took in one call, and from which thread.
  datatype Part = Part(owner: nat, bytes: seq<byte>)

  // A buffer, as the parts it was taken in.
  type Buffer = s: seq<Part> | |s| > 0 witness [Part(0, [])]

  function Flat(buffers: seq<Buffer>): seq<Part> {
    if buffers == [] then [] else buffers[0] + Flat(buffers[1..])
  }

  // `wire` is an interleaving of the two threads' parts.
  predicate Merges(a: seq<Part>, b: seq<Part>, wire: seq<Part>)
    decreases |a| + |b|
  {
    if a == [] then wire == b
    else if b == [] then wire == a
    else
      wire != [] &&
      ((wire[0] == a[0] && Merges(a[1..], b, wire[1..])) || (wire[0] == b[0] && Merges(a, b[1..], wire[1..])))
  }

  // `wire` is an interleaving of the two threads' buffers, each of them in one piece.
  predicate Whole(a: seq<Buffer>, b: seq<Buffer>, wire: seq<Part>)
    decreases |a| + |b|
  {
    if a == [] then wire == Flat(b)
    else if b == [] then wire == Flat(a)
    else
      (a[0] <= wire && Whole(a[1..], b, wire[|a[0]|..])) || (b[0] <= wire && Whole(a, b[1..], wire[|b[0]|..]))
  }

  predicate Owned(buffers: seq<Buffer>, owner: nat) {
    forall i, j :: 0 <= i < |buffers| && 0 <= j < |buffers[i]| ==> buffers[i][j].owner == owner
  }

  predicate Unsplit(buffers: seq<Buffer>) {
    forall i :: 0 <= i < |buffers| ==> |buffers[i]| == 1
  }

  lemma {:induction false} Mirrored(a: seq<Part>, b: seq<Part>, wire: seq<Part>)
    ensures Merges(a, b, wire) == Merges(b, a, wire)
    decreases |a| + |b|
  {
    if a != [] && b != [] && wire != [] {
      Mirrored(a[1..], b, wire[1..]);
      Mirrored(a, b[1..], wire[1..]);
    }
  }

  lemma {:induction false} WholeMirrored(a: seq<Buffer>, b: seq<Buffer>, wire: seq<Part>)
    ensures Whole(a, b, wire) == Whole(b, a, wire)
    decreases |a| + |b|
  {
    if a != [] && b != [] {
      if a[0] <= wire { WholeMirrored(a[1..], b, wire[|a[0]|..]); }
      if b[0] <= wire { WholeMirrored(a, b[1..], wire[|b[0]|..]); }
    }
  }

  // One thread's parts may all come before what is left of the other's.
  lemma {:induction false} OneAfterOther(b: seq<Part>, rest: seq<Part>)
    ensures Merges(rest, b, b + rest)
    decreases |b|
  {
    if rest == [] || b == [] {
      assert b + rest == if rest == [] then b else rest;
    } else {
      OneAfterOther(b[1..], rest);
      assert (b + rest)[1..] == b[1..] + rest;
    }
  }

  lemma {:induction false} Before(first: seq<Part>, a: seq<Part>, b: seq<Part>, wire: seq<Part>)
    requires b != [] && Merges(a, b, wire)
    ensures Merges(first + a, b, first + wire)
    decreases |first|
  {
    if first == [] {
      assert first + a == a && first + wire == wire;
    } else {
      Before(first[1..], a, b, wire);
      assert (first + a)[1..] == first[1..] + a && (first + wire)[1..] == first[1..] + wire;
    }
  }

  // The other thread's parts in the middle of buffer `k`.
  function Cut(a: seq<Buffer>, b: seq<Part>, k: nat): seq<Part>
    requires k < |a|
  {
    if k == 0 then [a[0][0]] + b + (a[0][1..] + Flat(a[1..])) else a[0] + Cut(a[1..], b, k - 1)
  }

  lemma {:induction false} CutMerges(a: seq<Buffer>, b: seq<Part>, k: nat)
    requires k < |a| && b != []
    ensures Merges(Flat(a), b, Cut(a, b, k))
    decreases k
  {
    if k == 0 {
      var rest := a[0][1..] + Flat(a[1..]);
      OneAfterOther(b, rest);
      Before([a[0][0]], rest, b, b + rest);
      assert a[0] == [a[0][0]] + a[0][1..];
      assert Flat(a) == [a[0][0]] + rest;
      assert Cut(a, b, k) == [a[0][0]] + (b + rest);
    } else {
      CutMerges(a[1..], b, k - 1);
      Before(a[0], Flat(a[1..]), b, Cut(a[1..], b, k - 1));
    }
  }

  lemma {:induction false} CutIsNotWhole(a: seq<Buffer>, b: seq<Buffer>, k: nat, x: nat, y: nat)
    requires k < |a| && |a[k]| >= 2 && b != [] && Owned(a, x) && Owned(b, y) && x != y
    ensures !Whole(a, b, Cut(a, Flat(b), k))
    decreases k
  {
    var wire := Cut(a, Flat(b), k);
    CutStarts(a, b, k);
    assert a[0][0].owner == x && b[0][0].owner == y;
    NotPrefix(b[0], wire, 0);
    if k == 0 {
      assert a[0][1].owner == x && wire[1] == b[0][0];
      NotPrefix(a[0], wire, 1);
    } else {
      TailOwned(a, x);
      CutIsNotWhole(a[1..], b, k - 1, x, y);
      assert wire[|a[0]|..] == Cut(a[1..], Flat(b), k - 1);
    }
  }

  lemma NotPrefix(a: seq<Part>, wire: seq<Part>, i: nat)
    requires i < |a| && i < |wire| && a[i] != wire[i]
    ensures !(a <= wire)
  {
  }

  lemma TailOwned(a: seq<Buffer>, x: nat)
    requires a != [] && Owned(a, x)
    ensures Owned(a[1..], x)
  {
    forall i, j | 0 <= i < |a[1..]| && 0 <= j < |a[1..][i]| ensures a[1..][i][j].owner == x {
      assert a[1..][i] == a[i + 1];
    }
  }

  lemma CutStarts(a: seq<Buffer>, b: seq<Buffer>, k: nat)
    requires k < |a| && b != []
    ensures var wire := Cut(a, Flat(b), k);
      |wire| > 1 && wire[0] == a[0][0] && (k == 0 ==> wire[1] == b[0][0])
  {
    assert Flat(b)[0] == b[0][0];
    if k > 0 { CutLength(a[1..], Flat(b), k - 1); }
  }

  lemma {:induction false} CutLength(a: seq<Buffer>, b: seq<Part>, k: nat)
    requires k < |a|
    ensures |Cut(a, b, k)| >= 1
  {
  }

  // Whichever buffer the socket splits, some interleaving cuts it open.
  lemma SplitIsCut(a: seq<Buffer>, b: seq<Buffer>, x: nat, y: nat)
    requires Owned(a, x) && Owned(b, y) && x != y && !Unsplit(a) && b != []
    ensures exists wire :: Merges(Flat(a), Flat(b), wire) && !Whole(a, b, wire)
  {
    var k :| 0 <= k < |a| && |a[k]| != 1;
    assert Flat(b) != [];
    CutMerges(a, Flat(b), k);
    CutIsNotWhole(a, b, k, x, y);
  }

  lemma {:induction false} UnsplitIsWhole(a: seq<Buffer>, b: seq<Buffer>, wire: seq<Part>)
    requires Unsplit(a) && Unsplit(b) && Merges(Flat(a), Flat(b), wire)
    ensures Whole(a, b, wire)
    decreases |a| + |b|
  {
    if a != [] && b != [] {
      FirstUnsplit(a);
      FirstUnsplit(b);
      if wire[0] == Flat(a)[0] && Merges(Flat(a)[1..], Flat(b), wire[1..]) {
        UnsplitIsWhole(a[1..], b, wire[1..]);
      } else {
        UnsplitIsWhole(a, b[1..], wire[1..]);
      }
      assert wire[..1] == [wire[0]];
    }
  }

  lemma FirstUnsplit(a: seq<Buffer>)
    requires a != [] && Unsplit(a)
    ensures Flat(a) != [] && a[0] == [Flat(a)[0]] && Flat(a)[1..] == Flat(a[1..]) && Unsplit(a[1..])
  {
    assert Flat(a) == a[0] + Flat(a[1..]);
  }

  // Every buffer of both threads stays in one piece under every interleaving exactly when the socket
  // took each of them at once, or one thread writes nothing.
  lemma WholeExactlyWhenUnsplit(a: seq<Buffer>, b: seq<Buffer>, x: nat, y: nat)
    requires Owned(a, x) && Owned(b, y) && x != y
    ensures (forall wire :: Merges(Flat(a), Flat(b), wire) ==> Whole(a, b, wire)) <==>
            a == [] || b == [] || (Unsplit(a) && Unsplit(b))
  {
    hide Unsplit, Owned;
    if a == [] || b == [] {
      forall wire | Merges(Flat(a), Flat(b), wire) ensures Whole(a, b, wire) { Alone(a, b, wire); }
    } else if !Unsplit(a) {
      SplitIsCut(a, b, x, y);
    } else if !Unsplit(b) {
      SplitIsCut(b, a, y, x);
      var wire :| Merges(Flat(b), Flat(a), wire) && !Whole(b, a, wire);
      Mirrored(Flat(b), Flat(a), wire);
      WholeMirrored(b, a, wire);
    } else {
      forall wire | Merges(Flat(a), Flat(b), wire) ensures Whole(a, b, wire) { UnsplitIsWhole(a, b, wire); }
    }
  }

  lemma Alone(a: seq<Buffer>, b: seq<Buffer>, wire: seq<Part>)
    requires (a == [] || b == []) && Merges(Flat(a), Flat(b), wire)
    ensures Whole(a, b, wire)
  {
  }

  // For one: a packet taken in two parts, with a pong between them.
  lemma PongInsidePacket()
    ensures var packet, pong := [Part(0, [0x50]), Part(0, [4])], [Part(1, [0x8A])];
      var wire := [packet[0], pong[0], packet[1]];
      Merges(Flat([packet]), Flat([pong]), wire) && !Whole([packet], [pong], wire)
  {
    var packet, pong := [Part(0, [0x50]), Part(0, [4])], [Part(1, [0x8A])];
    assert Flat([packet]) == packet && Flat([pong]) == pong;
    CutMerges([packet], pong, 0);
    CutIsNotWhole([packet], [pong], 0, 0, 1);
    assert packet[1..] + Flat([packet][1..]) == [packet[1]];
    assert Cut([packet], pong, 0) == [packet[0], pong[0], packet[1]];
  }
}
