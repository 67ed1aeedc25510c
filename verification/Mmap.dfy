/**
 Reading an image out of the shared memory area (src/client/mmap.rs): the de-striding copy over a
 list of chunks, the release that follows it, and the decode thread's use of both
 (src/client/client.rs).
 */
module Mmap {
  import opened Wrappers
  import opened Bytes

  const HEADER_SIZE: nat := 8
  const MAX_SIZE: nat := 0xFFFF_FFFF

  datatype Chunk = Chunk(offset: nat, length: nat)

  predicate InRange(area: seq<byte>, c: Chunk) {
    HEADER_SIZE <= c.offset && c.offset + c.length <= |area|
  }

  predicate AllInRange(area: seq<byte>, chunks: seq<Chunk>) {
    forall i :: 0 <= i < |chunks| ==> InRange(area, chunks[i])
  }

  // The byte stream the chunks stand for: their bytes, one chunk after another.
  function Logical(area: seq<byte>, chunks: seq<Chunk>): seq<byte>
    requires AllInRange(area, chunks)
  {
    if chunks == [] then []
    else area[chunks[0].offset..chunks[0].offset + chunks[0].length] + Logical(area, chunks[1..])
  }

  function TotalLength(chunks: seq<Chunk>): nat {
    if chunks == [] then 0 else chunks[0].length + TotalLength(chunks[1..])
  }

  lemma {:induction false} LogicalLength(area: seq<byte>, chunks: seq<Chunk>)
    requires AllInRange(area, chunks)
    ensures |Logical(area, chunks)| == TotalLength(chunks)
  {
    if chunks != [] { LogicalLength(area, chunks[1..]); }
  }

  lemma {:induction false} LogicalAppend(area: seq<byte>, chunks: seq<Chunk>, c: Chunk)
    requires AllInRange(area, chunks) && InRange(area, c)
    ensures AllInRange(area, chunks + [c])
    ensures Logical(area, chunks + [c]) == Logical(area, chunks) + area[c.offset..c.offset + c.length]
    ensures TotalLength(chunks + [c]) == TotalLength(chunks) + c.length
  {
    if chunks != [] {
      assert AllInRange(area, chunks[1..]);
      LogicalAppend(area, chunks[1..], c);
      assert (chunks + [c])[1..] == chunks[1..] + [c];
    }
  }

  // ---------------------------------------------------------------- the memory while it is read

  // The server may be writing elsewhere in the area: this is what the area holds at each moment.
  type Memory = nat -> seq<byte>

  function Moment(mem: Memory, moment: nat): seq<byte> {
    mem(moment)
  }

  predicate Uses(chunks: seq<Chunk>, p: nat) {
    exists i :: 0 <= i < |chunks| && chunks[i].offset <= p < chunks[i].offset + chunks[i].length
  }

  predicate SameBytes(now: seq<byte>, area: seq<byte>, chunks: seq<Chunk>) {
    |now| == |area| && forall p: nat :: p < |area| && Uses(chunks, p) ==> now[p] == area[p]
  }

  predicate SameSlice(now: seq<byte>, area: seq<byte>, from: nat, length: nat) {
    |now| == |area| && forall p: nat :: p < |area| && from <= p < from + length ==> now[p] == area[p]
  }

  // At every moment the chunks' own bytes are those of `area`.
  ghost predicate Steady(mem: Memory, area: seq<byte>, chunks: seq<Chunk>) {
    forall t: nat :: SameBytes(Moment(mem, t), area, chunks)
  }

  ghost predicate SteadySlice(mem: Memory, area: seq<byte>, from: nat, length: nat) {
    forall t: nat :: SameSlice(Moment(mem, t), area, from, length)
  }

  lemma SteadyPart(mem: Memory, area: seq<byte>, from: nat, length: nat, at: nat, take: nat)
    requires SteadySlice(mem, area, from, length) && from <= at && at + take <= from + length
    ensures SteadySlice(mem, area, at, take)
  {
    forall t: nat ensures SameSlice(Moment(mem, t), area, at, take) {
      assert SameSlice(Moment(mem, t), area, from, length);
    }
  }

  lemma SteadyChunk(mem: Memory, area: seq<byte>, chunks: seq<Chunk>, i: nat)
    requires Steady(mem, area, chunks) && i < |chunks|
    ensures SteadySlice(mem, area, chunks[i].offset, chunks[i].length)
  {
    forall t: nat ensures SameSlice(Moment(mem, t), area, chunks[i].offset, chunks[i].length) {
      assert SameBytes(Moment(mem, t), area, chunks);
    }
  }

  // ---------------------------------------------------------------- copy_logical

  // `copy_from_slice`, appending to what out[base..at] already holds. Each byte is read at a moment of
  // its own.
  method CopySlice(mem: Memory, ghost area: seq<byte>, from: nat, take: nat, out: array<byte>, ghost base: nat, at: nat)
    requires from + take <= |area| && base <= at && at + take <= out.Length && SteadySlice(mem, area, from, take)
    modifies out
    ensures out[base..at + take] == old(out[base..at]) + area[from..from + take]
    ensures forall k :: 0 <= k < out.Length && !(base <= k < at + take) ==> out[k] == old(out[k])
  {
    for i := 0 to take
      invariant forall k :: 0 <= k < out.Length && !(at <= k < at + i) ==> out[k] == old(out[k])
      invariant forall k :: at <= k < at + i ==> out[k] == area[from + (k - at)]
    {
      var moment: nat :| true;
      var now := Moment(mem, moment);
      assert SameSlice(now, area, from, take);
      out[at + i] := now[from + i];
    }
  }

  // `got` is copied of `want`, and the rest of it is what is left of `rest` after skipping `skip` bytes;
  // nothing is skipped any more once something is copied.
  predicate Copied(want: seq<byte>, got: seq<byte>, rest: seq<byte>, skip: nat) {
    skip <= |rest| && (got != [] ==> skip == 0) && want == got + rest[skip..]
  }

  lemma SkipChunk(want: seq<byte>, got: seq<byte>, head: seq<byte>, tail: seq<byte>, skip: nat)
    requires Copied(want, got, head + tail, skip) && skip >= |head|
    ensures Copied(want, got, tail, skip - |head|)
  {
  }

  // Taking `take` bytes of a chunk fills the room left, or uses the chunk up.
  lemma TakeChunk(want: seq<byte>, got: seq<byte>, head: seq<byte>, tail: seq<byte>, skip: nat, take: nat, room: nat)
    requires Copied(want, got, head + tail, skip) && skip < |head|
    requires take == if |head| - skip < room then |head| - skip else room
    ensures var more := got + head[skip..skip + take];
      if take < room then Copied(want, more, tail, 0) else more <= want
  {
    assert (head + tail)[skip..] == head[skip..skip + take] + (head + tail)[skip + take..];
    if take < room { assert (head + tail)[skip + take..] == tail[0..]; }
  }

  lemma InnerSlice(s: seq<byte>, at: nat, length: nat, skip: nat, take: nat)
    requires skip + take <= length && at + length <= |s|
    ensures s[at + skip..at + skip + take] == s[at..at + length][skip..skip + take]
  {
    var outer, inner := s[at..at + length], s[at + skip..at + skip + take];
    forall i | 0 <= i < take ensures inner[i] == outer[skip..skip + take][i] {
      assert inner[i] == s[at + skip + i] && outer[skip + i] == s[at + (skip + i)];
    }
  }

  // One turn of the loop: what chunk `c` contributes, `tail` being what the later chunks hold.
  method CopyChunk(mem: Memory, ghost area: seq<byte>, c: Chunk, out: array<byte>, base: nat, count: nat,
                   skip: nat, written: nat, ghost want: seq<byte>, ghost tail: seq<byte>)
    returns (skip': nat, written': nat)
    requires SteadySlice(mem, area, c.offset, c.length)
    requires InRange(area, c) && base + count <= out.Length && written <= count
    requires Copied(want, out[base..base + written], area[c.offset..c.offset + c.length] + tail, skip)
    modifies out
    ensures forall k :: 0 <= k < out.Length && !(base <= k < base + written') ==> out[k] == old(out[k])
    ensures written <= written' <= count
    ensures if written' < count then Copied(want, out[base..base + written'], tail, skip')
            else out[base..base + count] <= want
  {
    hide Copied, SteadySlice;
    ghost var got, head := out[base..base + written], area[c.offset..c.offset + c.length];
    if skip >= c.length {
      SkipChunk(want, got, head, tail, skip);
      CopiedPrefix(want, got, tail, skip - c.length);
      return skip - c.length, written;
    }
    var from := c.offset + skip;
    var take := if c.length - skip < count - written then c.length - skip else count - written;
    TakeChunk(want, got, head, tail, skip, take, count - written);
    InnerSlice(area, c.offset, c.length, skip, take);
    SteadyPart(mem, area, c.offset, c.length, from, take);
    CopySlice(mem, area, from, take, out, base, base + written);
    skip', written' := 0, written + take;
  }

  lemma CopiedPrefix(want: seq<byte>, got: seq<byte>, rest: seq<byte>, skip: nat)
    requires Copied(want, got, rest, skip)
    ensures got <= want && (rest == [] ==> got == want)
  {
  }

  // Fills out[base..base + count] with the logical bytes from `start` on, and nothing else.
  method CopyLogical(mem: Memory, ghost area: seq<byte>, chunks: seq<Chunk>, start: nat,
                     out: array<byte>, base: nat, count: nat)
    requires Steady(mem, area, chunks)
    requires AllInRange(area, chunks) && start + count <= |Logical(area, chunks)| && base + count <= out.Length
    modifies out
    ensures out[base..base + count] == Logical(area, chunks)[start..start + count]
    ensures forall k :: 0 <= k < out.Length && !(base <= k < base + count) ==> out[k] == old(out[k])
  {
    hide Logical, AllInRange, InRange, Steady, SteadySlice, Copied;
    var skip: nat, written: nat := start, 0;
    ghost var all := Logical(area, chunks);
    ghost var want := all[start..];
    NothingCopied(all, start);
    assert chunks[0..] == chunks && out[base..base] == [];
    for i := 0 to |chunks|
      invariant AllInRange(area, chunks[i..]) && written <= count
      invariant Copied(want, out[base..base + written], Logical(area, chunks[i..]), skip)
      invariant forall k :: 0 <= k < out.Length && !(base <= k < base + written) ==> out[k] == old(out[k])
    {
      ghost var tail := NextChunk(area, chunks, i);
      SteadyChunk(mem, area, chunks, i);
      skip, written := CopyChunk(mem, area, chunks[i], out, base, count, skip, written, want, tail);
      if written == count {
        FilledUp(all, start, out[base..base + count]);
        return;
      }
    }
    NoChunks(area);
    assert chunks[|chunks|..] == [];
    CopiedPrefix(want, out[base..base + written], [], skip);
    FilledUp(all, start, out[base..base + count]);
  }

  lemma NothingCopied(all: seq<byte>, start: nat)
    requires start <= |all|
    ensures Copied(all[start..], [], all, start)
  {
  }

  lemma FilledUp(all: seq<byte>, start: nat, got: seq<byte>)
    requires start + |got| <= |all| && got <= all[start..]
    ensures got == all[start..start + |got|]
  {
  }

  lemma NoChunks(area: seq<byte>)
    ensures Logical(area, []) == []
  {
  }

  lemma NextChunk(area: seq<byte>, chunks: seq<Chunk>, i: nat) returns (tail: seq<byte>)
    requires AllInRange(area, chunks) && i < |chunks|
    ensures AllInRange(area, chunks[i..]) && AllInRange(area, chunks[i + 1..]) && InRange(area, chunks[i])
    ensures tail == Logical(area, chunks[i + 1..])
    ensures Logical(area, chunks[i..]) == area[chunks[i].offset..chunks[i].offset + chunks[i].length] + tail
  {
    assert chunks[i..][1..] == chunks[i + 1..];
    tail := Logical(area, chunks[i + 1..]);
  }

  // ---------------------------------------------------------------- destride

  datatype Error =
    | EmptyImage
    | NarrowStride
    | OutOfRange
    | TooSmall
    | BadFormat
    | NoChunkList
    | BadChunk
    | EmptyChunkList

  datatype Result<+T> = Ok(value: T) | Err(error: Error)

  function Stride(w: nat, rowstride: nat): nat {
    if rowstride == 0 then 4 * w else rowstride
  }

  // The logical bytes an image needs: its last row stops at its own width.
  function Required(w: nat, h: nat, stride: nat): nat
    requires h > 0
  {
    (h - 1) * stride + 4 * w
  }

  // Why a draw is refused, if it is.
  function Refusal(area: seq<byte>, chunks: seq<Chunk>, w: nat, h: nat, rowstride: nat): Option<Error> {
    if w == 0 || h == 0 then Some(EmptyImage)
    else if Stride(w, rowstride) < 4 * w then Some(NarrowStride)
    else if !AllInRange(area, chunks) then Some(OutOfRange)
    else if TotalLength(chunks) < Required(w, h, Stride(w, rowstride)) then Some(TooSmall)
    else None
  }

  function At(s: seq<byte>, i: int): byte {
    if 0 <= i < |s| then s[i] else 0
  }

  function Index(row: nat, stride: nat, column: nat): nat {
    row * stride + column
  }

  // The first `rows` rows of `out` are those of a w-pixel image whose rows start `stride` bytes
  // apart in `source`.
  predicate HasRows(out: seq<byte>, source: seq<byte>, w: nat, rows: nat, stride: nat) {
    forall r, c :: 0 <= r < rows && 0 <= c < 4 * w ==> At(out, Index(r, 4 * w, c)) == At(source, Index(r, stride, c))
  }

  predicate IsImage(out: seq<byte>, source: seq<byte>, w: nat, h: nat, stride: nat) {
    |out| == h * (4 * w) && HasRows(out, source, w, h, stride)
  }

  lemma RowsApart(r: nat, row: nat, stride: nat, c: nat)
    requires r < row && c < stride
    ensures Index(r, stride, c) < Index(row, stride, 0)
  {
    AtLeastOneRow(row - r, stride);
    Distribute(r, row - r, stride);
  }

  lemma Distribute(a: nat, b: nat, x: nat)
    ensures (a + b) * x == a * x + b * x
  {
  }

  lemma AtLeastOneRow(rows: nat, stride: nat)
    requires rows > 0
    ensures rows * stride >= stride
  {
  }

  // Every index the image uses is inside both sides.
  lemma ImageIndices(r: nat, c: nat, w: nat, h: nat, stride: nat)
    requires r < h && c < 4 * w <= stride
    ensures Index(r, stride, c) < Required(w, h, stride)
    ensures Index(r, 4 * w, c) < h * (4 * w)
  {
    RowsApart(r, h, 4 * w, c);
    if r < h - 1 { RowsApart(r, h - 1, stride, c); }
  }

  lemma RowFilled(before: seq<byte>, out: seq<byte>, source: seq<byte>, w: nat, row: nat, stride: nat)
    requires 0 < 4 * w <= stride && HasRows(before, source, w, row, stride)
    requires var base, start := Index(row, 4 * w, 0), Index(row, stride, 0);
      && base + 4 * w <= |out| == |before| && start + 4 * w <= |source|
      && out[base..base + 4 * w] == source[start..start + 4 * w]
      && before[..base] == out[..base]
    ensures HasRows(out, source, w, row + 1, stride)
  {
    var base, start := Index(row, 4 * w, 0), Index(row, stride, 0);
    forall r, c | 0 <= r < row + 1 && 0 <= c < 4 * w
      ensures At(out, Index(r, 4 * w, c)) == At(source, Index(r, stride, c))
    {
      if r < row {
        RowsApart(r, row, 4 * w, c);
        assert before[..base][Index(r, 4 * w, c)] == out[..base][Index(r, 4 * w, c)];
      } else {
        assert out[base..base + 4 * w][c] == source[start..start + 4 * w][c];
      }
    }
  }

  method CheckChunks(size: nat, ghost area: seq<byte>, chunks: seq<Chunk>) returns (ok: bool, available: nat)
    requires size == |area|
    ensures ok <==> AllInRange(area, chunks)
    ensures ok ==> available == TotalLength(chunks)
  {
    available := 0;
    assert chunks[..|chunks|] == chunks;
    for i := 0 to |chunks|
      invariant AllInRange(area, chunks[..i]) && available == TotalLength(chunks[..i])
    {
      var c := chunks[i];
      if c.offset < HEADER_SIZE || c.offset + c.length > size {
        return false, available;
      }
      assert chunks[..i + 1] == chunks[..i] + [c];
      LogicalAppend(area, chunks[..i], c);
      available := available + c.length;
    }
    ok := true;
  }

  // The sizes are those of a draw packet, whose fields are 32-bit integers.
  method Destride(mem: Memory, size: nat, ghost area: seq<byte>, chunks: seq<Chunk>, w: nat, h: nat, rowstride: nat)
    returns (r: Result<seq<byte>>)
    requires size == |area| && Steady(mem, area, chunks)
    requires w < 0x8000_0000 && h < 0x8000_0000 && rowstride < 0x8000_0000
    ensures match Refusal(area, chunks, w, h, rowstride)
            case Some(error) => r == Err(error)
            case None => r.Ok? && AllInRange(area, chunks)
                         && IsImage(r.value, Logical(area, chunks), w, h, Stride(w, rowstride))
  {
    if w == 0 || h == 0 { return Err(EmptyImage); }
    var widthBytes := w * 4;
    var stride := if rowstride == 0 then widthBytes else rowstride;
    if stride < widthBytes { return Err(NarrowStride); }
    var ok, available := CheckChunks(size, area, chunks);
    if !ok { return Err(OutOfRange); }
    if available < (h - 1) * stride + widthBytes { return Err(TooSmall); }
    LogicalLength(area, chunks);
    var out := CopyRows(mem, area, chunks, w, h, stride);
    r := Ok(out[..]);
  }

  method CopyRows(mem: Memory, ghost area: seq<byte>, chunks: seq<Chunk>, w: nat, h: nat, stride: nat)
    returns (out: array<byte>)
    requires Steady(mem, area, chunks)
    requires AllInRange(area, chunks) && 0 < 4 * w <= stride && h > 0
    requires |Logical(area, chunks)| >= Required(w, h, stride)
    ensures IsImage(out[..], Logical(area, chunks), w, h, stride)
  {
    hide Logical, AllInRange, HasRows, Index, Steady;
    ghost var source := Logical(area, chunks);
    out := new byte[h * (w * 4)](_ => 0);
    NoRows(out[..], source, w, stride);
    for row := 0 to h
      invariant HasRows(out[..], source, w, row, stride)
    {
      ghost var before := out[..];
      RowEnds(row, w, h, stride);
      CopyLogical(mem, area, chunks, Index(row, stride, 0), out, Index(row, 4 * w, 0), 4 * w);
      RowFilled(before, out[..], source, w, row, stride);
    }
  }

  lemma NoRows(out: seq<byte>, source: seq<byte>, w: nat, stride: nat)
    ensures HasRows(out, source, w, 0, stride)
  {
  }

  lemma RowEnds(row: nat, w: nat, h: nat, stride: nat)
    requires row < h && 0 < 4 * w <= stride
    ensures Index(row, stride, 0) + 4 * w <= Required(w, h, stride)
    ensures Index(row, 4 * w, 0) + 4 * w <= h * (4 * w)
  {
  }

  // ---------------------------------------------------------------- what the specification says

  // Byte by byte: with a rowstride, row `r` of the image starts `r * rowstride` bytes into the chunks;
  // without one the rows follow one another.
  lemma ImageBytes(out: seq<byte>, source: seq<byte>, w: nat, h: nat, rowstride: nat, r: nat, c: nat)
    requires IsImage(out, source, w, h, Stride(w, rowstride)) && r < h && c < 4 * w
    requires rowstride == 0 || rowstride >= 4 * w
    requires |source| >= (h - 1) * (if rowstride == 0 then 4 * w else rowstride) + 4 * w
    ensures |out| == h * (4 * w) && r * (4 * w) + c < |out|
    ensures rowstride != 0 ==> r * rowstride + c < |source| && out[r * (4 * w) + c] == source[r * rowstride + c]
    ensures rowstride == 0 ==> r * (4 * w) + c < |source| && out[r * (4 * w) + c] == source[r * (4 * w) + c]
  {
    var stride := if rowstride == 0 then 4 * w else rowstride;
    ImageIndices(r, c, w, h, stride);
    assert Index(r, 4 * w, c) == r * (4 * w) + c && Index(r, stride, c) == r * stride + c;
    assert At(out, Index(r, 4 * w, c)) == At(source, Index(r, stride, c));
  }

  // Which draws are refused, and why: nothing to show, rows wider than the rowstride, a chunk outside
  // the area or in its first eight bytes, and too few bytes for the last row.
  lemma RefusalCases(area: seq<byte>, chunks: seq<Chunk>, w: nat, h: nat, rowstride: nat)
    ensures var refusal := Refusal(area, chunks, w, h, rowstride);
      && (refusal == Some(EmptyImage) <==> w == 0 || h == 0)
      && (refusal == Some(NarrowStride) <==> w > 0 && h > 0 && 0 < rowstride < 4 * w)
      && (refusal == Some(OutOfRange) <==>
            && w > 0 && h > 0 && !(0 < rowstride < 4 * w)
            && exists i :: 0 <= i < |chunks| && (chunks[i].offset < 8 || chunks[i].offset + chunks[i].length > |area|))
      && (refusal in {Some(TooSmall), None} <==>
            && w > 0 && h > 0 && !(0 < rowstride < 4 * w)
            && forall i :: 0 <= i < |chunks| ==> 8 <= chunks[i].offset && chunks[i].offset + chunks[i].length <= |area|)
  {
  }

  lemma EnoughBytes(area: seq<byte>, chunks: seq<Chunk>, w: nat, h: nat, rowstride: nat)
    requires w > 0 && h > 0 && !(0 < rowstride < 4 * w) && AllInRange(area, chunks)
    ensures Refusal(area, chunks, w, h, rowstride) ==
            if |Logical(area, chunks)| < (h - 1) * (if rowstride == 0 then 4 * w else rowstride) + 4 * w
            then Some(TooSmall) else None
  {
    LogicalLength(area, chunks);
  }

  // A sub-rectangle one pixel wide of rows eight bytes apart: the second row starts at byte eight.
  lemma SecondRow(area: seq<byte>, out: seq<byte>)
    requires |area| == 20 && forall i :: 8 <= i < 20 ==> area[i] == i - 8
    requires IsImage(out, Logical(area, [Chunk(8, 12)]), 1, 2, Stride(1, 8))
    ensures Refusal(area, [Chunk(8, 12)], 1, 2, 8) == None && |out| == 8 && out[0] == 0 && out[4] == 8
  {
    var chunks := [Chunk(8, 12)];
    assert chunks[1..] == [];
    assert Logical(area, chunks) == area[8..20];
    LogicalLength(area, chunks);
    EnoughBytes(area, chunks, 1, 2, 8);
    assert area[8..20][0] == 0 && area[8..20][8] == 8;
    ImageBytes(out, area[8..20], 1, 2, 8, 0, 0);
    ImageBytes(out, area[8..20], 1, 2, 8, 1, 0);
  }

  // ---------------------------------------------------------------- chunk lists

  // A parsed packet field, as far as draws look at one.
  datatype Yaml =
    | Integer(i: int)
    | Text(s: string)
    | Array(items: seq<Yaml>)
    | Hash(entries: map<string, Yaml>)
    | Other

  predicate IsChunk(y: Yaml) {
    y.Array? && |y.items| == 2 && y.items[0].Integer? && y.items[1].Integer? && y.items[0].i >= 0 && y.items[1].i >= 0
  }

  function ChunkYaml(c: Chunk): Yaml {
    Array([Integer(c.offset), Integer(c.length)])
  }

  function ListYaml(chunks: seq<Chunk>): Yaml {
    Array(seq(|chunks|, i requires 0 <= i < |chunks| => ChunkYaml(chunks[i])))
  }

  predicate IsList(y: Yaml) {
    y.Array? && y.items != [] && forall i :: 0 <= i < |y.items| ==> IsChunk(y.items[i])
  }

  lemma IsListMeans(y: Yaml)
    ensures IsList(y) <==> exists chunks :: chunks != [] && y == ListYaml(chunks)
  {
    if IsList(y) {
      var chunks := seq(|y.items|, i requires 0 <= i < |y.items| => Chunk(y.items[i].items[0].i, y.items[i].items[1].i));
      forall i | 0 <= i < |y.items| ensures y.items[i] == ChunkYaml(chunks[i]) {
        assert y.items[i].items == [y.items[i].items[0], y.items[i].items[1]];
      }
      assert y == ListYaml(chunks);
    }
    forall chunks | chunks != [] && y == ListYaml(chunks) ensures IsList(y) {
      forall i | 0 <= i < |y.items| ensures IsChunk(y.items[i]) {
        assert y.items[i] == ChunkYaml(chunks[i]);
      }
    }
  }

  // Why a field that is not a list of chunks is refused.
  function ListError(y: Yaml): Error {
    if !y.Array? then NoChunkList else if y.items == [] then EmptyChunkList else BadChunk
  }

  // Accepts exactly the non-empty lists of (offset, length) pairs.
  method ParseChunks(value: Yaml) returns (r: Result<seq<Chunk>>)
    ensures r.Ok? <==> exists chunks :: chunks != [] && value == ListYaml(chunks)
    ensures r.Ok? ==> r.value != [] && value == ListYaml(r.value)
    ensures r.Err? ==> r.error == ListError(value)
  {
    if !value.Array? {
      return Err(NoChunkList);
    }
    var chunks: seq<Chunk> := [];
    for i := 0 to |value.items|
      invariant |chunks| == i && forall k :: 0 <= k < i ==> value.items[k] == ChunkYaml(chunks[k])
    {
      var item := value.items[i];
      if !IsChunk(item) {
        NotAList(value, i);
        return Err(BadChunk);
      }
      assert item.items == [item.items[0], item.items[1]];
      chunks := chunks + [Chunk(item.items[0].i, item.items[1].i)];
    }
    assert value == ListYaml(chunks);
    if chunks == [] {
      return Err(EmptyChunkList);
    }
    r := Ok(chunks);
  }

  lemma NotAList(value: Yaml, i: nat)
    requires value.Array? && i < |value.items| && !IsChunk(value.items[i])
    ensures !exists chunks :: value == ListYaml(chunks)
  {
  }

  // ---------------------------------------------------------------- one mmap draw

  datatype DrawFields = DrawFields(width: int, height: int, rowstride: int,
                                   options: Option<Yaml>, data: Option<Yaml>)

  datatype DrawResult = Pixels(pixels: seq<byte>) | Refused(error: Error) | Panicked

  // The options' chunk list, or the copy in the data field.
  function ChunkList(d: DrawFields): Option<Yaml> {
    if d.options.Some? && d.options.value.Hash? && "chunks" in d.options.value.entries
    then Some(d.options.value.entries["chunks"])
    else d.data
  }

  // Looking up `rgb_format` indexes the options hash, which panics when the key is missing.
  predicate FormatPanics(d: DrawFields) {
    d.options.Some? && d.options.value.Hash? && "rgb_format" !in d.options.value.entries
  }

  predicate FormatAccepted(d: DrawFields) {
    d.options.Some? && d.options.value.Hash? && "rgb_format" in d.options.value.entries ==>
      var format := d.options.value.entries["rgb_format"];
      format.Text? && format.s != "" ==> "BGR" <= format.s
  }

  function Clamped(i: int): nat {
    if i < 0 then 0 else i
  }

  predicate Is32Bit(d: DrawFields) {
    && -0x8000_0000 <= d.width < 0x8000_0000 && -0x8000_0000 <= d.height < 0x8000_0000
    && -0x8000_0000 <= d.rowstride < 0x8000_0000
  }

  // The draw carries a list of chunks that parses.
  predicate Parses(d: DrawFields, chunks: seq<Chunk>) {
    chunks != [] && ChunkList(d) == Some(ListYaml(chunks))
  }

  // The list is the `chunks` entry of the options where there is one, and the data field otherwise.
  lemma ListSource(d: DrawFields, chunks: seq<Chunk>)
    requires chunks != []
    ensures d.options.Some? && d.options.value.Hash? && "chunks" in d.options.value.entries ==>
              (Parses(d, chunks) <==> d.options.value.entries["chunks"] == ListYaml(chunks))
    ensures d.options.None? || !d.options.value.Hash? || "chunks" !in d.options.value.entries ==>
              (Parses(d, chunks) <==> d.data == Some(ListYaml(chunks)))
    ensures forall y :: IsChunk(y) <==>
              exists offset: nat, length: nat :: y == Array([Integer(offset), Integer(length)])
  {
    forall y | IsChunk(y) ensures exists offset: nat, length: nat :: y == Array([Integer(offset), Integer(length)]) {
      assert y.items == [y.items[0], y.items[1]];
      assert y == Array([Integer(y.items[0].i), Integer(y.items[1].i)]);
    }
  }

  predicate HasList(d: DrawFields) {
    ChunkList(d).Some? && IsList(ChunkList(d).value)
  }

  lemma HasListMeans(d: DrawFields)
    ensures HasList(d) <==> exists chunks :: Parses(d, chunks)
  {
    if ChunkList(d).Some? {
      var y := ChunkList(d).value;
      IsListMeans(y);
      if HasList(d) {
        var chunks :| chunks != [] && y == ListYaml(chunks);
        assert Parses(d, chunks);
      }
    }
  }

  // A draw whose list parses and whose options lack the format: the lookup panics. And one whose list
  // is empty.
  lemma NotAlwaysReleased()
    ensures var d := DrawFields(1, 1, 4, Some(Hash(map["chunks" := ListYaml([Chunk(8, 4)])])), None);
      Parses(d, [Chunk(8, 4)]) && FormatPanics(d)
    ensures !HasList(DrawFields(1, 1, 4, None, Some(Array([]))))
  {
  }

  function EndOf(chunks: seq<Chunk>): nat
    requires chunks != []
  {
    chunks[|chunks| - 1].offset + chunks[|chunks| - 1].length
  }

  lemma ListYamlInjective(a: seq<Chunk>, b: seq<Chunk>)
    requires ListYaml(a) == ListYaml(b)
    ensures a == b
  {
    assert |ListYaml(a).items| == |a| && |ListYaml(b).items| == |b|;
    forall i | 0 <= i < |a| ensures a[i] == b[i] {
      assert ListYaml(a).items[i] == ChunkYaml(a[i]) && ListYaml(b).items[i] == ChunkYaml(b[i]);
    }
  }

  // Why a draw with these chunks shows nothing, if it does not.
  function DrawRefusal(area: seq<byte>, d: DrawFields, chunks: seq<Chunk>): Option<Error> {
    if !FormatAccepted(d) then Some(BadFormat)
    else Refusal(area, chunks, Clamped(d.width), Clamped(d.height), Clamped(d.rowstride))
  }

  // A pixel format is refused when it is a text that is not empty and does not begin with BGR; sizes
  // below zero count as zero.
  lemma DrawRefusalCases(area: seq<byte>, d: DrawFields, chunks: seq<Chunk>)
    ensures var options := if d.options.Some? && d.options.value.Hash? then d.options.value.entries else map[];
      && (FormatPanics(d) <==> d.options.Some? && d.options.value.Hash? && "rgb_format" !in options)
      && (DrawRefusal(area, d, chunks) == Some(BadFormat) <==>
            && "rgb_format" in options && options["rgb_format"].Text? && options["rgb_format"].s != ""
            && !(|options["rgb_format"].s| >= 3 && options["rgb_format"].s[..3] == "BGR"))
    ensures DrawRefusal(area, d, chunks) == Some(EmptyImage) <==>
              DrawRefusal(area, d, chunks) != Some(BadFormat) && (d.width <= 0 || d.height <= 0)
  {
    hide Parses, IsChunk;
    if FormatAccepted(d) { RefusalCases(area, chunks, Clamped(d.width), Clamped(d.height), Clamped(d.rowstride)); }
  }

  class MmapArea {
    const size: nat
    // the mapping, which the server goes on writing
    const mem: Memory
    // the u32 at offset 0 of the mapping, which is how the server learns what it may reuse
    var dataStart: nat

    constructor (size: nat, mem: Memory)
      ensures this.size == size && this.mem == mem && dataStart == 0
    {
      this.size, this.mem, dataStart := size, mem, 0;
    }

    method Release(chunks: seq<Chunk>)
      modifies this`dataStart
      ensures chunks == [] ==> dataStart == old(dataStart)
      ensures chunks != [] ==>
        var last := chunks[|chunks| - 1];
        dataStart == (last.offset + last.length) % 0x1_0000_0000 == EndOf(chunks) % 0x1_0000_0000
    {
      if chunks != [] {
        var last := chunks[|chunks| - 1];
        dataStart := (last.offset + last.length) % 0x1_0000_0000;
      }
    }

    // `read_mmap_draw`, while the server leaves the draw's own bytes as they are in `area`. The ring
    // space is given back exactly when the chunk list parses and the format lookup does not panic: a
    // refused image is still released.
    method ReadDraw(d: DrawFields, ghost area: seq<byte>) returns (r: DrawResult)
      requires Is32Bit(d) && size == |area|
      requires forall chunks :: Parses(d, chunks) ==> Steady(mem, area, chunks)
      modifies this`dataStart
      ensures forall chunks :: Parses(d, chunks) && !FormatPanics(d) ==>
        && dataStart == EndOf(chunks) % 0x1_0000_0000
        && match DrawRefusal(area, d, chunks)
           case Some(error) => r == Refused(error)
           case None =>
             && r.Pixels? && AllInRange(area, chunks)
             && IsImage(r.pixels, Logical(area, chunks), Clamped(d.width), Clamped(d.height),
                        Stride(Clamped(d.width), Clamped(d.rowstride)))
      ensures !HasList(d) ==>
        r == Refused(if ChunkList(d).None? then NoChunkList else ListError(ChunkList(d).value))
      ensures r == Panicked <==> HasList(d) && FormatPanics(d)
      ensures !HasList(d) || FormatPanics(d) ==> dataStart == old(dataStart)
    {
      hide Steady, IsList;
      HasListMeans(d);
      var list := ChunkList(d);
      if list.None? { return Refused(NoChunkList); }
      var parsed := ParseChunks(list.value);
      if parsed.Err? {
        assert forall chunks :: Parses(d, chunks) ==> list.value == ListYaml(chunks);
        return Refused(parsed.error);
      }
      var chunks := parsed.value;
      assert Parses(d, chunks);
      forall other | Parses(d, other) ensures other == chunks { ListYamlInjective(other, chunks); }
      if FormatPanics(d) { return Panicked; }
      if !FormatAccepted(d) {
        r := Refused(BadFormat);
      } else {
        var image := Destride(mem, size, area, chunks, Clamped(d.width), Clamped(d.height), Clamped(d.rowstride));
        r := if image.Ok? then Pixels(image.value) else Refused(image.error);
      }
      Release(chunks);
    }
  }
}
