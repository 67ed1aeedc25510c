/**
 Compositing decoded draws into a window's framebuffer (src/client/window.rs). Coordinates are Rust
 i32/u32 values and wrap as they do in a release build; the debug border is off.
 */
module Window {
  import opened Bytes
  import opened Ints
  import opened Division
  import Mmap

  // The bytes of one decoded draw, as many as a usize can count.
  type Buffer = s: seq<byte> | |s| < 0x1_0000_0000_0000_0000

  // One decoded draw: its position, size, channel order and bytes.
  datatype Draw = Draw(x: i32, y: i32, w: u32, h: u32, bgr: bool, pixels: Buffer)

  function Offset(width: nat, px: nat, py: nat): nat {
    py * width + px
  }

  // The byte count the draw is checked against, a usize product.
  function Expected(d: Draw): nat {
    (4 * Offset(d.w, 0, d.h)) % M64
  }

  // Too few bytes: the draw is refused as a whole.
  predicate Complete(d: Draw) {
    |d.pixels| >= Expected(d)
  }

  // Where the source reads the pixel at (col, row), and whether that is inside its bytes.
  function SourceAt(d: Draw, row: nat, col: nat): nat {
    (4 * Offset(d.w, col, row)) % M64
  }

  predicate Readable(d: Draw, row: nat, col: nat) {
    SourceAt(d, row, col) + 4 <= |d.pixels|
  }

  predicate AllReadable(d: Draw) {
    forall row: nat, col: nat :: row < d.h && col < d.w ==> Readable(d, row, col)
  }

  // jpeg, h264, webp and mmap buffers hold BGRX, png buffers RGBA; the screen holds 0x00RRGGBB.
  function ToPixel(d: Draw, offset: nat): nat {
    var a, b, c := Mmap.At(d.pixels, offset), Mmap.At(d.pixels, offset + 1), Mmap.At(d.pixels, offset + 2);
    if d.bgr then c * 0x1_0000 + b * 0x100 + a else a * 0x1_0000 + b * 0x100 + c
  }

  // The source row or column that lands on screen coordinate `p` when the draw is at `origin`.
  function SourceOf(origin: int, p: int): nat {
    (p - origin) % M32
  }

  predicate CoversLine(origin: int, extent: nat, p: nat) {
    p < 0x8000_0000 && SourceOf(origin, p) < extent
  }

  predicate Covers(d: Draw, px: nat, py: nat) {
    CoversLine(d.x, d.w, px) && CoversLine(d.y, d.h, py)
  }

  function SourcePixel(d: Draw, px: nat, py: nat): nat {
    ToPixel(d, SourceAt(d, SourceOf(d.y, py), SourceOf(d.x, px)))
  }

  // Red, green and blue of a painted pixel: bytes two, one and zero where the decoder yields BGRX, and
  // zero, one and two where it yields RGBA.
  lemma PixelColors(d: Draw, px: nat, py: nat)
    ensures var pixel, at := SourcePixel(d, px, py), SourceAt(d, SourceOf(d.y, py), SourceOf(d.x, px));
      at + 4 <= |d.pixels| ==>
        && pixel / 0x1_0000 == (if d.bgr then d.pixels[at + 2] else d.pixels[at])
        && pixel / 0x100 % 0x100 == d.pixels[at + 1]
        && pixel % 0x100 == (if d.bgr then d.pixels[at] else d.pixels[at + 2])
  {
    var at := SourceAt(d, SourceOf(d.y, py), SourceOf(d.x, px));
    if at + 4 <= |d.pixels| {
      if d.bgr { Channels(d.pixels[at + 2], d.pixels[at + 1], d.pixels[at]); }
      else { Channels(d.pixels[at], d.pixels[at + 1], d.pixels[at + 2]); }
    }
  }

  lemma Channels(r: byte, g: byte, b: byte)
    ensures var pixel: nat := r * 0x1_0000 + g * 0x100 + b;
      pixel / 0x1_0000 == r && pixel / 0x100 % 0x100 == g && pixel % 0x100 == b
  {
    var high: nat := r * 0x100 + g;
    var pixel: nat := high * 0x100 + b;
    DivUnique(pixel, 0x100, high);
    DivUnique(high, 0x100, r);
    DivUnique(pixel, 0x1_0000, r);
  }

  // Where i32 coordinates do not wrap, the source line is just the distance from the origin.
  lemma NoWrapCovers(origin: int, extent: nat, p: nat)
    requires -0x8000_0000 <= origin && origin + extent <= 0x8000_0000 && p < 0x8000_0000
    ensures CoversLine(origin, extent, p) <==> origin <= p < origin + extent
    ensures CoversLine(origin, extent, p) ==> SourceOf(origin, p) == p - origin
  {
  }

  // Each source line lands where its own coordinate wraps to, and nowhere else.
  lemma LandsAt(origin: i32, line: u32, p: nat)
    requires p < 0x8000_0000
    ensures Wrap(origin + Wrap(line)) == p <==> SourceOf(origin, p) == line
  {
  }

  lemma OffsetInside(width: nat, height: nat, px: nat, py: nat)
    requires px < width && py < height
    ensures Offset(width, px, py) < height * width
  {
    Mmap.RowsApart(py, height, width, px);
  }

  lemma OffsetsDiffer(width: nat, px: nat, py: nat, qx: nat, qy: nat)
    requires px < width && qx < width && (px != qx || py != qy)
    ensures Offset(width, px, py) != Offset(width, qx, qy)
  {
    if py < qy { Mmap.RowsApart(py, qy, width, px); }
    if qy < py { Mmap.RowsApart(qy, py, width, qx); }
  }

  // The byte count check keeps every read inside the bytes exactly when its product does not wrap.
  lemma CheckSuffices(w: u32, h: u32)
    ensures (forall d: Draw :: d.w == w && d.h == h && Complete(d) ==> AllReadable(d)) <==> 4 * Offset(w, 0, h) < M64
  {
    if 4 * Offset(w, 0, h) < M64 {
      forall d: Draw | d.w == w && d.h == h && Complete(d) ensures AllReadable(d) { ReadsInside(d); }
    } else {
      var d := WrappedDraw(w, h);
    }
  }

  lemma ReadsInside(d: Draw)
    requires Complete(d) && 4 * Offset(d.w, 0, d.h) < M64
    ensures AllReadable(d)
  {
    forall row: nat, col: nat | row < d.h && col < d.w ensures Readable(d, row, col) {
      OffsetInside(d.w, d.h, col, row);
    }
  }

  // A draw whose byte count wraps: it passes the check with fewer bytes than its last pixels need.
  lemma WrappedDraw(w: u32, h: u32) returns (d: Draw)
    requires 4 * Offset(w, 0, h) >= M64
    ensures d.w == w && d.h == h && Complete(d) && !AllReadable(d)
  {
    var count := (4 * Offset(w, 0, h)) % M64;
    d := Draw(0, 0, w, h, true, seq(count, _ => 0));
    var i := M64 / 4 - 1;
    var row, col := i / w, i % w;
    RowFits(i, w, h);
    assert Offset(w, col, row) == i;
    assert !Readable(d, row, col);
  }

  lemma RowFits(i: nat, w: nat, h: nat)
    requires i < Offset(w, 0, h)
    ensures w > 0
    ensures i / w < h && i == Offset(w, i % w, i / w)
  {
    var q := i / w;
    assert i == q * w + i % w;
    if q >= h { ProductGrows(h, q, w); }
  }

  lemma ProductGrows(a: nat, b: nat, x: nat)
    requires a <= b
    ensures a * x <= b * x
  {
  }

  // For one: four bytes pass for a 2^31 by 2^31 draw, and painting it on a window two pixels wide stops.
  lemma FourBytesPass()
    ensures var d := Draw(0, 0, 0x8000_0000, 0x8000_0000, true, [0, 0, 0, 0]);
      Expected(d) == 0 && Complete(d) && !Readable(d, 0, 1) && Panics(Size(2, 1), d)
  {
    var d := Draw(0, 0, 0x8000_0000, 0x8000_0000, true, [0, 0, 0, 0]);
    assert Expected(d) == 0 && SourceAt(d, 0, 1) == 4;
    assert SourceOf(d.y, 0) == 0 && SourceOf(d.x, 1) == 1;
    hide Expected, SourceAt, SourceOf, Product, Offset;
    assert Covers(d, 1, 0) && !Fine(Size(2, 1), d, SourceOf(d.y, 0), 1, 0);
  }

  function Max1(n: u32): (r: u32)
    ensures r >= 1
  {
    if n < 1 then 1 else n
  }

  // A u32 product of two sizes.
  function Product(a: nat, b: nat): nat {
    (a * b) % M32
  }

  lemma ProductExact(a: nat, b: nat)
    ensures Product(a, b) == a * b <==> a * b < M32
  {
  }

  datatype Size = Size(width: u32, height: u32)

  // Painting this pixel of the draw finds its bytes and its place in the framebuffer.
  predicate Fine(size: Size, d: Draw, row: nat, px: nat, py: nat) {
    Readable(d, row, SourceOf(d.x, px)) && Offset(size.width, px, py) < Product(size.height, size.width)
  }

  // Painting stops at an index out of bounds.
  predicate Panics(size: Size, d: Draw) {
    Complete(d) &&
    exists px: nat, py: nat :: px < size.width && py < size.height && Covers(d, px, py) && !Fine(size, d, SourceOf(d.y, py), px, py)
  }

  // It never does when neither product wraps.
  lemma NeverPanics(size: Size, d: Draw)
    requires size.height * size.width < M32 && 4 * Offset(d.w, 0, d.h) < M64
    ensures !Panics(size, d)
  {
    if Complete(d) {
      ReadsInside(d);
      forall px: nat, py: nat | px < size.width && py < size.height && Covers(d, px, py)
        ensures Fine(size, d, SourceOf(d.y, py), px, py)
      {
        OffsetInside(size.width, size.height, px, py);
        ProductExact(size.height, size.width);
        assert Readable(d, SourceOf(d.y, py), SourceOf(d.x, px));
      }
    }
  }

  class XpraWindow {
    var framebuffer: array<nat>
    var width: u32
    var height: u32

    // What always holds: the buffer is as long as the u32 product of the sizes.
    ghost predicate Shaped()
      reads this
    {
      width >= 1 && height >= 1 && framebuffer.Length == Product(height, width)
    }

    // One entry per pixel.
    ghost predicate Valid()
      reads this
    {
      Shaped() && framebuffer.Length == height * width
    }

    ghost function Get(px: nat, py: nat): nat
      reads this, framebuffer
    {
      if Offset(width, px, py) < framebuffer.Length then framebuffer[Offset(width, px, py)] else 0
    }

    // The pixel at (px, py): rows one after the other, from the top, each from the left.
    lemma PixelPlace(px: nat, py: nat)
      requires Valid() && px < width && py < height
      ensures py * width + px < framebuffer.Length && Get(px, py) == framebuffer[py * width + px]
    {
      OffsetInside(width, height, px, py);
    }

    ghost predicate Blank()
      reads this, framebuffer
    {
      forall i :: 0 <= i < framebuffer.Length ==> framebuffer[i] == 0
    }

    // The buffer size is a u32 product: it is right exactly when that does not wrap.
    constructor (w: u32, h: u32)
      ensures Shaped() && width == Max1(w) && height == Max1(h) && fresh(framebuffer) && Blank()
      ensures Valid() <==> Max1(h) * Max1(w) < M32
    {
      ProductExact(Max1(h), Max1(w));
      width, height := Max1(w), Max1(h);
      framebuffer := new nat[Product(Max1(h), Max1(w))](_ => 0);
    }

    // `resized` is whether the drawing surface accepted the new size.
    method Resize(w: u32, h: u32, resized: bool)
      requires Shaped()
      modifies this
      ensures Shaped() && (Valid() <==> height * width < M32)
      ensures var change := resized && !(Max1(w) == old(width) && Max1(h) == old(height));
        if change then width == Max1(w) && height == Max1(h) && fresh(framebuffer) && Blank()
        else width == old(width) && height == old(height) && framebuffer == old(framebuffer)
    {
      var rw, rh := Max1(w), Max1(h);
      ProductExact(rh, rw);
      ProductExact(height, width);
      if rw == width && rh == height { return; }
      if !resized { return; }
      width, height := rw, rh;
      framebuffer := new nat[Product(rh, rw)](_ => 0);
    }

    method Put(px: nat, py: nat, color: nat)
      requires Shaped() && px < width && Offset(width, px, py) < framebuffer.Length
      modifies framebuffer
      ensures forall qx: nat, qy: nat :: qx < width && Offset(width, qx, qy) < framebuffer.Length ==>
                Get(qx, qy) == if qx == px && qy == py then color else old(Get(qx, qy))
    {
      hide Offset;
      framebuffer[Offset(width, px, py)] := color;
      forall qx: nat, qy: nat | qx < width && (qx != px || qy != py) && Offset(width, qx, qy) < framebuffer.Length
        ensures Get(qx, qy) == old(Get(qx, qy))
      {
        OffsetsDiffer(width, qx, qy, px, py);
      }
    }

    // One row of a draw onto line `line`; false if it stopped at an index out of bounds.
    method PaintLine(d: Draw, row: nat, line: nat) returns (ok: bool)
      requires Shaped() && row < d.h && line < height
      modifies framebuffer
      ensures ok <==> forall px: nat :: px < width && CoversLine(d.x, d.w, px) ==> Fine(Size(width, height), d, row, px, line)
      ensures ok ==> forall px: nat, py: nat :: px < width && Offset(width, px, py) < framebuffer.Length ==>
                Get(px, py) == if py == line && CoversLine(d.x, d.w, px)
                               then ToPixel(d, SourceAt(d, row, SourceOf(d.x, px))) else old(Get(px, py))
    {
      for col := 0 to d.w
        invariant forall px: nat :: px < width && px < 0x8000_0000 && SourceOf(d.x, px) < col ==>
                    Fine(Size(width, height), d, row, px, line)
        invariant forall px: nat, py: nat :: px < width && Offset(width, px, py) < framebuffer.Length ==>
                    Get(px, py) == if py == line && px < 0x8000_0000 && SourceOf(d.x, px) < col
                                   then ToPixel(d, SourceAt(d, row, SourceOf(d.x, px))) else old(Get(px, py))
      {
        hide ToPixel, Get, SourceOf, SourceAt, Offset;
        var column := Wrap(d.x + Wrap(col));
        forall px: nat | px < width && px < 0x8000_0000
          ensures column == px <==> SourceOf(d.x, px) == col
        {
          LandsAt(d.x, col, px);
        }
        if column < 0 || column >= width {
          continue;
        }
        var at := ((row * d.w * 4) % M64 + col * 4) % M64;
        SourceAtIs(d, row, col);
        if at + 4 > |d.pixels| || Offset(width, column, line) >= framebuffer.Length {
          assert !Fine(Size(width, height), d, row, column, line);
          return false;
        }
        Put(column, line, ToPixel(d, at));
      }
      ok := true;
    }

    // `paint`: exactly the covered pixels change, each to its own source pixel. It is false if painting
    // stopped at an index out of bounds.
    method Paint(d: Draw) returns (ok: bool)
      requires Shaped()
      modifies framebuffer
      ensures ok <==> !Panics(Size(width, height), d)
      ensures ok ==> forall px: nat, py: nat :: px < width && py < height && Offset(width, px, py) < framebuffer.Length ==>
                Get(px, py) == if Complete(d) && Covers(d, px, py) then SourcePixel(d, px, py) else old(Get(px, py))
    {
      ExpectedIs(d);
      if |d.pixels| < (d.w * d.h * 4) % M64 { return true; }
      for row := 0 to d.h
        invariant forall px: nat, py: nat :: px < width && py < height && CoversLine(d.x, d.w, px) ==>
                    py < 0x8000_0000 && SourceOf(d.y, py) < row ==> Fine(Size(width, height), d, SourceOf(d.y, py), px, py)
        invariant forall px: nat, py: nat :: px < width && py < height && Offset(width, px, py) < framebuffer.Length ==>
                    Get(px, py) == if CoversLine(d.x, d.w, px) && py < 0x8000_0000 && SourceOf(d.y, py) < row
                                   then SourcePixel(d, px, py) else old(Get(px, py))
      {
        hide ToPixel, Get, CoversLine, SourceOf, SourceAt, Offset, Fine;
        var line := Wrap(d.y + Wrap(row));
        forall py: nat | py < height && py < 0x8000_0000
          ensures line == py <==> SourceOf(d.y, py) == row
        {
          LandsAt(d.y, row, py);
        }
        if line < 0 || line >= height {
          continue;
        }
        var more := PaintLine(d, row, line);
        if !more {
          var px: nat :| px < width && CoversLine(d.x, d.w, px) && !Fine(Size(width, height), d, row, px, line);
          assert Covers(d, px, line);
          return false;
        }
      }
      ok := true;
    }
  }

  lemma SourceAtIs(d: Draw, row: nat, col: nat)
    ensures SourceAt(d, row, col) == ((row * d.w * 4) % M64 + col * 4) % M64
  {
    var a, b := row * d.w * 4, col * 4;
    assert 4 * Offset(d.w, col, row) == a + b;
    AddMod(a, b);
  }

  lemma AddMod(a: nat, b: nat)
    ensures (a % M64 + b) % M64 == (a + b) % M64
  {
  }

  lemma ExpectedIs(d: Draw)
    ensures Expected(d) == (d.w * d.h * 4) % M64
  {
    assert 4 * Offset(d.w, 0, d.h) == d.w * d.h * 4;
  }

  // A 65536 by 65536 window: the product wraps to nothing.
  method HugeWindow() returns (win: XpraWindow)
    ensures win.Shaped() && win.width == win.height == 65536 && win.framebuffer.Length == 0 && !win.Valid()
  {
    win := new XpraWindow(65536, 65536);
  }

  // ---------------------------------------------------------------- whole runs

  datatype Op = Paint(draw: Draw) | Resize(w: u32, h: u32, resized: bool)

  // The size after a run of operations on a window created at `start`.
  function SizeAfter(start: Size, ops: seq<Op>): Size {
    if ops == [] then Size(Max1(start.width), Max1(start.height))
    else
      var last, before := ops[|ops| - 1], SizeAfter(start, ops[..|ops| - 1]);
      if last.Resize? && last.resized then Size(Max1(last.w), Max1(last.h)) else before
  }

  // A pixel shows the last paint that covers it since the size last changed.
  function PixelAfter(start: Size, ops: seq<Op>, px: nat, py: nat): nat {
    if ops == [] then 0
    else
      var last, before := ops[|ops| - 1], ops[..|ops| - 1];
      match last
      case Paint(d) => if Complete(d) && Covers(d, px, py) then SourcePixel(d, px, py) else PixelAfter(start, before, px, py)
      case Resize(_, _, _) =>
        if SizeAfter(start, ops) != SizeAfter(start, before) then 0 else PixelAfter(start, before, px, py)
  }

  // The operation at `k` stops at an index out of bounds.
  predicate StopsAt(start: Size, ops: seq<Op>, k: nat)
    requires k < |ops|
  {
    ops[k].Paint? && Panics(SizeAfter(start, ops[..k]), ops[k].draw)
  }

  // Any run of operations: it goes on to the first one that stops it, and until then the buffer is as
  // long as the u32 product says, exactly one entry per pixel when that does not wrap, and each entry
  // shows the last paint that covered its pixel.
  method Replay(start: Size, ops: seq<Op>) returns (win: XpraWindow, done: nat)
    ensures done <= |ops| && (forall k :: 0 <= k < done ==> !StopsAt(start, ops, k))
    ensures done < |ops| ==> StopsAt(start, ops, done)
    ensures win.Shaped() && Size(win.width, win.height) == SizeAfter(start, ops[..done])
    ensures win.Valid() <==> win.height * win.width < M32
    ensures done == |ops| ==> forall px: nat, py: nat ::
              px < win.width && py < win.height && Offset(win.width, px, py) < win.framebuffer.Length ==>
              win.Get(px, py) == PixelAfter(start, ops, px, py)
  {
    hide StopsAt, Showing, PixelAfter, SizeAfter, Offset, Product;
    assert ops[..0] == [] && ops[..|ops|] == ops;
    win := new XpraWindow(start.width, start.height);
    done := 0;
    Created(start, win);
    ProductExact(win.height, win.width);
    while done < |ops|
      invariant done <= |ops| && (forall k :: 0 <= k < done ==> !StopsAt(start, ops, k))
      invariant win.Shaped() && Size(win.width, win.height) == SizeAfter(start, ops[..done])
      invariant win.Valid() <==> win.height * win.width < M32
      invariant fresh(win) && fresh(win.framebuffer) && Showing(win, start, ops[..done])
    {
      var ok := Apply(win, start, ops, done);
      ProductExact(win.height, win.width);
      if !ok { return; }
      done := done + 1;
    }
    Shown(win, start, ops);
  }

  // Each entry of the buffer shows what the run says.
  ghost predicate Showing(win: XpraWindow, start: Size, ops: seq<Op>)
    reads win, win.framebuffer
  {
    forall px: nat, py: nat ::
      px < win.width && py < win.height && Offset(win.width, px, py) < win.framebuffer.Length ==>
      win.Get(px, py) == PixelAfter(start, ops, px, py)
  }

  lemma Shown(win: XpraWindow, start: Size, ops: seq<Op>)
    requires Showing(win, start, ops)
    ensures forall px: nat, py: nat ::
              px < win.width && py < win.height && Offset(win.width, px, py) < win.framebuffer.Length ==>
              win.Get(px, py) == PixelAfter(start, ops, px, py)
  {
  }

  method Apply(win: XpraWindow, start: Size, ops: seq<Op>, k: nat) returns (ok: bool)
    requires k < |ops| && win.Shaped() && Size(win.width, win.height) == SizeAfter(start, ops[..k])
    requires Showing(win, start, ops[..k])
    modifies win, win.framebuffer
    ensures win.Shaped() && (win.framebuffer == old(win.framebuffer) || fresh(win.framebuffer))
    ensures ok <==> !StopsAt(start, ops, k)
    ensures ok ==> Showing(win, start, ops[..k + 1])
    ensures Size(win.width, win.height) == SizeAfter(start, ops[..if ok then k + 1 else k])
  {
    hide PixelAfter, SizeAfter, Panics, Showing;
    match ops[k] {
      case Paint(d) => ok := ApplyPaint(win, start, ops, k);
      case Resize(w, h, resized) =>
        ok := true;
        ApplyResize(win, start, ops, k);
    }
  }

  method ApplyPaint(win: XpraWindow, start: Size, ops: seq<Op>, k: nat) returns (ok: bool)
    requires k < |ops| && ops[k].Paint? && win.Shaped() && Size(win.width, win.height) == SizeAfter(start, ops[..k])
    requires Showing(win, start, ops[..k])
    modifies win.framebuffer
    ensures ok <==> !Panics(SizeAfter(start, ops[..k]), ops[k].draw)
    ensures ok ==> Showing(win, start, ops[..k + 1])
    ensures SizeAfter(start, ops[..k + 1]) == SizeAfter(start, ops[..k])
  {
    hide PixelAfter, SizeAfter, Panics, Complete, Covers, SourcePixel;
    OneMore(start, ops, k);
    ok := win.Paint(ops[k].draw);
  }

  method ApplyResize(win: XpraWindow, start: Size, ops: seq<Op>, k: nat)
    requires k < |ops| && ops[k].Resize? && win.Shaped() && Size(win.width, win.height) == SizeAfter(start, ops[..k])
    requires Showing(win, start, ops[..k])
    modifies win
    ensures win.Shaped() && (win.framebuffer == old(win.framebuffer) || fresh(win.framebuffer))
    ensures Showing(win, start, ops[..k + 1]) && Size(win.width, win.height) == SizeAfter(start, ops[..k + 1])
  {
    hide PixelAfter, SizeAfter, Product, Offset;
    OneMore(start, ops, k);
    ghost var buffer := win.framebuffer;
    win.Resize(ops[k].w, ops[k].h, ops[k].resized);
    if win.framebuffer != buffer { BlankPixels(win); }
    forall px: nat, py: nat | px < win.width && py < win.height && Offset(win.width, px, py) < win.framebuffer.Length
      ensures win.Get(px, py) == PixelAfter(start, ops[..k + 1], px, py)
    {
      if win.framebuffer == buffer {
        assert old(win.Get(px, py)) == PixelAfter(start, ops[..k], px, py);
        assert win.Get(px, py) == old(win.Get(px, py));
      } else {
        assert SizeAfter(start, ops[..k + 1]) != SizeAfter(start, ops[..k]);
      }
    }
  }

  lemma Created(start: Size, win: XpraWindow)
    requires win.Blank()
    ensures SizeAfter(start, []) == Size(Max1(start.width), Max1(start.height)) && Showing(win, start, [])
  {
    BlankPixels(win);
  }

  // What one more operation does to the specified size and pixels.
  lemma OneMore(start: Size, ops: seq<Op>, k: nat)
    requires k < |ops|
    ensures var last, before, after := ops[k], SizeAfter(start, ops[..k]), SizeAfter(start, ops[..k + 1]);
      && after == (if last.Resize? && last.resized then Size(Max1(last.w), Max1(last.h)) else before)
      && forall px: nat, py: nat :: PixelAfter(start, ops[..k + 1], px, py) ==
           if last.Paint? && Complete(last.draw) && Covers(last.draw, px, py) then SourcePixel(last.draw, px, py)
           else if after != before then 0 else PixelAfter(start, ops[..k], px, py)
  {
    var longer := ops[..k + 1];
    assert |longer| == k + 1 && longer[k] == ops[k] && longer[..k] == ops[..k];
    hide Complete, Covers, SourcePixel;
    forall px: nat, py: nat
      ensures PixelAfter(start, longer, px, py) ==
              if ops[k].Paint? && Complete(ops[k].draw) && Covers(ops[k].draw, px, py) then SourcePixel(ops[k].draw, px, py)
              else if SizeAfter(start, longer) != SizeAfter(start, ops[..k]) then 0 else PixelAfter(start, ops[..k], px, py)
    {
      assert longer != [];
    }
  }

  lemma BlankPixels(win: XpraWindow)
    requires win.Blank()
    ensures forall px: nat, py: nat :: win.Get(px, py) == 0
  {
  }

  lemma {:induction false} LastPaintWins(start: Size, ops: seq<Op>, k: nat, px: nat, py: nat)
    requires k < |ops| && ops[k].Paint? && Complete(ops[k].draw) && Covers(ops[k].draw, px, py)
    requires forall j :: k < j < |ops| ==> ops[j].Paint? && !(Complete(ops[j].draw) && Covers(ops[j].draw, px, py))
    ensures PixelAfter(start, ops, px, py) == SourcePixel(ops[k].draw, px, py)
  {
    hide Complete, Covers, SourcePixel;
    if k < |ops| - 1 {
      LastPaintWins(start, ops[..|ops| - 1], k, px, py);
    }
  }

  // A new window is blank, a real change of size blanks it again, and no other resize changes a pixel.
  lemma ResizeBlanks(start: Size, ops: seq<Op>, w: u32, h: u32, resized: bool, px: nat, py: nat)
    ensures PixelAfter(start, [], px, py) == 0
    ensures var after, size := ops + [Resize(w, h, resized)], SizeAfter(start, ops);
      && SizeAfter(start, after) == (if resized then Size(if w < 1 then 1 else w, if h < 1 then 1 else h) else size)
      && PixelAfter(start, after, px, py) == if SizeAfter(start, after) != size then 0 else PixelAfter(start, ops, px, py)
  {
    assert (ops + [Resize(w, h, resized)])[..|ops|] == ops;
  }

  // Together with the de-striding copy: an mmap draw shows, at (x + col, y + row), the bytes the
  // server wrote at row * stride + 4 * col.
  lemma MmapPixelsAreServerBytes(d: Draw, source: seq<byte>, stride: nat, row: nat, col: nat)
    requires d.bgr && 0 < 4 * d.w <= stride && row < d.h && col < d.w
    requires Mmap.IsImage(d.pixels, source, d.w, d.h, stride)
    requires 0 <= d.x + col < 0x8000_0000 && 0 <= d.y + row < 0x8000_0000
    ensures Complete(d) && Covers(d, d.x + col, d.y + row) && Readable(d, row, col)
    ensures var at := Mmap.Index(row, stride, 4 * col);
      SourcePixel(d, d.x + col, d.y + row) ==
      Mmap.At(source, at + 2) * 0x1_0000 + Mmap.At(source, at + 1) * 0x100 + Mmap.At(source, at)
  {
    assert SourceOf(d.x, d.x + col) == col && SourceOf(d.y, d.y + row) == row;
    ImageReads(d, source, stride, row, col);
    hide Mmap.IsImage, SourceAt, SourceOf;
    SameByte(d, source, stride, row, 4 * col);
    SameByte(d, source, stride, row, 4 * col + 1);
    SameByte(d, source, stride, row, 4 * col + 2);
  }

  // An image's pixels are read where they are: nothing wraps.
  lemma ImageReads(d: Draw, source: seq<byte>, stride: nat, row: nat, col: nat)
    requires row < d.h && col < d.w && Mmap.IsImage(d.pixels, source, d.w, d.h, stride)
    ensures Complete(d) && Readable(d, row, col) && SourceAt(d, row, col) == row * (4 * d.w) + 4 * col
  {
    assert 4 * Offset(d.w, 0, d.h) == d.h * (4 * d.w);
    ReadsInside(d);
    OffsetInside(d.w, d.h, col, row);
    assert 4 * Offset(d.w, col, row) == row * (4 * d.w) + 4 * col;
  }

  lemma SameByte(d: Draw, source: seq<byte>, stride: nat, row: nat, c: nat)
    requires row < d.h && c < 4 * d.w && Mmap.IsImage(d.pixels, source, d.w, d.h, stride)
    ensures Mmap.At(d.pixels, row * (4 * d.w) + c) == Mmap.At(source, Mmap.Index(row, stride, 0) + c)
  {
    assert Mmap.Index(row, 4 * d.w, c) == row * (4 * d.w) + c;
    assert Mmap.Index(row, stride, c) == Mmap.Index(row, stride, 0) + c;
  }
}
