/**
 The 16-bit framebuffer of chapter7/ex7-5/ex7_5.c and the drawing routines on it.

 The device is a byte array of 2 * xres * yres bytes.  Every routine is specified by the
 single function `Paint`, which overwrites a set of pixels with one colour and leaves every
 other byte alone, so routines that paint equal sets leave equal framebuffers whatever their
 loop order or access path.
 */
module Framebuffer {
  import opened Circle
  import opened Ring

  type Colour = bv16

  // ---------- pixels and colours ----------

  function MakePixel(r: bv8, g: bv8, b: bv8): Colour {
    ((r >> 3) as bv16 << 11) | ((g >> 2) as bv16 << 5) | (b >> 3) as bv16
  }

  /** The three channels do not overlap: each is recovered from the pixel. */
  lemma MakePixelChannels(r: bv8, g: bv8, b: bv8)
    ensures var p := MakePixel(r, g, b);
      && p >> 11 == (r >> 3) as bv16
      && (p >> 5) & 0x3F == (g >> 2) as bv16
      && p & 0x1F == (b >> 3) as bv16
  {
  }

  // The byte at offset 0 or 1 of a stored colour (the processor is little-endian).
  function ColourByte(c: Colour, k: int): bv8 {
    if k == 0 then (c & 0xFF) as bv8 else (c >> 8) as bv8
  }

  /** The two bytes, low byte first, read back as the colour. */
  lemma ColourBytes(c: Colour)
    ensures (ColourByte(c, 1) as bv16 << 8) | ColourByte(c, 0) as bv16 == c
  {
  }

  function Index(x: int, y: int, xres: nat): int {
    x + y * xres
  }

  /** Pixel numbers start at the upper left corner and run along the rows. */
  lemma RowMajor(x: int, y: int, xres: nat)
    ensures Index(0, 0, xres) == 0
    ensures Index(x + 1, y, xres) == Index(x, y, xres) + 1
    ensures Index(x, y + 1, xres) == Index(x, y, xres) + xres
  {
    assert (y + 1) * xres == y * xres + xres;
  }

  // Conversion of an unsigned 32-bit value to int.
  function Int32(u: int): int {
    if u < 0x8000_0000 then u else u - 0x1_0000_0000
  }

  // (x + y * vinfo.xres) * 2 with the unsigned arithmetic that xres forces on it.
  function Offset(x: int, y: int, xres: nat): int {
    Int32((x + y * xres) * 2 % 0x1_0000_0000)
  }

  ghost function Paint(fb: seq<bv8>, pixels: set<int>, c: Colour): (r: seq<bv8>)
    ensures |r| == |fb|
  {
    seq(|fb|, k requires 0 <= k < |fb| => if k / 2 in pixels then ColourByte(c, k % 2) else fb[k])
  }

  lemma PaintTwice(fb: seq<bv8>, a: set<int>, b: set<int>, c: Colour)
    ensures Paint(Paint(fb, a, c), b, c) == Paint(fb, a + b, c)
  {
  }

  lemma PaintNothing(fb: seq<bv8>, c: Colour)
    ensures Paint(fb, {}, c) == fb
  {
  }

  // ---------- row-major addressing ----------

  predicate OnScreen(x: int, y: int, xres: nat, yres: nat) {
    0 <= x < xres && 0 <= y < yres
  }

  lemma IndexInRange(x: int, y: int, xres: nat, yres: nat)
    requires OnScreen(x, y, xres, yres)
    ensures 0 <= Index(x, y, xres) < xres * yres
  {
    assert y * xres <= (yres - 1) * xres by {
      assert (yres - 1 - y) * xres >= 0;
    }
    assert (yres - 1) * xres == xres * yres - xres;
  }

  lemma AtLeastOneRow(d: int, xres: nat)
    requires d >= 1
    ensures d * xres >= xres
  {
  }

  lemma SmallMultipleIsZero(d: int, xres: nat, e: int)
    requires d * xres == e && e < xres && -e < xres
    ensures d == 0
  {
    if d >= 1 {
      AtLeastOneRow(d, xres);
    } else if d <= -1 {
      AtLeastOneRow(-d, xres);
    }
  }

  /** Row-major addressing is injective on the columns of the screen. */
  lemma {:induction false} IndexInjective(x: int, y: int, x': int, y': int, xres: nat)
    requires 0 <= x < xres && 0 <= x' < xres
    requires Index(x, y, xres) == Index(x', y', xres)
    ensures x == x' && y == y'
  {
    assert (y - y') * xres == x' - x;
    SmallMultipleIsZero(y - y', xres, x' - x);
  }

  // ---------- painted sets ----------

  ghost function Rect(sx: int, ex: int, sy: int, ey: int, xres: nat): set<int> {
    set x, y | sx <= x < ex && sy <= y < ey :: Index(x, y, xres)
  }

  lemma RectEmpty(sx: int, ex: int, sy: int, ey: int, xres: nat)
    requires ex <= sx || ey <= sy
    ensures Rect(sx, ex, sy, ey, xres) == {}
  {
  }

  lemma RectAddColumn(sx: int, x: int, sy: int, ey: int, xres: nat)
    requires sx <= x
    ensures Rect(sx, x + 1, sy, ey, xres) == Rect(sx, x, sy, ey, xres) + Rect(x, x + 1, sy, ey, xres)
  {
  }

  lemma ColumnAddPixel(x: int, sy: int, y: int, xres: nat)
    requires sy <= y
    ensures Rect(x, x + 1, sy, y + 1, xres) == Rect(x, x + 1, sy, y, xres) + {Index(x, y, xres)}
  {
    assert Index(x, y, xres) in Rect(x, x + 1, sy, y + 1, xres);
  }

  lemma LineGrows(before: seq<bv8>, sx: int, x: int, y: int, xres: nat, c: Colour)
    requires sx <= x
    ensures Paint(Paint(before, Rect(sx, x, y, y + 1, xres), c), {Index(x, y, xres)}, c)
         == Paint(before, Rect(sx, x + 1, y, y + 1, xres), c)
  {
    RectAddColumn(sx, x, y, y + 1, xres);
    RectEmpty(x, x + 1, y, y, xres);
    ColumnAddPixel(x, y, y, xres);
    PaintTwice(before, Rect(sx, x, y, y + 1, xres), {Index(x, y, xres)}, c);
  }

  lemma ColumnGrows(before: seq<bv8>, x: int, sy: int, y: int, xres: nat, c: Colour)
    requires sy <= y
    ensures Paint(Paint(before, Rect(x, x + 1, sy, y, xres), c), {Index(x, y, xres)}, c)
         == Paint(before, Rect(x, x + 1, sy, y + 1, xres), c)
  {
    ColumnAddPixel(x, sy, y, xres);
    PaintTwice(before, Rect(x, x + 1, sy, y, xres), {Index(x, y, xres)}, c);
  }

  // A finished inner loop extends the painted rectangle by its column.
  lemma ColumnDone(before: seq<bv8>, sx: int, x: int, sy: int, ey: int, y: int, xres: nat, c: Colour)
    requires sx <= x && (if sy <= ey then y == ey else y == sy)
    ensures Paint(Paint(before, Rect(sx, x, sy, ey, xres), c), Rect(x, x + 1, sy, y, xres), c)
         == Paint(before, Rect(sx, x + 1, sy, ey, xres), c)
  {
    if ey < sy {
      RectEmpty(x, x + 1, sy, y, xres);
      RectEmpty(x, x + 1, sy, ey, xres);
    }
    RectAddColumn(sx, x, sy, ey, xres);
    PaintTwice(before, Rect(sx, x, sy, ey, xres), Rect(x, x + 1, sy, y, xres), c);
  }

  ghost function Place(pixels: set<Pixel>, cx: int, cy: int, xres: nat): set<int> {
    set p | p in pixels :: Index(p.0 + cx, p.1 + cy, xres)
  }

  ghost function RingPixels(r: int): set<Pixel> {
    set x, y | -r <= x <= r && -r <= y <= r && OnRing(r, (x, y)) :: (x, y)
  }

  // The part of the ring drawn in the loop's first n passes.
  ghost function RingRows(r: int, n: int): set<Pixel> {
    set p | p in RingPixels(r) && Min(Abs(p.0), Abs(p.1)) < n
  }

  lemma RingPixelsAreTheRing(r: int, p: Pixel)
    ensures p in RingPixels(r) <==> OnRing(r, p)
  {
    if OnRing(r, p) {
      var x, y := Max(Abs(p.0), Abs(p.1)), Min(Abs(p.0), Abs(p.1));
      VisitsExactlyTheOctant(r, x, y);
      HeadXNeverGrows(r, 0, y);
      assert p == (p.0, p.1);
    }
  }

  lemma RowAdded(r: int, n: nat)
    requires HeadAt(r, n).x >= n
    ensures RingRows(r, n + 1) == RingRows(r, n) + Eight(HeadAt(r, n).x, n)
  {
    var x := HeadAt(r, n).x;
    ReachesIsGuard(r, n);
    VisitsExactlyTheOctant(r, x, n);
    forall p: Pixel
      ensures p in RingRows(r, n + 1) <==> p in RingRows(r, n) + Eight(x, n)
    {
      RingPixelsAreTheRing(r, p);
      EightIsAbs(x, n, p);
      var a, b := Max(Abs(p.0), Abs(p.1)), Min(Abs(p.0), Abs(p.1));
      if b == n {
        VisitsExactlyTheOctant(r, a, b);
      }
    }
  }

  lemma AllRowsDrawn(r: int, n: nat)
    requires HeadAt(r, n).x < n
    ensures RingRows(r, n) == RingPixels(r)
  {
    forall p | p in RingPixels(r)
      ensures Min(Abs(p.0), Abs(p.1)) < n
    {
      RingPixelsAreTheRing(r, p);
      var a, b := Max(Abs(p.0), Abs(p.1)), Min(Abs(p.0), Abs(p.1));
      VisitsExactlyTheOctant(r, a, b);
      if b >= n {
        ReachesIsGuard(r, b);
        HeadXNeverGrows(r, n, b);
      }
    }
  }

  lemma NoRowsYet(r: int)
    ensures RingRows(r, 0) == {}
  {
  }

  lemma PlaceUnion(a: set<Pixel>, b: set<Pixel>, cx: int, cy: int, xres: nat)
    ensures Place(a + b, cx, cy, xres) == Place(a, cx, cy, xres) + Place(b, cx, cy, xres)
  {
  }

  lemma PlaceOne(before: seq<bv8>, a: set<Pixel>, p: Pixel, cx: int, cy: int, xres: nat, c: Colour)
    ensures Paint(Paint(before, Place(a, cx, cy, xres), c), {Index(p.0 + cx, p.1 + cy, xres)}, c)
         == Paint(before, Place(a + {p}, cx, cy, xres), c)
  {
    assert Place({p}, cx, cy, xres) == {Index(p.0 + cx, p.1 + cy, xres)} by {
      assert p in {p};
      assert Index(p.0 + cx, p.1 + cy, xres) in Place({p}, cx, cy, xres);
    }
    PlaceUnion(a, {p}, cx, cy, xres);
    PaintTwice(before, Place(a, cx, cy, xres), {Index(p.0 + cx, p.1 + cy, xres)}, c);
  }

  // ---------- the device ----------

  class Screen {
    const xres: nat
    const yres: nat
    const fb: array<bv8>
    var pos: int   // file offset

    ghost predicate Valid() {
      fb.Length == 2 * (xres * yres) && fb.Length < 0x8000_0000
    }

    /** Every pixel number in the set lies within the device. */
    ghost predicate Fits(pixels: set<int>) {
      forall i :: i in pixels ==> 0 <= i < xres * yres
    }

    constructor (xres: nat, yres: nat)
      requires 2 * (xres * yres) < 0x8000_0000
      ensures Valid() && fresh(fb) && this.xres == xres && this.yres == yres
    {
      this.xres, this.yres := xres, yres;
      fb := new bv8[2 * (xres * yres)];
      pos := 0;
    }

    method Seek(offset: int)
      requires offset >= 0
      modifies this`pos
      ensures pos == offset
    {
      pos := offset;
    }

    // write(fd, &color, 2)
    method WriteColour(c: Colour)
      requires 0 <= pos && pos + 1 < fb.Length && pos % 2 == 0
      modifies fb, this`pos
      ensures pos == old(pos) + 2
      ensures fb[..] == Paint(old(fb[..]), {old(pos) / 2}, c)
      ensures (fb[old(pos) + 1] as bv16 << 8) | fb[old(pos)] as bv16 == c
    {
      ColourBytes(c);
      fb[pos] := ColourByte(c, 0);
      fb[pos + 1] := ColourByte(c, 1);
      pos := pos + 2;
    }

    // The 16-bit store at pixel i.
    method StoreColour(i: int, c: Colour)
      requires Valid() && 0 <= i < xres * yres
      modifies fb
      ensures fb[..] == Paint(old(fb[..]), {i}, c)
      ensures (fb[2 * i + 1] as bv16 << 8) | fb[2 * i] as bv16 == c
    {
      ColourBytes(c);
      fb[2 * i] := ColourByte(c, 0);
      fb[2 * i + 1] := ColourByte(c, 1);
    }

    // *(pfd + x + y * vinfo.xres) = color
    method StorePixel(x: int, y: int, c: Colour)
      requires Valid() && 0 <= Index(x, y, xres) < xres * yres
      modifies fb
      ensures fb[..] == Paint(old(fb[..]), {Index(x, y, xres)}, c)
    {
      StoreColour(x + y * xres, c);
    }

    // The three statements every file-descriptor routine writes a pixel with.
    method PutPixel(x: int, y: int, c: Colour)
      requires Valid() && 0 <= Index(x, y, xres) < xres * yres
      modifies fb, this`pos
      ensures fb[..] == Paint(old(fb[..]), {Index(x, y, xres)}, c)
      ensures var k := 2 * (x + y * xres); (fb[k + 1] as bv16 << 8) | fb[k] as bv16 == c
    {
      var offset := Offset(x, y, xres);
      Seek(offset);
      WriteColour(c);
    }

    method DrawPoint(x: int, y: int, c: Colour)
      requires Valid() && Fits({Index(x, y, xres)})
      modifies fb, this`pos
      ensures fb[..] == Paint(old(fb[..]), {Index(x, y, xres)}, c)
      ensures var k := 2 * (x + y * xres); (fb[k + 1] as bv16 << 8) | fb[k] as bv16 == c
    {
      assert Index(x, y, xres) in {Index(x, y, xres)};
      PutPixel(x, y, c);
    }

    method DrawLine(startX: int, endX: int, y: int, c: Colour)
      requires Valid() && Fits(Rect(startX, endX, y, y + 1, xres))
      modifies fb, this`pos
      ensures fb[..] == Paint(old(fb[..]), Rect(startX, endX, y, y + 1, xres), c)
    {
      ghost var before := fb[..];
      RectEmpty(startX, startX, y, y + 1, xres);
      RectEmpty(startX, endX, y, y, xres);
      PaintNothing(before, c);
      var x := startX;
      while x < endX
        invariant x == startX || startX <= x <= endX
        invariant fb[..] == Paint(before, Rect(startX, x, y, y + 1, xres), c)
      {
        assert Index(x, y, xres) in Rect(startX, endX, y, y + 1, xres);
        PutPixel(x, y, c);
        LineGrows(before, startX, x, y, xres, c);
        x := x + 1;
      }
      if endX < startX {
        RectEmpty(startX, endX, y, y + 1, xres);
      }
    }

    method DrawFace(startX: int, startY: int, endX: int, endY: int, c: Colour)
      requires Valid()
      requires Fits(Rect(startX, if endX == 0 then xres else endX, startY, if endY == 0 then yres else endY, xres))
      modifies fb, this`pos
      ensures fb[..] == Paint(old(fb[..]), Rect(startX, if endX == 0 then xres else endX,
                                                startY, if endY == 0 then yres else endY, xres), c)
    {
      ghost var before := fb[..];
      var ex, ey := endX, endY;
      if ex == 0 {
        ex := xres;
      }
      if ey == 0 {
        ey := yres;
      }
      RectEmpty(startX, startX, startY, ey, xres);
      PaintNothing(before, c);
      var x := startX;
      while x < ex
        invariant x == startX || startX <= x <= ex
        invariant fb[..] == Paint(before, Rect(startX, x, startY, ey, xres), c)
      {
        ghost var left := Rect(startX, x, startY, ey, xres);
        ghost var mid := fb[..];
        RectEmpty(x, x + 1, startY, startY, xres);
        PaintNothing(mid, c);
        var y := startY;
        while y < ey
          invariant y == startY || startY <= y <= ey
          invariant fb[..] == Paint(mid, Rect(x, x + 1, startY, y, xres), c)
        {
          assert Index(x, y, xres) in Rect(startX, ex, startY, ey, xres);
          PutPixel(x, y, c);
          ColumnGrows(mid, x, startY, y, xres, c);
          y := y + 1;
        }
        ColumnDone(before, startX, x, startY, ey, y, xres, c);
        x := x + 1;
      }
      if ex < startX {
        RectEmpty(startX, ex, startY, ey, xres);
      }
    }

    // The memory-mapped fill.  Its two `if` statements evaluate the screen size and discard
    // it, so a zero end stays zero.  Pointers have 32 bits, so that the unsigned product
    // y * vinfo.xres added to one gives the pixel number also for a negative y.
    method DrawFaceMMAP(startX: int, startY: int, endX: int, endY: int, c: Colour)
      requires Valid() && Fits(Rect(startX, endX, startY, endY, xres))
      modifies fb
      ensures fb[..] == Paint(old(fb[..]), Rect(startX, endX, startY, endY, xres), c)
    {
      ghost var before := fb[..];
      RectEmpty(startX, startX, startY, endY, xres);
      PaintNothing(before, c);
      var x := startX;
      while x < endX
        invariant x == startX || startX <= x <= endX
        invariant fb[..] == Paint(before, Rect(startX, x, startY, endY, xres), c)
      {
        ghost var mid := fb[..];
        RectEmpty(x, x + 1, startY, startY, xres);
        PaintNothing(mid, c);
        var y := startY;
        while y < endY
          invariant y == startY || startY <= y <= endY
          invariant fb[..] == Paint(mid, Rect(x, x + 1, startY, y, xres), c)
        {
          assert Index(x, y, xres) in Rect(startX, endX, startY, endY, xres);
          StorePixel(x, y, c);
          ColumnGrows(mid, x, startY, y, xres, c);
          y := y + 1;
        }
        ColumnDone(before, startX, x, startY, endY, y, xres, c);
        x := x + 1;
      }
      if endX < startX {
        RectEmpty(startX, endX, startY, endY, xres);
      }
    }

    // DrawPoint(fd, dx + center_x, dy + center_y, color)
    method PlotOne(dx: int, dy: int, cx: int, cy: int, c: Colour,
                   ghost ring: set<Pixel>, ghost before: seq<bv8>, ghost done: set<Pixel>)
      returns (ghost now: set<Pixel>)
      requires Valid() && (dx, dy) in ring && Fits(Place(ring, cx, cy, xres))
      requires fb[..] == Paint(before, Place(done, cx, cy, xres), c)
      modifies fb, this`pos
      ensures now == done + {(dx, dy)}
      ensures fb[..] == Paint(before, Place(now, cx, cy, xres), c)
    {
      now := done + {(dx, dy)};
      ghost var p := (dx, dy);
      assert Index(p.0 + cx, p.1 + cy, xres) in Place(ring, cx, cy, xres);
      DrawPoint(dx + cx, dy + cy, c);
      PlaceOne(before, done, p, cx, cy, xres, c);
    }

    // The eight calls of the loop body.
    method PlotEight(x: int, y: int, cx: int, cy: int, c: Colour,
                     ghost ring: set<Pixel>, ghost before: seq<bv8>, ghost done: set<Pixel>)
      returns (ghost now: set<Pixel>)
      requires Valid() && Eight(x, y) <= ring && Fits(Place(ring, cx, cy, xres))
      requires fb[..] == Paint(before, Place(done, cx, cy, xres), c)
      modifies fb, this`pos
      ensures now == done + Eight(x, y)
      ensures fb[..] == Paint(before, Place(now, cx, cy, xres), c)
    {
      now := PlotOne(x, y, cx, cy, c, ring, before, done);
      now := PlotOne(y, x, cx, cy, c, ring, before, now);
      now := PlotOne(-x, y, cx, cy, c, ring, before, now);
      now := PlotOne(-y, x, cx, cy, c, ring, before, now);
      now := PlotOne(-x, -y, cx, cy, c, ring, before, now);
      now := PlotOne(-y, -x, cx, cy, c, ring, before, now);
      now := PlotOne(x, -y, cx, cy, c, ring, before, now);
      now := PlotOne(y, -x, cx, cy, c, ring, before, now);
    }

    method DrawCircle(cx: int, cy: int, radius: int, c: Colour)
      requires Valid() && Fits(Place(RingPixels(radius), cx, cy, xres))
      modifies fb, this`pos
      ensures fb[..] == Paint(old(fb[..]), Place(RingPixels(radius), cx, cy, xres), c)
    {
      ghost var before := fb[..];
      ghost var rows: set<Pixel> := {};
      NoRowsYet(radius);
      PaintNothing(before, c);
      var x, y := radius, 0;
      var radiusError := 1 - x;
      while x >= y
        invariant y >= 0 && HeadAt(radius, y) == Head(x, y, radiusError)
        invariant rows == RingRows(radius, y)
        invariant fb[..] == Paint(before, Place(rows, cx, cy, xres), c)
        decreases x - y
      {
        RowAdded(radius, y);
        rows := PlotEight(x, y, cx, cy, c, RingPixels(radius), before, rows);
        y := y + 1;
        if radiusError < 0 {
          radiusError := radiusError + (2 * y + 1);
        } else {
          x := x - 1;
          radiusError := radiusError + 2 * (y - x + 1);
        }
      }
      AllRowsDrawn(radius, y);
    }
  }

  // ---------- what the painted sets look like on screen ----------

  // The colour of pixel number i: its two bytes, low byte first.
  function PixelAt(fb: seq<bv8>, i: int): Colour
    requires 0 <= i && 2 * i + 1 < |fb|
  {
    (fb[2 * i + 1] as bv16 << 8) | fb[2 * i] as bv16
  }

  lemma PaintedPixel(fb: seq<bv8>, pixels: set<int>, c: Colour, i: int)
    requires 0 <= i && 2 * i + 1 < |fb|
    ensures PixelAt(Paint(fb, pixels, c), i) == if i in pixels then c else PixelAt(fb, i)
  {
    assert 2 * i / 2 == i && (2 * i + 1) / 2 == i;
    ColourBytes(c);
  }

  ghost predicate CircleOnScreen(r: int, cx: int, cy: int, xres: nat, yres: nat) {
    0 <= cx - r && cx + r < xres && 0 <= cy - r && cy + r < yres
  }

  lemma RingSize(r: int, p: Pixel)
    requires OnRing(r, p)
    ensures -r <= p.0 <= r && -r <= p.1 <= r
  {
    RingPixelsAreTheRing(r, p);
  }

  /** A circle wholly on screen meets DrawCircle's precondition. */
  lemma {:induction false} OnScreenCircleFits(r: int, cx: int, cy: int, xres: nat, yres: nat)
    requires r < 0 || CircleOnScreen(r, cx, cy, xres, yres)
    ensures forall i :: i in Place(RingPixels(r), cx, cy, xres) ==> 0 <= i < xres * yres
  {
    forall i | i in Place(RingPixels(r), cx, cy, xres)
      ensures 0 <= i < xres * yres
    {
      var p :| p in RingPixels(r) && i == Index(p.0 + cx, p.1 + cy, xres);
      RingPixelsAreTheRing(r, p);
      RingSize(r, p);
      IndexInRange(p.0 + cx, p.1 + cy, xres, yres);
    }
  }

  /** After DrawCircle of a circle wholly on screen, the pixel at (px, py) holds the colour
      when its offset from the centre is on the ring, and what it held before otherwise. */
  lemma {:induction false} CirclePixels(fb: seq<bv8>, r: int, cx: int, cy: int,
      xres: nat, yres: nat, c: Colour, px: int, py: int)
    requires |fb| == 2 * (xres * yres)
    requires r < 0 || CircleOnScreen(r, cx, cy, xres, yres)
    requires OnScreen(px, py, xres, yres)
    ensures 0 <= Index(px, py, xres) < xres * yres
    ensures var after := Paint(fb, Place(RingPixels(r), cx, cy, xres), c);
      PixelAt(after, Index(px, py, xres)) ==
      if OnRing(r, (px - cx, py - cy)) then c else PixelAt(fb, Index(px, py, xres))
  {
    var i := Index(px, py, xres);
    var d := (px - cx, py - cy);
    IndexInRange(px, py, xres, yres);
    RingPixelsAreTheRing(r, d);
    PaintedPixel(fb, Place(RingPixels(r), cx, cy, xres), c, i);
    if i in Place(RingPixels(r), cx, cy, xres) {
      var p :| p in RingPixels(r) && i == Index(p.0 + cx, p.1 + cy, xres);
      RingPixelsAreTheRing(r, p);
      RingSize(r, p);
      IndexInjective(p.0 + cx, p.1 + cy, px, py, xres);
      assert p == d;
    }
    if OnRing(r, d) {
      assert Index(d.0 + cx, d.1 + cy, xres) == i;
    }
  }

  /** After a fill of an on-screen rectangle, the pixel at (px, py) holds the colour when it
      is inside the rectangle, and what it held before otherwise. */
  lemma {:induction false} RectPixels(fb: seq<bv8>, sx: int, ex: int, sy: int, ey: int,
      xres: nat, yres: nat, c: Colour, px: int, py: int)
    requires |fb| == 2 * (xres * yres)
    requires 0 <= sx && ex <= xres && 0 <= sy && ey <= yres
    requires OnScreen(px, py, xres, yres)
    ensures 0 <= Index(px, py, xres) < xres * yres
    ensures var after := Paint(fb, Rect(sx, ex, sy, ey, xres), c);
      PixelAt(after, Index(px, py, xres)) ==
      if sx <= px < ex && sy <= py < ey then c else PixelAt(fb, Index(px, py, xres))
  {
    var i := Index(px, py, xres);
    IndexInRange(px, py, xres, yres);
    PaintedPixel(fb, Rect(sx, ex, sy, ey, xres), c, i);
    if i in Rect(sx, ex, sy, ey, xres) {
      var x, y :| sx <= x < ex && sy <= y < ey && i == Index(x, y, xres);
      IndexInjective(x, y, px, py, xres);
    }
  }

  // ---------- agreement of the three fills ----------

  // The framebuffer after DrawLine on each row sy..ey-1 in turn.
  ghost function LineByLine(fb: seq<bv8>, sx: int, ex: int, sy: int, ey: int, xres: nat, c: Colour): seq<bv8>
    decreases ey - sy
  {
    if ey <= sy then fb
    else LineByLine(Paint(fb, Rect(sx, ex, sy, sy + 1, xres), c), sx, ex, sy + 1, ey, xres, c)
  }

  lemma RectAddTopRow(sx: int, ex: int, sy: int, ey: int, xres: nat)
    requires sy < ey
    ensures Rect(sx, ex, sy, ey, xres) == Rect(sx, ex, sy, sy + 1, xres) + Rect(sx, ex, sy + 1, ey, xres)
  {
  }

  /** Filling line by line leaves the framebuffer that the column-by-column fills leave. */
  lemma {:induction false} LinesFillTheFace(fb: seq<bv8>, sx: int, ex: int, sy: int, ey: int, xres: nat, c: Colour)
    ensures LineByLine(fb, sx, ex, sy, ey, xres, c) == Paint(fb, Rect(sx, ex, sy, ey, xres), c)
    decreases ey - sy
  {
    if ey <= sy {
      RectEmpty(sx, ex, sy, ey, xres);
      PaintNothing(fb, c);
    } else {
      LinesFillTheFace(Paint(fb, Rect(sx, ex, sy, sy + 1, xres), c), sx, ex, sy + 1, ey, xres, c);
      PaintTwice(fb, Rect(sx, ex, sy, sy + 1, xres), Rect(sx, ex, sy + 1, ey, xres), c);
      RectAddTopRow(sx, ex, sy, ey, xres);
    }
  }

  ghost predicate SameFill(xres: nat, yres: nat, a: set<int>, b: set<int>) {
    forall fb: seq<bv8>, c: Colour :: |fb| == 2 * (xres * yres) ==> Paint(fb, a, c) == Paint(fb, b, c)
  }

  /** DrawFace and DrawFaceMMAP agree on every framebuffer and colour exactly when neither
      end is zero or DrawFace's own rectangle is empty: with a zero end DrawFace fills to the
      edge of the screen and the memory-mapped fill paints nothing. */
  lemma FacesAgree(sx: int, sy: int, ex: int, ey: int, xres: nat, yres: nat)
    requires 0 <= sx && 0 <= sy && ex <= xres && ey <= yres
    ensures var fx, fy := if ex == 0 then xres else ex, if ey == 0 then yres else ey;
      SameFill(xres, yres, Rect(sx, fx, sy, fy, xres), Rect(sx, ex, sy, ey, xres))
      <==> (ex != 0 && ey != 0) || sx >= fx || sy >= fy
  {
    var fx, fy := if ex == 0 then xres else ex, if ey == 0 then yres else ey;
    if sx >= fx || sy >= fy {
      RectEmpty(sx, fx, sy, fy, xres);
      RectEmpty(sx, ex, sy, ey, xres);
    } else if ex == 0 || ey == 0 {
      var fb := seq(2 * (xres * yres), i => 0 as bv8);
      var c: Colour := 0xFFFF;
      RectEmpty(sx, ex, sy, ey, xres);
      RectPixels(fb, sx, fx, sy, fy, xres, yres, c, sx, sy);
      RectPixels(fb, sx, ex, sy, ey, xres, yres, c, sx, sy);
      assert PixelAt(fb, Index(sx, sy, xres)) == 0;
      assert Paint(fb, Rect(sx, fx, sy, fy, xres), c) != Paint(fb, Rect(sx, ex, sy, ey, xres), c);
    }
  }

  /** An on-screen rectangle meets the precondition of the line and face routines. */
  lemma {:induction false} OnScreenRectFits(sx: int, ex: int, sy: int, ey: int, xres: nat, yres: nat)
    requires 0 <= sx && ex <= xres && 0 <= sy && ey <= yres
    ensures forall i :: i in Rect(sx, ex, sy, ey, xres) ==> 0 <= i < xres * yres
  {
    forall x, y | sx <= x < ex && sy <= y < ey
      ensures 0 <= Index(x, y, xres) < xres * yres
    {
      IndexInRange(x, y, xres, yres);
    }
  }
}
