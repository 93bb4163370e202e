/** Grayscale images as the filters of imaging/convolve.c see them: sampled at any integer
    coordinates, with coordinates outside the image moved to the nearest edge. */
module Raster {
  import opened Bytes
  import opened Frame

  /** Images whose pixel buffer has one byte per pixel. */
  type Raster = im: Image | |im.pix| == im.w * im.h witness Image(0, 0, [])

  function Clamp(v: int, lo: int, hi: int): int {
    if v < lo then lo else if v > hi then hi else v
  }

  function Cell(w: nat, x: nat, y: nat): nat {
    y * w + x
  }

  lemma CellInside(w: nat, h: nat, x: nat, y: nat)
    requires x < w && y < h
    ensures Cell(w, x, y) < w * h
  {
    MoreRows(y + 1, h, w);
  }

  lemma MoreRows(a: nat, b: nat, w: nat)
    requires a <= b
    ensures a * w <= b * w
  {
  }

  lemma {:induction false} RowFits(w: nat, h: nat, y: nat)
    requires y < h
    ensures RowStart(w, y) + w == RowStart(w, y + 1) <= w * h
  {
    RowStartExact(w, y + 1);
    MoreRows(y + 1, h, w);
  }

  /** `at`: sample with edge clamping. Nothing is ever sampled from an image without pixels. */
  function Sample(im: Raster, x: int, y: int): U8 {
    if im.w == 0 || im.h == 0 then 0
    else
      var cx, cy := Clamp(x, 0, im.w - 1), Clamp(y, 0, im.h - 1);
      CellInside(im.w, im.h, cx, cy);
      im.pix[Cell(im.w, cx, cy)]
  }

  /** Inside the image a sample is the pixel; beyond an edge it is the one on that edge. */
  lemma SampleNearest(im: Raster, x: int, y: int, cx: nat, cy: nat)
    requires cx < im.w && cy < im.h
    requires if x < 0 then cx == 0 else if x >= im.w then cx == im.w - 1 else cx == x
    requires if y < 0 then cy == 0 else if y >= im.h then cy == im.h - 1 else cy == y
    ensures cy * im.w + cx < |im.pix| && Sample(im, x, y) == im.pix[cy * im.w + cx]
  {
    CellInside(im.w, im.h, cx, cy);
  }

  // ---- images given pixel by pixel --------------------------------------------------

  function Column(w: nat, i: nat): nat {
    if w == 0 then 0 else i % w
  }

  function Row(w: nat, i: nat): nat {
    if w == 0 then 0 else i / w
  }

  function Tabulate(w: nat, h: nat, f: (int, int) -> U8): (im: Raster)
    ensures im.w == w && im.h == h
  {
    Image(w, h, seq(w * h, i requires 0 <= i => f(Column(w, i), Row(w, i))))
  }

  lemma CellCoordinates(w: nat, x: nat, y: nat)
    requires x < w
    ensures Column(w, Cell(w, x, y)) == x && Row(w, Cell(w, x, y)) == y
  {
    var i := y * w + x;
    SameQuotient(w, y, x, i / w, i % w);
  }

  lemma SameQuotient(w: nat, y: int, x: nat, q: int, r: nat)
    requires x < w && r < w && y * w + x == q * w + r
    ensures q == y && r == x
  {
    assert (q - y) * w == x - r;
    NoMultiple(q - y, w);
  }

  lemma NoMultiple(d: int, w: nat)
    requires 0 - w < d * w < w
    ensures d == 0
  {
  }

  lemma TabulateCell(w: nat, h: nat, f: (int, int) -> U8, x: nat, y: nat)
    requires x < w && y < h
    ensures Cell(w, x, y) < w * h && Tabulate(w, h, f).pix[Cell(w, x, y)] == f(x, y)
  {
    CellInside(w, h, x, y);
    CellCoordinates(w, x, y);
  }

  /** Sampling a tabulated image anywhere. */
  lemma SampleTabulate(w: nat, h: nat, f: (int, int) -> U8, x: int, y: int)
    requires w > 0 && h > 0
    ensures Sample(Tabulate(w, h, f), x, y) == f(Clamp(x, 0, w - 1), Clamp(y, 0, h - 1))
  {
    TabulateCell(w, h, f, Clamp(x, 0, w - 1), Clamp(y, 0, h - 1));
  }

  lemma IndexInside(w: nat, h: nat, i: nat)
    requires i < w * h
    ensures Column(w, i) < w && Row(w, i) < h && Cell(w, Column(w, i), Row(w, i)) == i
  {
    if w > 0 {
      assert i == i / w * w + i % w;
      RowInside(w, h, i / w, i % w);
    }
  }

  lemma RowInside(w: nat, h: nat, q: nat, r: nat)
    requires q * w + r < w * h
    ensures q < h
  {
  }

  /** Images that agree on every pixel of the grid are the same. */
  lemma SameTable(w: nat, h: nat, f: (int, int) -> U8, g: (int, int) -> U8)
    requires forall x, y :: 0 <= x < w && 0 <= y < h ==> f(x, y) == g(x, y)
    ensures Tabulate(w, h, f) == Tabulate(w, h, g)
  {
    var a, b := Tabulate(w, h, f).pix, Tabulate(w, h, g).pix;
    forall i | 0 <= i < w * h ensures a[i] == b[i] {
      IndexInside(w, h, i);
    }
    assert a == b;
  }

  function SampleMap(im: Raster): (int, int) -> U8 {
    (x, y) => Sample(im, x, y)
  }

  /** An image is the table of its own samples. */
  lemma Resampled(im: Raster)
    ensures Tabulate(im.w, im.h, SampleMap(im)) == im
  {
    var pix := Tabulate(im.w, im.h, SampleMap(im)).pix;
    forall i | 0 <= i < im.w * im.h ensures pix[i] == im.pix[i] {
      IndexInside(im.w, im.h, i);
    }
    assert pix == im.pix;
  }

  // ---- symmetries -------------------------------------------------------------------

  function TransposeMap(im: Raster): (int, int) -> U8 {
    (x, y) => Sample(im, y, x)
  }

  function Transpose(im: Raster): Raster {
    Tabulate(im.h, im.w, TransposeMap(im))
  }

  function MirrorMap(im: Raster): (int, int) -> U8 {
    (x, y) => Sample(im, im.w - 1 - x, y)
  }

  /** Horizontal flip. */
  function Mirror(im: Raster): Raster {
    Tabulate(im.w, im.h, MirrorMap(im))
  }

  function FlipMap(im: Raster): (int, int) -> U8 {
    (x, y) => Sample(im, x, im.h - 1 - y)
  }

  /** Vertical flip. */
  function Flip(im: Raster): Raster {
    Tabulate(im.w, im.h, FlipMap(im))
  }

  function NegativeMap(im: Raster): (int, int) -> U8 {
    (x, y) => 255 - Sample(im, x, y)
  }

  function Negative(im: Raster): Raster {
    Tabulate(im.w, im.h, NegativeMap(im))
  }

  lemma SampleTranspose(im: Raster, x: int, y: int)
    requires im.w > 0 && im.h > 0
    ensures Sample(Transpose(im), x, y) == Sample(im, y, x)
  {
    SampleTabulate(im.h, im.w, TransposeMap(im), x, y);
  }

  lemma SameSample(im: Raster, x: int, y: int, x': int, y': int)
    requires Clamp(x, 0, im.w - 1) == Clamp(x', 0, im.w - 1) && Clamp(y, 0, im.h - 1) == Clamp(y', 0, im.h - 1)
    ensures Sample(im, x, y) == Sample(im, x', y')
  {
  }

  lemma SampleMirror(im: Raster, x: int, y: int)
    requires im.w > 0 && im.h > 0
    ensures Sample(Mirror(im), x, y) == Sample(im, im.w - 1 - x, y)
  {
    var cx, cy := Clamp(x, 0, im.w - 1), Clamp(y, 0, im.h - 1);
    SampleTabulate(im.w, im.h, MirrorMap(im), x, y);
    assert MirrorMap(im)(cx, cy) == Sample(im, im.w - 1 - cx, cy);
    SameSample(im, im.w - 1 - cx, cy, im.w - 1 - x, y);
  }

  lemma SampleFlip(im: Raster, x: int, y: int)
    requires im.w > 0 && im.h > 0
    ensures Sample(Flip(im), x, y) == Sample(im, x, im.h - 1 - y)
  {
    var cx, cy := Clamp(x, 0, im.w - 1), Clamp(y, 0, im.h - 1);
    SampleTabulate(im.w, im.h, FlipMap(im), x, y);
    assert FlipMap(im)(cx, cy) == Sample(im, cx, im.h - 1 - cy);
    SameSample(im, cx, im.h - 1 - cy, x, im.h - 1 - y);
  }

  lemma SampleNegative(im: Raster, x: int, y: int)
    requires im.w > 0 && im.h > 0
    ensures Sample(Negative(im), x, y) == 255 - Sample(im, x, y)
  {
    SampleTabulate(im.w, im.h, NegativeMap(im), x, y);
  }
}
