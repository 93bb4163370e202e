/** The 3x3 filters of imaging/convolve.c. */
module Convolve {
  import opened Bytes
  import opened Frame
  import opened Raster

  type Kernel = k: seq<int> | |k| == 9 witness [0, 0, 0, 0, 0, 0, 0, 0, 0]

  const IDENTITY: Kernel := [0, 0, 0, 0, 1, 0, 0, 0, 0]
  const BLUR: Kernel := [1, 1, 1, 1, 1, 1, 1, 1, 1]
  const SHARPEN: Kernel := [0, -1, 0, -1, 5, -1, 0, -1, 0]
  const SOBEL_X: Kernel := [-1, 0, 1, -2, 0, 2, -1, 0, 1]
  const SOBEL_Y: Kernel := [-1, -2, -1, 0, 0, 0, 1, 2, 1]

  /** Division as C has it, rounding toward zero. */
  function Quotient(a: int, b: int): int
    requires b != 0
  {
    if a >= 0 then a / b else -(-a / b)
  }

  // ---- what a filter computes at one pixel ------------------------------------------

  /** The sum over the first `n` taps, row by row from the top left neighbour. */
  function Weighted(im: Raster, k: Kernel, x: int, y: int, n: nat): int
    requires n <= 9
  {
    if n == 0 then 0
    else Weighted(im, k, x, y, n - 1) + k[n - 1] * Sample(im, x + (n - 1) % 3 - 1, y + (n - 1) / 3 - 1)
  }

  function Sum(im: Raster, k: Kernel, x: int, y: int): int {
    Weighted(im, k, x, y, 9)
  }

  function Level(v: int): U8 {
    Clamp(v, 0, 255)
  }

  function ConvMap(im: Raster, k: Kernel, div: int, bias: int): (int, int) -> U8
    requires div != 0
  {
    (x, y) => Level(Quotient(Sum(im, k, x, y), div) + bias)
  }

  function Conv(im: Raster, k: Kernel, div: int, bias: int): Raster
    requires div != 0
  {
    Tabulate(im.w, im.h, ConvMap(im, k, div, bias))
  }

  function SobelMap(im: Raster): (int, int) -> U8 {
    (x, y) => Magnitude(Sum(im, SOBEL_X, x, y), Sum(im, SOBEL_Y, x, y))
  }

  function Sobel(im: Raster): Raster {
    Tabulate(im.w, im.h, SobelMap(im))
  }

  function Magnitude(gx: int, gy: int): U8 {
    Level(RoundRoot(Square(gx) + Square(gy)))
  }

  function Square(g: int): nat {
    if g < 0 then -g * -g else g * g
  }

  /** The square root rounded to the nearest integer. */
  function RoundRoot(n: nat): (r: nat)
    ensures IsRoundRoot(n, r)
  {
    RootFrom(n, 0)
  }

  predicate IsRoundRoot(n: nat, r: nat) {
    n <= r * r + r && (r == 0 || r * r - r < n)
  }

  function RootFrom(n: nat, k: nat): (r: nat)
    requires k == 0 || k * k - k < n
    ensures IsRoundRoot(n, r)
    decreases n - k
  {
    if n <= k * k + k then k
    else
      assert (k + 1) * (k + 1) - (k + 1) == k * k + k;
      assert k * k + k >= k;
      RootFrom(n, k + 1)
  }

  /** Exactly one integer is within one half of the square root. */
  lemma RoundRootNearest(n: nat, r: nat)
    ensures r == RoundRoot(n) <==> (r == 0 || (2 * r - 1) * (2 * r - 1) <= 4 * n) && 4 * n < (2 * r + 1) * (2 * r + 1)
  {
    assert (2 * r + 1) * (2 * r + 1) == 4 * (r * r + r) + 1;
    assert (2 * r - 1) * (2 * r - 1) == 4 * (r * r - r) + 1;
    if IsRoundRoot(n, r) {
      RoundRootUnique(n, r, RoundRoot(n));
    }
  }

  lemma RoundRootUnique(n: nat, a: nat, b: nat)
    requires IsRoundRoot(n, a) && IsRoundRoot(n, b)
    ensures a == b
  {
    if a < b {
      RootsApart(a, b);
    } else if b < a {
      RootsApart(b, a);
    }
  }

  lemma RootsApart(a: nat, b: nat)
    requires a < b
    ensures a * a + a <= b * b - b
  {
    var d := b - a - 1;
    assert b * b - b == (a + d) * (a + d) + a + d;
    assert (a + d) * (a + d) == a * a + 2 * (a * d) + d * d;
  }

  // ---- the loops --------------------------------------------------------------------

  method SampleAt(pix: array<U8>, w: nat, h: nat, x: int, y: int) returns (p: U8)
    requires pix.Length == w * h && w > 0 && h > 0
    ensures p == Sample(Image(w, h, pix[..]), x, y)
  {
    var cx, cy := Clamp(x, 0, w - 1), Clamp(y, 0, h - 1);
    CellInside(w, h, cx, cy);
    p := pix[cy * w + cx];
  }

  method Accumulate(pix: array<U8>, w: nat, h: nat, k: Kernel, x: int, y: int) returns (acc: int)
    requires pix.Length == w * h && w > 0 && h > 0
    ensures acc == Sum(Image(w, h, pix[..]), k, x, y)
  {
    ghost var im := Image(w, h, pix[..]);
    var ki := 0;
    acc := 0;
    for dy := -1 to 2
      invariant ki == 3 * (dy + 1) && acc == Weighted(im, k, x, y, ki)
    {
      for dx := -1 to 2
        invariant ki == 3 * (dy + 1) + dx + 1 && acc == Weighted(im, k, x, y, ki)
      {
        var p := SampleAt(pix, w, h, x + dx, y + dy);
        assert ki % 3 - 1 == dx && ki / 3 - 1 == dy;
        acc := acc + k[ki] * p;
        ki := ki + 1;
      }
    }
  }

  /** `conv3x3`. */
  method Conv3x3(pix: array?<U8>, w: nat, h: nat, out: array?<U8>, ow: nat, oh: nat, k: Kernel, div: int, bias: int)
    returns (r: int)
    requires pix != null ==> pix.Length == w * h
    requires out != null ==> out.Length == ow * oh && out != pix
    modifies out
    ensures r == if pix == null || out == null || w != ow || h != oh || div == 0 then -1 else 0
    ensures r == 0 ==> out[..] == Conv(Image(w, h, pix[..]), k, div, bias).pix
    ensures r == -1 && out != null ==> out[..] == old(out[..])
  {
    if pix == null || out == null || w != ow || h != oh || div == 0 {
      return -1;
    }
    ghost var all := Conv(Image(w, h, pix[..]), k, div, bias).pix;
    var y, at := 0, 0;
    while y < h
      invariant 0 <= y <= h && at == RowStart(w, y) <= out.Length
      invariant out[..at] == all[..at]
    {
      RowFits(w, h, y);
      ConvRow(pix, w, h, out, k, div, bias, y, at, all);
      y, at := y + 1, at + w;
    }
    RowStartExact(w, h);
    return 0;
  }

  method ConvRow(pix: array<U8>, w: nat, h: nat, out: array<U8>, k: Kernel, div: int, bias: int, y: nat, at: nat,
                 ghost all: seq<U8>)
    requires pix.Length == w * h == out.Length == |all| && out != pix && y < h && div != 0
    requires at == RowStart(w, y) && at + w <= out.Length
    requires all == Conv(Image(w, h, pix[..]), k, div, bias).pix && out[..at] == all[..at]
    modifies out
    ensures out[..at + w] == all[..at + w]
  {
    ghost var im := Image(w, h, pix[..]);
    RowStartExact(w, y);
    var x := 0;
    while x < w
      invariant 0 <= x <= w && out[..at + x] == all[..at + x]
    {
      var acc := Accumulate(pix, w, h, k, x, y);
      var v := Level(Quotient(acc, div) + bias);
      TabulateCell(w, h, ConvMap(im, k, div, bias), x, y);
      out[at + x] := v;
      assert out[..at + x] == all[..at + x];
      x := x + 1;
    }
  }

  /** `sobel`. */
  method SobelFilter(pix: array?<U8>, w: nat, h: nat, out: array?<U8>, ow: nat, oh: nat)
    returns (r: int)
    requires pix != null ==> pix.Length == w * h
    requires out != null ==> out.Length == ow * oh && out != pix
    modifies out
    ensures r == if pix == null || out == null || w != ow || h != oh then -1 else 0
    ensures r == 0 ==> out[..] == Sobel(Image(w, h, pix[..])).pix
    ensures r == -1 && out != null ==> out[..] == old(out[..])
  {
    if pix == null || out == null || w != ow || h != oh {
      return -1;
    }
    ghost var all := Sobel(Image(w, h, pix[..])).pix;
    var y, at := 0, 0;
    while y < h
      invariant 0 <= y <= h && at == RowStart(w, y) <= out.Length
      invariant out[..at] == all[..at]
    {
      RowFits(w, h, y);
      SobelRow(pix, w, h, out, y, at, all);
      y, at := y + 1, at + w;
    }
    RowStartExact(w, h);
    return 0;
  }

  method SobelRow(pix: array<U8>, w: nat, h: nat, out: array<U8>, y: nat, at: nat, ghost all: seq<U8>)
    requires pix.Length == w * h == out.Length == |all| && out != pix && y < h
    requires at == RowStart(w, y) && at + w <= out.Length
    requires all == Sobel(Image(w, h, pix[..])).pix && out[..at] == all[..at]
    modifies out
    ensures out[..at + w] == all[..at + w]
  {
    ghost var im := Image(w, h, pix[..]);
    RowStartExact(w, y);
    var x := 0;
    while x < w
      invariant 0 <= x <= w && out[..at + x] == all[..at + x]
    {
      var gx := Accumulate(pix, w, h, SOBEL_X, x, y);
      var gy := Accumulate(pix, w, h, SOBEL_Y, x, y);
      var v := Magnitude(gx, gy);
      TabulateCell(w, h, SobelMap(im), x, y);
      out[at + x] := v;
      assert out[..at + x] == all[..at + x];
      x := x + 1;
    }
  }
}
