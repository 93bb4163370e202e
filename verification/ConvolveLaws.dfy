/** What the filters of imaging/convolve.c keep: their symmetries, which survive edge clamping, and
    the images and ranges the named kernels leave alone. */
module ConvolveLaws {
  import opened Bytes
  import opened Raster
  import opened Convolve

  // ---- a sum of nine terms ----------------------------------------------------------

  lemma Nine(im: Raster, k: Kernel, x: int, y: int)
    ensures Sum(im, k, x, y)
         == Row3(k[0], k[1], k[2], Sample(im, x - 1, y - 1), Sample(im, x, y - 1), Sample(im, x + 1, y - 1))
          + Row3(k[3], k[4], k[5], Sample(im, x - 1, y), Sample(im, x, y), Sample(im, x + 1, y))
          + Row3(k[6], k[7], k[8], Sample(im, x - 1, y + 1), Sample(im, x, y + 1), Sample(im, x + 1, y + 1))
  {
    Tap(im, k, x, y, -1, -1); Tap(im, k, x, y, 0, -1); Tap(im, k, x, y, 1, -1);
    Tap(im, k, x, y, -1, 0); Tap(im, k, x, y, 0, 0); Tap(im, k, x, y, 1, 0);
    Tap(im, k, x, y, -1, 1); Tap(im, k, x, y, 0, 1); Tap(im, k, x, y, 1, 1);
  }

  /** The same with the weights written out. */
  lemma NineOf(im: Raster, k: Kernel, x: int, y: int,
               a: int, b: int, c: int, d: int, e: int, f: int, g: int, h: int, i: int)
    requires k == [a, b, c, d, e, f, g, h, i]
    ensures Sum(im, k, x, y)
         == a * Sample(im, x - 1, y - 1) + b * Sample(im, x, y - 1) + c * Sample(im, x + 1, y - 1)
          + d * Sample(im, x - 1, y) + e * Sample(im, x, y) + f * Sample(im, x + 1, y)
          + g * Sample(im, x - 1, y + 1) + h * Sample(im, x, y + 1) + i * Sample(im, x + 1, y + 1)
  {
    Nine(im, k, x, y);
  }

  lemma {:induction false} Tap(im: Raster, k: Kernel, x: int, y: int, dx: int, dy: int)
    requires -1 <= dx <= 1 && -1 <= dy <= 1
    ensures var n := 3 * dy + dx + 4;
            Weighted(im, k, x, y, n + 1) == Weighted(im, k, x, y, n) + k[n] * Sample(im, x + dx, y + dy)
  {
    var n := 3 * dy + dx + 4;
    assert n % 3 == dx + 1 && n / 3 == dy + 1;
  }

  function Row3(a: int, b: int, c: int, p: int, q: int, r: int): int {
    a * p + b * q + c * r
  }

  // ---- single pixels ----------------------------------------------------------------

  function Abs(a: int): nat {
    if a < 0 then -a else a
  }

  /** Division toward zero is the one quotient that does not overshoot and leaves less than the
      divisor. */
  lemma QuotientExact(a: int, b: int, q: int)
    requires b != 0
    ensures q == Quotient(a, b) <==> Abs(q * b) <= Abs(a) && Abs(a - q * b) < Abs(b)
  {
    var t := Quotient(a, b);
    QuotientFits(a, b);
    if Abs(q * b) <= Abs(a) && Abs(a - q * b) < Abs(b) {
      QuotientUnique(a, b, q, t);
    }
  }

  lemma QuotientFits(a: int, b: int)
    requires b != 0
    ensures Abs(Quotient(a, b) * b) <= Abs(a) && Abs(a - Quotient(a, b) * b) < Abs(b)
  {
    PositiveFits(Abs(a), b, Abs(a) / b);
    Negated(Abs(a) / b, b);
  }

  lemma PositiveFits(n: nat, b: int, q: int)
    requires b != 0 && q == n / b
    ensures 0 <= q * b <= n && n - q * b < Abs(b)
  {
    var r := n % b;
    assert n == q * b + r;
    if r > n {
      SmallMultiple(q, b);
    }
  }

  lemma QuotientUnique(a: int, b: int, q: int, t: int)
    requires b != 0
    requires Abs(q * b) <= Abs(a) && Abs(a - q * b) < Abs(b) && Abs(t * b) <= Abs(a) && Abs(a - t * b) < Abs(b)
    ensures q == t
  {
    Distributes(q - t, t, b);
    assert (q - t) * b == q * b - t * b;
    SmallMultiple(q - t, b);
  }

  lemma SmallMultiple(d: int, b: int)
    requires b != 0 && Abs(d * b) < Abs(b)
    ensures d == 0
  {
  }

  /** What `conv3x3` writes at a pixel: the nine clamped samples times their weights, divided toward
      zero, shifted and clamped to a byte. */
  lemma ConvPixel(im: Raster, k: Kernel, div: int, bias: int, x: nat, y: nat, acc: int, q: int)
    requires x < im.w && y < im.h && div != 0
    requires acc == k[0] * Sample(im, x - 1, y - 1) + k[1] * Sample(im, x, y - 1) + k[2] * Sample(im, x + 1, y - 1)
                  + k[3] * Sample(im, x - 1, y) + k[4] * Sample(im, x, y) + k[5] * Sample(im, x + 1, y)
                  + k[6] * Sample(im, x - 1, y + 1) + k[7] * Sample(im, x, y + 1) + k[8] * Sample(im, x + 1, y + 1)
    requires Abs(q * div) <= Abs(acc) && Abs(acc - q * div) < Abs(div)
    ensures var out := Conv(im, k, div, bias);
            && out.w == im.w && out.h == im.h && y * im.w + x < |out.pix|
            && out.pix[y * im.w + x] == if q + bias < 0 then 0 else if q + bias > 255 then 255 else q + bias
  {
    Nine(im, k, x, y);
    QuotientExact(acc, div, q);
    TabulateCell(im.w, im.h, ConvMap(im, k, div, bias), x, y);
  }

  /** What `sobel` writes at a pixel: the length of the gradient, rounded to the nearest integer and cut
      off at 255. */
  lemma SobelPixel(im: Raster, x: nat, y: nat, gx: int, gy: int, n: int)
    requires x < im.w && y < im.h
    requires gx == Sample(im, x + 1, y - 1) + 2 * Sample(im, x + 1, y) + Sample(im, x + 1, y + 1)
                 - Sample(im, x - 1, y - 1) - 2 * Sample(im, x - 1, y) - Sample(im, x - 1, y + 1)
    requires gy == Sample(im, x - 1, y + 1) + 2 * Sample(im, x, y + 1) + Sample(im, x + 1, y + 1)
                 - Sample(im, x - 1, y - 1) - 2 * Sample(im, x, y - 1) - Sample(im, x + 1, y - 1)
    requires n == gx * gx + gy * gy
    ensures var out := Sobel(im);
            && out.w == im.w && out.h == im.h && y * im.w + x < |out.pix|
            && var r := out.pix[y * im.w + x];
               && (r < 255 ==> (r == 0 || (2 * r - 1) * (2 * r - 1) <= 4 * n) && 4 * n < (2 * r + 1) * (2 * r + 1))
               && (r == 255 <==> 4 * n >= 509 * 509)
  {
    Gradients(im, x, y, gx, gy);
    TabulateCell(im.w, im.h, SobelMap(im), x, y);
    assert Square(gx) + Square(gy) == n;
    CutOff(n);
  }

  lemma Gradients(im: Raster, x: int, y: int, gx: int, gy: int)
    requires gx == Sample(im, x + 1, y - 1) + 2 * Sample(im, x + 1, y) + Sample(im, x + 1, y + 1)
                 - Sample(im, x - 1, y - 1) - 2 * Sample(im, x - 1, y) - Sample(im, x - 1, y + 1)
    requires gy == Sample(im, x - 1, y + 1) + 2 * Sample(im, x, y + 1) + Sample(im, x + 1, y + 1)
                 - Sample(im, x - 1, y - 1) - 2 * Sample(im, x, y - 1) - Sample(im, x + 1, y - 1)
    ensures Sum(im, SOBEL_X, x, y) == gx && Sum(im, SOBEL_Y, x, y) == gy
  {
    NineOf(im, SOBEL_X, x, y, -1, 0, 1, -2, 0, 2, -1, 0, 1);
    NineOf(im, SOBEL_Y, x, y, -1, -2, -1, 0, 0, 0, 1, 2, 1);
  }

  /** Rounding a root and cutting it off at 255. */
  lemma CutOff(n: nat)
    ensures var r := Level(RoundRoot(n));
            && (r < 255 ==> (r == 0 || (2 * r - 1) * (2 * r - 1) <= 4 * n) && 4 * n < (2 * r + 1) * (2 * r + 1))
            && (r == 255 <==> 4 * n >= 509 * 509)
  {
    var q := RoundRoot(n);
    RoundRootNearest(n, q);
    if q >= 255 {
      Squares(509, 2 * q - 1);
    } else {
      Squares(2 * q + 1, 509);
    }
  }

  lemma Squares(a: nat, b: nat)
    requires a <= b
    ensures a * a <= b * b
  {
  }

  // ---- kernels under the symmetries -------------------------------------------------

  function TransposeKernel(k: Kernel): Kernel {
    [k[0], k[3], k[6], k[1], k[4], k[7], k[2], k[5], k[8]]
  }

  function MirrorKernel(k: Kernel): Kernel {
    [k[2], k[1], k[0], k[5], k[4], k[3], k[8], k[7], k[6]]
  }

  function FlipKernel(k: Kernel): Kernel {
    [k[6], k[7], k[8], k[3], k[4], k[5], k[0], k[1], k[2]]
  }

  lemma SumTranspose(im: Raster, k: Kernel, x: int, y: int)
    requires im.w > 0 && im.h > 0
    ensures Sum(Transpose(im), TransposeKernel(k), x, y) == Sum(im, k, y, x)
  {
    Nine(Transpose(im), TransposeKernel(k), x, y);
    Nine(im, k, y, x);
    SampleTranspose(im, x - 1, y - 1); SampleTranspose(im, x, y - 1); SampleTranspose(im, x + 1, y - 1);
    SampleTranspose(im, x - 1, y); SampleTranspose(im, x, y); SampleTranspose(im, x + 1, y);
    SampleTranspose(im, x - 1, y + 1); SampleTranspose(im, x, y + 1); SampleTranspose(im, x + 1, y + 1);
  }

  lemma SumMirror(im: Raster, k: Kernel, x: int, y: int)
    requires im.w > 0 && im.h > 0
    ensures Sum(Mirror(im), MirrorKernel(k), x, y) == Sum(im, k, im.w - 1 - x, y)
  {
    var u := im.w - 1 - x;
    Nine(Mirror(im), MirrorKernel(k), x, y);
    Nine(im, k, u, y);
    SampleMirror(im, x - 1, y - 1); SampleMirror(im, x, y - 1); SampleMirror(im, x + 1, y - 1);
    SampleMirror(im, x - 1, y); SampleMirror(im, x, y); SampleMirror(im, x + 1, y);
    SampleMirror(im, x - 1, y + 1); SampleMirror(im, x, y + 1); SampleMirror(im, x + 1, y + 1);
    assert im.w - 1 - (x - 1) == u + 1 && im.w - 1 - (x + 1) == u - 1;
  }

  lemma SumFlip(im: Raster, k: Kernel, x: int, y: int)
    requires im.w > 0 && im.h > 0
    ensures Sum(Flip(im), FlipKernel(k), x, y) == Sum(im, k, x, im.h - 1 - y)
  {
    var v := im.h - 1 - y;
    Nine(Flip(im), FlipKernel(k), x, y);
    Nine(im, k, x, v);
    SampleFlip(im, x - 1, y - 1); SampleFlip(im, x, y - 1); SampleFlip(im, x + 1, y - 1);
    SampleFlip(im, x - 1, y); SampleFlip(im, x, y); SampleFlip(im, x + 1, y);
    SampleFlip(im, x - 1, y + 1); SampleFlip(im, x, y + 1); SampleFlip(im, x + 1, y + 1);
    assert im.h - 1 - (y - 1) == v + 1 && im.h - 1 - (y + 1) == v - 1;
  }

  // ---- conv3x3 ----------------------------------------------------------------------

  /** Every filter commutes with transposition, if its kernel is transposed too. */
  lemma ConvTranspose(im: Raster, k: Kernel, div: int, bias: int)
    requires div != 0
    ensures Conv(Transpose(im), TransposeKernel(k), div, bias) == Transpose(Conv(im, k, div, bias))
  {
    var out := Conv(im, k, div, bias);
    var f, g := ConvMap(Transpose(im), TransposeKernel(k), div, bias), TransposeMap(out);
    forall x, y | 0 <= x < im.h && 0 <= y < im.w ensures f(x, y) == g(x, y) {
      SumTranspose(im, k, x, y);
      SampleTabulate(im.w, im.h, ConvMap(im, k, div, bias), y, x);
    }
    SameTable(im.h, im.w, f, g);
  }

  lemma ConvMirror(im: Raster, k: Kernel, div: int, bias: int)
    requires div != 0
    ensures Conv(Mirror(im), MirrorKernel(k), div, bias) == Mirror(Conv(im, k, div, bias))
  {
    var out := Conv(im, k, div, bias);
    var f, g := ConvMap(Mirror(im), MirrorKernel(k), div, bias), MirrorMap(out);
    forall x, y | 0 <= x < im.w && 0 <= y < im.h ensures f(x, y) == g(x, y) {
      SumMirror(im, k, x, y);
      SampleTabulate(im.w, im.h, ConvMap(im, k, div, bias), im.w - 1 - x, y);
    }
    SameTable(im.w, im.h, f, g);
  }

  lemma ConvFlip(im: Raster, k: Kernel, div: int, bias: int)
    requires div != 0
    ensures Conv(Flip(im), FlipKernel(k), div, bias) == Flip(Conv(im, k, div, bias))
  {
    var out := Conv(im, k, div, bias);
    var f, g := ConvMap(Flip(im), FlipKernel(k), div, bias), FlipMap(out);
    forall x, y | 0 <= x < im.w && 0 <= y < im.h ensures f(x, y) == g(x, y) {
      SumFlip(im, k, x, y);
      SampleTabulate(im.w, im.h, ConvMap(im, k, div, bias), x, im.h - 1 - y);
    }
    SameTable(im.w, im.h, f, g);
  }

  lemma IdentitySum(im: Raster, x: int, y: int)
    ensures Sum(im, IDENTITY, x, y) == Sample(im, x, y)
  {
    IdentityTaps(im, x, y, 9);
  }

  lemma UnitWeight(a: int, p: int, one: bool)
    requires a == if one then 1 else 0
    ensures a * p == if one then p else 0
  {
  }

  lemma {:induction false} IdentityTaps(im: Raster, x: int, y: int, n: nat)
    requires n <= 9
    ensures Weighted(im, IDENTITY, x, y, n) == if n > 4 then Sample(im, x, y) else 0
  {
    if n > 0 {
      IdentityTaps(im, x, y, n - 1);
      var p := Sample(im, x + (n - 1) % 3 - 1, y + (n - 1) / 3 - 1);
      UnitWeight(IDENTITY[n - 1], p, n == 5);
      assert n == 5 ==> p == Sample(im, x, y);
    }
  }

  /** The identity kernel returns the input. */
  lemma IdentityReturnsInput(im: Raster)
    ensures Conv(im, IDENTITY, 1, 0) == im
  {
    var f := ConvMap(im, IDENTITY, 1, 0);
    forall x, y | 0 <= x < im.w && 0 <= y < im.h ensures f(x, y) == SampleMap(im)(x, y) {
      IdentitySum(im, x, y);
    }
    SameTable(im.w, im.h, f, SampleMap(im));
    Resampled(im);
  }

  /** Every sample of the clamped neighbourhood lies between `lo` and `hi`. */
  ghost predicate Within(im: Raster, x: int, y: int, lo: U8, hi: U8) {
    forall u, v :: x - 1 <= u <= x + 1 && y - 1 <= v <= y + 1 ==> lo <= Sample(im, u, v) <= hi
  }

  /** A blurred pixel lies between the least and the greatest sample of its clamped
      neighbourhood. */
  lemma BlurStaysInRange(im: Raster, x: nat, y: nat, lo: U8, hi: U8)
    requires x < im.w && y < im.h && Within(im, x, y, lo, hi)
    ensures lo <= Sample(Conv(im, BLUR, 9, 0), x, y) <= hi
  {
    BlurSum(im, x, y, lo, hi);
    NinthInRange(Sum(im, BLUR, x, y), lo, hi);
    SampleTabulate(im.w, im.h, ConvMap(im, BLUR, 9, 0), x, y);
  }

  lemma BlurSum(im: Raster, x: int, y: int, lo: U8, hi: U8)
    requires Within(im, x, y, lo, hi)
    ensures 9 * lo <= Sum(im, BLUR, x, y) <= 9 * hi
  {
    BlurTaps(im, x, y, lo, hi, 9);
  }

  lemma {:induction false} BlurTaps(im: Raster, x: int, y: int, lo: U8, hi: U8, n: nat)
    requires Within(im, x, y, lo, hi) && n <= 9
    ensures n * lo <= Weighted(im, BLUR, x, y, n) <= n * hi
  {
    if n > 0 {
      BlurTaps(im, x, y, lo, hi, n - 1);
      var p := Sample(im, x + (n - 1) % 3 - 1, y + (n - 1) / 3 - 1);
      assert lo <= p <= hi && BLUR[n - 1] == 1;
      OneMore(n, lo, hi);
    }
  }

  lemma OneMore(n: nat, lo: int, hi: int)
    requires n > 0
    ensures n * lo == (n - 1) * lo + lo && n * hi == (n - 1) * hi + hi
  {
  }

  lemma NinthInRange(s: int, lo: U8, hi: U8)
    requires 9 * lo <= s <= 9 * hi
    ensures lo <= Level(Quotient(s, 9) + 0) <= hi
  {
  }

  function Weights(k: Kernel, n: nat): int
    requires n <= 9
  {
    if n == 0 then 0 else Weights(k, n - 1) + k[n - 1]
  }

  function Total(k: Kernel): int {
    Weights(k, 9)
  }

  /** A kernel whose weights add up to its divisor leaves images of one level alone; so do blur with
      divisor 9, sharpen and identity with divisor 1. */
  lemma ConstantFixed(im: Raster, c: U8, k: Kernel, div: int)
    requires forall i :: 0 <= i < |im.pix| ==> im.pix[i] == c
    requires div == Total(k) > 0
    ensures Conv(im, k, div, 0) == im
  {
    var f := ConvMap(im, k, div, 0);
    forall x, y | 0 <= x < im.w && 0 <= y < im.h ensures f(x, y) == SampleMap(im)(x, y) {
      ConstantSum(im, c, k, x, y);
      QuotientOfProduct(div, c);
    }
    SameTable(im.w, im.h, f, SampleMap(im));
    Resampled(im);
  }

  lemma ConstantSum(im: Raster, c: U8, k: Kernel, x: int, y: int)
    requires im.w > 0 && im.h > 0 && forall i :: 0 <= i < |im.pix| ==> im.pix[i] == c
    ensures Sample(im, x, y) == c && Sum(im, k, x, y) == Total(k) * c
  {
    forall u, v ensures Sample(im, u, v) == c {
      CellInside(im.w, im.h, Clamp(u, 0, im.w - 1), Clamp(v, 0, im.h - 1));
    }
    ConstantTaps(im, c, k, x, y, 9);
  }

  lemma {:induction false} ConstantTaps(im: Raster, c: U8, k: Kernel, x: int, y: int, n: nat)
    requires n <= 9 && forall u, v :: Sample(im, u, v) == c
    ensures Weighted(im, k, x, y, n) == Weights(k, n) * c
  {
    if n > 0 {
      ConstantTaps(im, c, k, x, y, n - 1);
      Distributes(Weights(k, n - 1), k[n - 1], c);
    }
  }

  lemma Distributes(a: int, b: int, c: int)
    ensures (a + b) * c == a * c + b * c
  {
  }

  lemma QuotientOfProduct(div: int, c: nat)
    requires div > 0
    ensures Quotient(div * c, div) == c
  {
  }

  lemma NamedKernels()
    ensures Total(BLUR) == 9 && Total(SHARPEN) == Total(IDENTITY) == 1
  {
  }

  /** What the named kernels add up at a pixel: the pixel, its nine neighbours, and five times the pixel
      less its four neighbours. */
  lemma NamedSums(im: Raster, x: int, y: int)
    ensures Sum(im, IDENTITY, x, y) == Sample(im, x, y)
    ensures Sum(im, BLUR, x, y)
         == Sample(im, x - 1, y - 1) + Sample(im, x, y - 1) + Sample(im, x + 1, y - 1)
          + Sample(im, x - 1, y) + Sample(im, x, y) + Sample(im, x + 1, y)
          + Sample(im, x - 1, y + 1) + Sample(im, x, y + 1) + Sample(im, x + 1, y + 1)
    ensures Sum(im, SHARPEN, x, y)
         == 5 * Sample(im, x, y) - Sample(im, x - 1, y) - Sample(im, x + 1, y)
          - Sample(im, x, y - 1) - Sample(im, x, y + 1)
  {
    NineOf(im, IDENTITY, x, y, 0, 0, 0, 0, 1, 0, 0, 0, 0);
    NineOf(im, BLUR, x, y, 1, 1, 1, 1, 1, 1, 1, 1, 1);
    NineOf(im, SHARPEN, x, y, 0, -1, 0, -1, 5, -1, 0, -1, 0);
  }

  // ---- sobel ------------------------------------------------------------------------

  lemma SameMagnitude(a: int, b: int)
    ensures Magnitude(a, b) == Magnitude(b, a) == Magnitude(-a, b) == Magnitude(a, -b) == Magnitude(-a, -b)
  {
  }

  lemma SumOpposite(im: Raster, k: Kernel, k': Kernel, x: int, y: int)
    requires forall i :: 0 <= i < 9 ==> k'[i] == -k[i]
    ensures Sum(im, k', x, y) == -Sum(im, k, x, y)
  {
    Opposite(im, k, k', x, y, 9);
  }

  lemma {:induction false} Opposite(im: Raster, k: Kernel, k': Kernel, x: int, y: int, n: nat)
    requires n <= 9 && forall i :: 0 <= i < 9 ==> k'[i] == -k[i]
    ensures Weighted(im, k', x, y, n) == -Weighted(im, k, x, y, n)
  {
    if n > 0 {
      Opposite(im, k, k', x, y, n - 1);
      Negated(k[n - 1], Sample(im, x + (n - 1) % 3 - 1, y + (n - 1) / 3 - 1));
    }
  }

  lemma Negated(a: int, p: int)
    ensures -a * p == -(a * p)
  {
  }

  /** Transposing swaps the two gradients. */
  lemma GradientsTranspose(im: Raster, x: int, y: int)
    requires im.w > 0 && im.h > 0
    ensures SobelMap(Transpose(im))(x, y) == SobelMap(im)(y, x)
  {
    assert TransposeKernel(SOBEL_X) == SOBEL_Y && TransposeKernel(SOBEL_Y) == SOBEL_X;
    SumTranspose(im, SOBEL_X, x, y);
    SumTranspose(im, SOBEL_Y, x, y);
    SameMagnitude(Sum(im, SOBEL_X, y, x), Sum(im, SOBEL_Y, y, x));
  }

  /** Mirroring reverses the horizontal gradient. */
  lemma GradientsMirror(im: Raster, x: int, y: int)
    requires im.w > 0 && im.h > 0
    ensures SobelMap(Mirror(im))(x, y) == SobelMap(im)(im.w - 1 - x, y)
  {
    var u := im.w - 1 - x;
    assert MirrorKernel(SOBEL_Y) == SOBEL_Y;
    SumMirror(im, SOBEL_X, x, y);
    SumMirror(im, SOBEL_Y, x, y);
    SumOpposite(Mirror(im), SOBEL_X, MirrorKernel(SOBEL_X), x, y);
    SameMagnitude(Sum(im, SOBEL_X, u, y), Sum(im, SOBEL_Y, u, y));
  }

  lemma GradientsFlip(im: Raster, x: int, y: int)
    requires im.w > 0 && im.h > 0
    ensures SobelMap(Flip(im))(x, y) == SobelMap(im)(x, im.h - 1 - y)
  {
    var v := im.h - 1 - y;
    assert FlipKernel(SOBEL_X) == SOBEL_X;
    SumFlip(im, SOBEL_X, x, y);
    SumFlip(im, SOBEL_Y, x, y);
    SumOpposite(Flip(im), SOBEL_Y, FlipKernel(SOBEL_Y), x, y);
    SameMagnitude(Sum(im, SOBEL_X, x, v), Sum(im, SOBEL_Y, x, v));
  }

  /** A kernel whose weights cancel sees only differences, and inverting reverses them. */
  lemma SumNegative(im: Raster, k: Kernel, x: int, y: int)
    requires im.w > 0 && im.h > 0 && Total(k) == 0
    ensures Sum(Negative(im), k, x, y) == -Sum(im, k, x, y)
  {
    NegativeTaps(im, k, x, y, 9);
  }

  lemma {:induction false} NegativeTaps(im: Raster, k: Kernel, x: int, y: int, n: nat)
    requires im.w > 0 && im.h > 0 && n <= 9
    ensures Weighted(Negative(im), k, x, y, n) == 255 * Weights(k, n) - Weighted(im, k, x, y, n)
  {
    if n > 0 {
      NegativeTaps(im, k, x, y, n - 1);
      var u, v := x + (n - 1) % 3 - 1, y + (n - 1) / 3 - 1;
      SampleNegative(im, u, v);
      Complement(k[n - 1], Sample(im, u, v));
    }
  }

  lemma Complement(a: int, p: int)
    ensures a * (255 - p) == 255 * a - a * p
  {
  }

  lemma SobelTranspose(im: Raster)
    ensures Sobel(Transpose(im)) == Transpose(Sobel(im))
  {
    var f, g := SobelMap(Transpose(im)), TransposeMap(Sobel(im));
    forall x, y | 0 <= x < im.h && 0 <= y < im.w ensures f(x, y) == g(x, y) {
      GradientsTranspose(im, x, y);
      SampleTabulate(im.w, im.h, SobelMap(im), y, x);
    }
    SameTable(im.h, im.w, f, g);
  }

  lemma SobelMirror(im: Raster)
    ensures Sobel(Mirror(im)) == Mirror(Sobel(im))
  {
    var f, g := SobelMap(Mirror(im)), MirrorMap(Sobel(im));
    forall x, y | 0 <= x < im.w && 0 <= y < im.h ensures f(x, y) == g(x, y) {
      GradientsMirror(im, x, y);
      SampleTabulate(im.w, im.h, SobelMap(im), im.w - 1 - x, y);
    }
    SameTable(im.w, im.h, f, g);
  }

  lemma SobelFlip(im: Raster)
    ensures Sobel(Flip(im)) == Flip(Sobel(im))
  {
    var f, g := SobelMap(Flip(im)), FlipMap(Sobel(im));
    forall x, y | 0 <= x < im.w && 0 <= y < im.h ensures f(x, y) == g(x, y) {
      GradientsFlip(im, x, y);
      SampleTabulate(im.w, im.h, SobelMap(im), x, im.h - 1 - y);
    }
    SameTable(im.w, im.h, f, g);
  }

  /** Edges are the same in the negative. */
  lemma SobelNegative(im: Raster)
    ensures Sobel(Negative(im)) == Sobel(im)
  {
    var f, g := SobelMap(Negative(im)), SobelMap(im);
    forall x, y | 0 <= x < im.w && 0 <= y < im.h ensures f(x, y) == g(x, y) {
      SumNegative(im, SOBEL_X, x, y);
      SumNegative(im, SOBEL_Y, x, y);
      SameMagnitude(Sum(im, SOBEL_X, x, y), Sum(im, SOBEL_Y, x, y));
    }
    SameTable(im.w, im.h, f, g);
  }
}
