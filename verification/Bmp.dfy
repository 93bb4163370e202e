/** The 8-bit grayscale BMP files of imaging/bmp.c: bottom-up rows padded to four bytes. */
module Bmp {
  import opened Bytes
  import opened Options
  import opened Frame
  import opened Raster

  const INFO := 54           // both headers
  const PIX_OFFSET := 1078   // headers and palette

  // ---- the file format --------------------------------------------------------------

  function Zeros(n: nat): (z: seq<U8>)
    ensures |z| == n
  {
    seq(n, _ => 0)
  }

  /** Rows padded to a multiple of four bytes, in 32 bits. */
  function Stride(w: U32): U32 {
    (w + 3) % 0x1_0000_0000 / 4 * 4
  }

  function PixelBytes(w: U32, h: U32): U32 {
    Stride(w) * h % 0x1_0000_0000
  }

  function FileBytes(w: U32, h: U32): U32 {
    (1078 + PixelBytes(w, h)) % 0x1_0000_0000
  }

  /** Both headers around their four variable fields: file size, width, height and pixel bytes. */
  function Layout(size: seq<U8>, width: seq<U8>, height: seq<U8>, pixels: seq<U8>): (b: seq<U8>)
    requires |size| == |width| == |height| == |pixels| == 4
    ensures |b| == INFO
  {
    [0x42, 0x4D] + size + Zeros(4) + [0x36, 4, 0, 0] + [40, 0, 0, 0] + width + height
    + [1, 0] + [8, 0] + Zeros(4) + pixels + Zeros(8) + [0, 1, 0, 0] + Zeros(4)
  }

  function Info(size: U32, w: U32, h: U32, pixels: U32): (b: seq<U8>)
    ensures |b| == INFO
  {
    Layout(Little32(size), Little32(w), Little32(h), Little32(pixels))
  }

  /** 256 gray levels, each as blue, green, red and zero. */
  function Palette(): (b: seq<U8>)
    ensures |b| == 1024
  {
    seq(1024, i requires 0 <= i < 1024 => if i % 4 == 3 then 0 else i / 4)
  }

  /** The last `n` rows of `pix`, the lowest first, each with its padding. */
  function Rows(pix: seq<U8>, w: nat, pad: nat, n: nat): (b: seq<U8>)
    requires |pix| == RowStart(w, n)
    ensures |b| == RowStart(w + pad, n)
    decreases n
  {
    if n == 0 then [] else pix[|pix| - w..] + Zeros(pad) + Rows(pix[..|pix| - w], w, pad, n - 1)
  }

  function Pad(w: U32): nat {
    (w + 3) / 4 * 4 - w
  }

  /** The images `image_alloc` makes. */
  ghost predicate Legal(im: Image) {
    Allocatable(im.w, im.h) && |im.pix| == im.w * im.h
  }

  /** Headers, palette and rows. */
  function Assembled(info: seq<U8>, w: nat, h: nat, pix: seq<U8>, pad: nat): seq<U8>
    requires |pix| == RowStart(w, h)
  {
    info + Palette() + Rows(pix, w, pad, h)
  }

  function InfoOf(w: U32, h: U32): (b: seq<U8>)
    ensures |b| == INFO
  {
    Info(FileBytes(w, h), w, h, PixelBytes(w, h))
  }

  /** The whole file. */
  function File(im: Raster): seq<U8>
    requires im.w < 0x8000_0000 && im.h < 0x8000_0000
  {
    RowStartExact(im.w, im.h);
    Assembled(InfoOf(im.w, im.h), im.w, im.h, im.pix, Pad(im.w))
  }

  // ---- reading it back --------------------------------------------------------------

  /** `n` rows can be read from position `at`. */
  predicate Fits(file: seq<U8>, at: nat, stride: nat, n: nat)
    decreases n
  {
    n == 0 || (at + stride <= |file| && Fits(file, at + stride, stride, n - 1))
  }

  /** The pixels of `n` stored rows: what was stored first comes last. */
  function Unrolled(file: seq<U8>, at: nat, w: nat, stride: nat, n: nat): (pix: seq<U8>)
    requires w <= stride && Fits(file, at, stride, n)
    ensures |pix| == RowStart(w, n)
    decreases n
  {
    if n == 0 then [] else Unrolled(file, at + stride, w, stride, n - 1) + file[at..at + w]
  }

  function Width(file: seq<U8>): I32
    requires |file| >= INFO
  {
    Signed32(ReadLittle32(file, 18))
  }

  function Height(file: seq<U8>): I32
    requires |file| >= INFO
  {
    Signed32(ReadLittle32(file, 22))
  }

  /** `image_alloc` makes an image of this size; the pixels are added up row by row. */
  predicate Allocatable(w: int, h: int) {
    w > 0 && h > 0 && RowStart(w, h) <= MAX_PIXELS
  }

  /** The test as `image_alloc` makes it. */
  lemma AllocatableExact(w: int, h: int)
    ensures Allocatable(w, h) <==> w > 0 && h > 0 && w * h <= MAX_PIXELS
  {
    if w > 0 && h > 0 {
      RowStartExact(w, h);
    }
  }

  /** Two whole headers, the signature, and eight bits per pixel. */
  predicate Marked(file: seq<U8>) {
    |file| >= INFO && file[0] == 0x42 && file[1] == 0x4D && ReadLittle16(file, 28) == 8
  }

  function ReadRows(file: seq<U8>, w: nat, h: nat, at: nat, stride: nat): Option<Image>
    requires w <= stride
  {
    if Fits(file, at, stride, h) then Some(Image(w, h, Unrolled(file, at, w, stride, h))) else None
  }

  function ReadSized(file: seq<U8>, w: I32, h: I32, at: nat): Option<Image> {
    if Allocatable(w, h) then ReadRows(file, w, h, at, w + Pad(w)) else None
  }

  function Read(file: seq<U8>): Option<Image> {
    if Marked(file) then ReadSized(file, Width(file), Height(file), ReadLittle32(file, 10)) else None
  }

  lemma {:induction false} FitsExact(file: seq<U8>, at: nat, stride: nat, n: nat)
    ensures Fits(file, at, stride, n) <==> n == 0 || at + n * stride <= |file|
    decreases n
  {
    if n > 0 {
      FitsExact(file, at + stride, stride, n - 1);
      OneLess(n, stride);
    }
  }

  lemma OneLess(n: nat, stride: nat)
    requires n > 0
    ensures n * stride == (n - 1) * stride + stride
  {
  }

  // ---- the round trip ---------------------------------------------------------------

  lemma Sides(w: nat, h: nat)
    requires Allocatable(w, h)
    ensures w <= MAX_PIXELS && h <= MAX_PIXELS
  {
    AllocatableExact(w, h);
    SideBound(w, h);
    SideBound(h, w);
  }

  lemma SideBound(w: nat, h: nat)
    requires h > 0
    ensures w <= w * h
  {
  }

  /** The stride is the least multiple of four that holds a row. */
  lemma StrideExact(w: nat)
    requires w < 0x8000_0000
    ensures Stride(w) == w + Pad(w) && Pad(w) < 4 && Stride(w) % 4 == 0
  {
  }

  lemma PaddedBound(w: nat, h: nat, pad: nat)
    requires w > 0 && pad < 4
    ensures (w + pad) * h <= 4 * (w * h)
  {
    var t := w + pad;
    assert t <= 4 * w;
    MoreRows(t, 4 * w, h);
    assert 4 * w * h == 4 * (w * h);
  }

  /** Within the pixel cap nothing wraps: not the stride, the pixel bytes or the file size. */
  lemma NoWrap(w: nat, h: nat)
    requires Allocatable(w, h)
    ensures w <= MAX_PIXELS && h <= MAX_PIXELS && Stride(w) == w + Pad(w)
    ensures PixelBytes(w, h) == (w + Pad(w)) * h && FileBytes(w, h) == PIX_OFFSET + (w + Pad(w)) * h
  {
    Sides(w, h);
    AllocatableExact(w, h);
    StrideExact(w);
    PaddedBound(w, h, Pad(w));
    SmallSizes(Stride(w), h, (w + Pad(w)) * h);
  }

  lemma SmallSizes(stride: U32, h: U32, n: nat)
    requires n == stride * h && n <= 0x100_0000
    ensures stride * h % 0x1_0000_0000 == n && (1078 + n) % 0x1_0000_0000 == 1078 + n
  {
  }

  /** Rows written after any prefix are read back from its end. */
  lemma {:induction false} RowsRoundTrip(prefix: seq<U8>, pix: seq<U8>, w: nat, pad: nat, n: nat, file: seq<U8>)
    requires |pix| == RowStart(w, n) && file == prefix + Rows(pix, w, pad, n)
    ensures Fits(file, |prefix|, w + pad, n) && Unrolled(file, |prefix|, w, w + pad, n) == pix
    decreases n
  {
    if n > 0 {
      var last, rest := pix[|pix| - w..], pix[..|pix| - w];
      LastRowFirst(prefix, pix, w, pad, n, file, last, rest);
      RowsRoundTrip(prefix + (last + Zeros(pad)), rest, w, pad, n - 1, file);
      RowAbove(file, |prefix|, w, w + pad, n, rest, last);
    }
  }

  /** The lowest row is stored first, the others follow. */
  lemma {:induction false} LastRowFirst(prefix: seq<U8>, pix: seq<U8>, w: nat, pad: nat, n: nat, file: seq<U8>,
                                        last: seq<U8>, rest: seq<U8>)
    requires n > 0 && |pix| == RowStart(w, n) && file == prefix + Rows(pix, w, pad, n)
    requires last == pix[|pix| - w..] && rest == pix[..|pix| - w]
    ensures rest + last == pix && |rest| == RowStart(w, n - 1)
    ensures file == prefix + (last + Zeros(pad)) + Rows(rest, w, pad, n - 1)
    ensures file[|prefix|..|prefix| + w] == last
  {
    FirstRow(prefix, last, Zeros(pad), Rows(rest, w, pad, n - 1));
  }

  lemma {:induction false} RowAbove(file: seq<U8>, at: nat, w: nat, stride: nat, n: nat, rest: seq<U8>, last: seq<U8>)
    requires w <= stride && n > 0 && at + stride <= |file| && file[at..at + w] == last
    requires Fits(file, at + stride, stride, n - 1) && Unrolled(file, at + stride, w, stride, n - 1) == rest
    ensures Fits(file, at, stride, n) && Unrolled(file, at, w, stride, n) == rest + last
  {
  }

  lemma FirstRow(prefix: seq<U8>, last: seq<U8>, pad: seq<U8>, rows: seq<U8>)
    ensures prefix + (last + pad + rows) == prefix + (last + pad) + rows
    ensures (prefix + (last + pad + rows))[|prefix|..|prefix| + |last|] == last
  {
  }

  lemma LayoutFields(size: seq<U8>, width: seq<U8>, height: seq<U8>, pixels: seq<U8>, b: seq<U8>)
    requires |size| == |width| == |height| == |pixels| == 4 && b == Layout(size, width, height, pixels)
    ensures b[0] == 0x42 && b[1] == 0x4D && b[10..14] == [0x36, 4, 0, 0] && b[28..30] == [8, 0]
    ensures Holds(b, 2, size) && Holds(b, 18, width) && Holds(b, 22, height)
  {
    assert b[2..6] == size && b[18..22] == width && b[22..26] == height;
    assert b[10..14] == [0x36, 4, 0, 0] && b[28..30] == [8, 0];
  }

  lemma FixedFields(b: seq<U8>)
    requires |b| == INFO && b[10..14] == [0x36, 4, 0, 0] && b[28..30] == [8, 0]
    ensures ReadLittle32(b, 10) == PIX_OFFSET && ReadLittle16(b, 28) == 8
  {
    assert b[10] == 0x36 && b[11] == 4 && b[12] == 0 && b[13] == 0;
    assert b[28] == 8 && b[29] == 0;
    StackedExact(b[11], b[10]);
    StackedExact(b[13], b[12]);
    StackedExact(0, PIX_OFFSET);
    StackedExact(b[29], b[28]);
  }

  /** `b` is a header the reader accepts, for an image of this size. */
  ghost predicate Heads(b: seq<U8>, w: U32, h: U32) {
    && |b| == INFO && Marked(b) && ReadLittle32(b, 10) == PIX_OFFSET
    && ReadLittle32(b, 18) == w && ReadLittle32(b, 22) == h
  }

  lemma InfoFields(size: U32, w: U32, h: U32, pixels: U32, b: seq<U8>)
    requires b == Info(size, w, h, pixels)
    ensures Heads(b, w, h) && ReadLittle32(b, 2) == size
  {
    LayoutFields(Little32(size), Little32(w), Little32(h), Little32(pixels), b);
    FixedFields(b);
    Little32Inverse(size, b, 2);
    Little32Inverse(w, b, 18);
    Little32Inverse(h, b, 22);
  }

  lemma SameFields(info: seq<U8>, file: seq<U8>)
    requires |info| == INFO <= |file| && file[..INFO] == info
    ensures Marked(file) == Marked(info) && ReadLittle32(file, 2) == ReadLittle32(info, 2)
    ensures ReadLittle32(file, 10) == ReadLittle32(info, 10)
    ensures ReadLittle32(file, 18) == ReadLittle32(info, 18) && ReadLittle32(file, 22) == ReadLittle32(info, 22)
  {
    assert forall i :: 0 <= i < INFO ==> file[i] == info[i];
  }

  lemma {:induction false} PixelsLast(info: seq<U8>, w: nat, h: nat, pix: seq<U8>, pad: nat, f: seq<U8>)
    requires |info| == INFO && |pix| == RowStart(w, h) && f == Assembled(info, w, h, pix, pad)
    ensures |f| == PIX_OFFSET + RowStart(w + pad, h) && f[..INFO] == info
    ensures ReadRows(f, w, h, PIX_OFFSET, w + pad) == Some(Image(w, h, pix))
  {
    RowsRoundTrip(info + Palette(), pix, w, pad, h, f);
  }

  lemma ReadFields(file: seq<U8>, w: I32, h: I32, at: nat)
    requires Marked(file) && ReadLittle32(file, 18) == w && ReadLittle32(file, 22) == h && ReadLittle32(file, 10) == at
    requires Allocatable(w, h)
    ensures Read(file) == ReadRows(file, w, h, at, w + Pad(w))
  {
  }

  /** Any accepted header in front of the rows: the reader does not look at the two size fields. */
  lemma {:induction false} ReadAssembled(info: seq<U8>, w: U32, h: U32, pix: seq<U8>, f: seq<U8>)
    requires Heads(info, w, h) && w < 0x8000_0000 && h < 0x8000_0000 && Allocatable(w, h) && |pix| == RowStart(w, h)
    requires f == Assembled(info, w, h, pix, Pad(w))
    ensures Read(f) == Some(Image(w, h, pix))
    ensures |f| == PIX_OFFSET + RowStart(w + Pad(w), h) && ReadLittle32(f, 2) == ReadLittle32(info, 2)
  {
    PixelsLast(info, w, h, pix, Pad(w), f);
    SameFields(info, f);
    ReadFields(f, w, h, PIX_OFFSET);
  }

  lemma {:induction false} RowsTotal(stride: nat, h: nat)
    ensures RowStart(stride, h) == stride * h
  {
    RowStartExact(stride, h);
  }

  lemma {:induction false} RowBytes(w: nat, h: nat)
    requires Allocatable(w, h)
    ensures w <= MAX_PIXELS && h <= MAX_PIXELS && FileBytes(w, h) == PIX_OFFSET + RowStart(w + Pad(w), h)
  {
    NoWrap(w, h);
    RowsTotal(w + Pad(w), h);
  }

  lemma {:induction false} InfoHeads(w: nat, h: nat)
    requires Allocatable(w, h)
    ensures w <= MAX_PIXELS && h <= MAX_PIXELS
    ensures var info := InfoOf(w, h);
            Heads(info, w, h) && ReadLittle32(info, 2) == PIX_OFFSET + RowStart(w + Pad(w), h)
  {
    RowBytes(w, h);
    InfoFields(FileBytes(w, h), w, h, PixelBytes(w, h), InfoOf(w, h));
  }

  /** The file of an image is read back as that image, and has the size it says. */
  lemma {:induction false} FileRead(w: nat, h: nat, pix: seq<U8>, f: seq<U8>)
    requires Allocatable(w, h) && w <= MAX_PIXELS && h <= MAX_PIXELS && |pix| == RowStart(w, h)
    requires f == Assembled(InfoOf(w, h), w, h, pix, Pad(w))
    ensures Read(f) == Some(Image(w, h, pix)) && |f| >= INFO && ReadLittle32(f, 2) == |f|
  {
    InfoHeads(w, h);
    InfoRead(InfoOf(w, h), w, h, pix, f);
  }

  lemma {:induction false} InfoRead(info: seq<U8>, w: nat, h: nat, pix: seq<U8>, f: seq<U8>)
    requires Allocatable(w, h) && w <= MAX_PIXELS && h <= MAX_PIXELS && |pix| == RowStart(w, h)
    requires Heads(info, w, h) && ReadLittle32(info, 2) == PIX_OFFSET + RowStart(w + Pad(w), h)
    requires f == Assembled(info, w, h, pix, Pad(w))
    ensures Read(f) == Some(Image(w, h, pix)) && |f| >= INFO && ReadLittle32(f, 2) == |f|
  {
    ReadAssembled(info, w, h, pix, f);
  }

  /** The file has as many bytes as its header says. */
  lemma SizeExact(im: Raster)
    requires Legal(im)
    ensures im.w < 0x8000_0000 && im.h < 0x8000_0000
    ensures |File(im)| >= INFO && |File(im)| == ReadLittle32(File(im), 2)
  {
    Sides(im.w, im.h);
    RowStartExact(im.w, im.h);
    FileRead(im.w, im.h, im.pix, File(im));
  }

  /** Reading what was written gives the image back, for every image within the cap. */
  lemma RoundTrip(im: Raster)
    requires Legal(im)
    ensures im.w < 0x8000_0000 && im.h < 0x8000_0000 && Read(File(im)) == Some(im)
  {
    Sides(im.w, im.h);
    RowStartExact(im.w, im.h);
    FileRead(im.w, im.h, im.pix, File(im));
  }

  /** Exactly which files are read. */
  lemma ReadExact(file: seq<U8>)
    ensures Read(file).Some? <==>
              && Marked(file) && Allocatable(Width(file), Height(file))
              && ReadLittle32(file, 10) + Height(file) * (Width(file) + Pad(Width(file))) <= |file|
  {
    if Marked(file) && Allocatable(Width(file), Height(file)) {
      FitsExact(file, ReadLittle32(file, 10), Width(file) + Pad(Width(file)), Height(file));
    }
  }

  /** What is read is an image that can be written, and reading it again changes nothing. */
  lemma Rewritten(file: seq<U8>)
    requires Read(file).Some?
    ensures var im := Read(file).value;
            Legal(im) && im.w < 0x8000_0000 && im.h < 0x8000_0000 && Read(File(im)) == Some(im)
  {
    var w, h := Width(file), Height(file);
    ReadLegal(file, w, h, ReadLittle32(file, 10), w + Pad(w));
    RoundTrip(Read(file).value);
  }

  lemma {:induction false} ReadLegal(file: seq<U8>, w: nat, h: nat, at: nat, stride: nat)
    requires Allocatable(w, h) && w <= stride && Fits(file, at, stride, h)
    ensures ReadRows(file, w, h, at, stride).Some? && Legal(ReadRows(file, w, h, at, stride).value)
  {
    RowStartExact(w, h);
  }

  // ---- byte by byte -----------------------------------------------------------------

  /** Byte `x` of the `r`-th stored row belongs to the `r`-th row from below. */
  lemma {:induction false} RowsByte(pix: seq<U8>, w: nat, pad: nat, n: nat, r: nat, x: nat, at: nat, p: nat)
    requires |pix| == RowStart(w, n) && r < n && x < w + pad
    requires at == RowStart(w + pad, r) + x && p == RowStart(w, n - 1 - r) + x
    ensures at < |Rows(pix, w, pad, n)| && (x < w ==> p < |pix|)
    ensures Rows(pix, w, pad, n)[at] == if x < w then pix[p] else 0
    decreases n
  {
    if r == 0 {
      FirstRowByte(pix, w, pad, n, x, at, p);
    } else {
      var rest, k := pix[..|pix| - w], at - w - pad;
      RowsByte(rest, w, pad, n - 1, r - 1, x, k, p);
      LaterRowByte(pix, rest, w, pad, n, x, k, at, p);
    }
  }

  lemma {:induction false} FirstRowByte(pix: seq<U8>, w: nat, pad: nat, n: nat, x: nat, at: nat, p: nat)
    requires n > 0 && |pix| == RowStart(w, n) && at == x < w + pad && p == RowStart(w, n - 1) + x
    ensures at < |Rows(pix, w, pad, n)| && (x < w ==> p < |pix|)
    ensures Rows(pix, w, pad, n)[at] == if x < w then pix[p] else 0
  {
    var last := pix[|pix| - w..];
    assert x < w ==> last[x] == pix[p];
    ByteOfJoin(last, Zeros(pad), Rows(pix[..|pix| - w], w, pad, n - 1), x);
  }

  lemma {:induction false} LaterRowByte(pix: seq<U8>, rest: seq<U8>, w: nat, pad: nat, n: nat, x: nat, k: nat,
                                        at: nat, p: nat)
    requires n > 0 && |pix| == RowStart(w, n) && rest == pix[..|pix| - w] && at == k + w + pad
    requires k < |Rows(rest, w, pad, n - 1)| && (x < w ==> p < |rest|)
    requires Rows(rest, w, pad, n - 1)[k] == if x < w then rest[p] else 0
    ensures at < |Rows(pix, w, pad, n)| && (x < w ==> p < |pix|)
    ensures Rows(pix, w, pad, n)[at] == if x < w then pix[p] else 0
  {
    ByteOfJoin(pix[|pix| - w..], Zeros(pad), Rows(rest, w, pad, n - 1), at);
  }

  lemma ByteOfJoin(a: seq<U8>, b: seq<U8>, c: seq<U8>, k: nat)
    requires k < |a| + |b| + |c|
    ensures (a + b + c)[k] == if k < |a| then a[k] else if k < |a| + |b| then b[k - |a|] else c[k - |a| - |b|]
  {
  }

  lemma {:induction false} AssembledByte(info: seq<U8>, w: nat, h: nat, pix: seq<U8>, pad: nat, f: seq<U8>, k: nat)
    requires |info| == INFO && |pix| == RowStart(w, h) && f == Assembled(info, w, h, pix, pad) && INFO <= k < |f|
    ensures f[k] == if k < PIX_OFFSET then Palette()[k - INFO] else Rows(pix, w, pad, h)[k - PIX_OFFSET]
  {
    ByteOfJoin(info, Palette(), Rows(pix, w, pad, h), k);
  }

  lemma PaletteEntry(i: nat, j: nat)
    requires i < 256 && j < 4
    ensures Palette()[4 * i + j] == if j == 3 then 0 else i
  {
  }

  lemma {:induction false} PaletteAt(info: seq<U8>, w: nat, h: nat, pix: seq<U8>, pad: nat, f: seq<U8>, i: nat, j: nat)
    requires |info| == INFO && |pix| == RowStart(w, h) && f == Assembled(info, w, h, pix, pad) && i < 256 && j < 4
    ensures |f| >= PIX_OFFSET && f[54 + 4 * i + j] == if j == 3 then 0 else i
  {
    AssembledByte(info, w, h, pix, pad, f, 54 + 4 * i + j);
    PaletteEntry(i, j);
  }

  /** Palette entry `i` is the gray level `i`: blue, green and red, and a zero. */
  lemma PaletteByte(im: Raster, i: nat, j: nat)
    requires im.w < 0x8000_0000 && im.h < 0x8000_0000 && i < 256 && j < 4
    ensures |File(im)| >= PIX_OFFSET && File(im)[54 + 4 * i + j] == if j == 3 then 0 else i
  {
    RowStartExact(im.w, im.h);
    PaletteAt(InfoOf(im.w, im.h), im.w, im.h, im.pix, Pad(im.w), File(im), i, j);
  }

  lemma {:induction false} RowByte(info: seq<U8>, w: nat, h: nat, pix: seq<U8>, pad: nat, f: seq<U8>, r: nat, x: nat)
    requires |info| == INFO && |pix| == RowStart(w, h) && f == Assembled(info, w, h, pix, pad) && r < h && x < w + pad
    ensures PIX_OFFSET + RowStart(w + pad, r) + x < |f| && (x < w ==> RowStart(w, h - 1 - r) + x < |pix|)
    ensures f[PIX_OFFSET + RowStart(w + pad, r) + x] == if x < w then pix[RowStart(w, h - 1 - r) + x] else 0
  {
    RowsByte(pix, w, pad, h, r, x, RowStart(w + pad, r) + x, RowStart(w, h - 1 - r) + x);
    AssembledByte(info, w, h, pix, pad, f, PIX_OFFSET + RowStart(w + pad, r) + x);
  }

  lemma PadExact(w: U32, stride: nat)
    requires stride % 4 == 0 && w <= stride < w + 4
    ensures Pad(w) == stride - w
  {
  }

  lemma {:induction false} FilePixel(w: U32, h: nat, pix: seq<U8>, info: seq<U8>, f: seq<U8>, x: nat, y: nat,
                                     stride: nat, at: nat, p: nat)
    requires |info| == INFO && |pix| == RowStart(w, h) && f == Assembled(info, w, h, pix, Pad(w)) && x < stride && y < h
    requires stride % 4 == 0 && w <= stride < w + 4
    requires at == PIX_OFFSET + RowStart(stride, h - 1 - y) + x && p == RowStart(w, y) + x
    ensures at < |f| && (x < w ==> p < |pix|) && f[at] == if x < w then pix[p] else 0
  {
    PadExact(w, stride);
    RowByte(info, w, h, pix, stride - w, f, h - 1 - y, x);
  }

  /** Pixel (x, y) is stored in the row counted from the bottom, rows being as long as the least multiple
      of four that holds them, and what pads a row is zero. */
  lemma PixelByte(im: Raster, x: nat, y: nat, stride: nat, at: nat, p: nat)
    requires im.w < 0x8000_0000 && im.h < 0x8000_0000 && x < stride && y < im.h
    requires stride % 4 == 0 && im.w <= stride < im.w + 4
    requires at == 1078 + (im.h - 1 - y) * stride + x && p == y * im.w + x
    ensures at < |File(im)| && (x < im.w ==> p < |im.pix|) && File(im)[at] == if x < im.w then im.pix[p] else 0
  {
    RowStartExact(im.w, im.h);
    RowStartExact(stride, im.h - 1 - y);
    RowStartExact(im.w, y);
    FilePixel(im.w, im.h, im.pix, InfoOf(im.w, im.h), File(im), x, y, stride, at, p);
  }

  lemma {:induction false} UnrolledByte(file: seq<U8>, at: nat, w: nat, stride: nat, n: nat, x: nat, y: nat, k: nat,
                                        p: nat)
    requires w <= stride && Fits(file, at, stride, n) && x < w && y < n
    requires k == at + RowStart(stride, n - 1 - y) + x && p == RowStart(w, y) + x
    ensures k < |file| && p < RowStart(w, n) && Unrolled(file, at, w, stride, n)[p] == file[k]
    decreases n
  {
    if y < n - 1 {
      UnrolledByte(file, at + stride, w, stride, n - 1, x, y, k, p);
    }
  }

  lemma {:induction false} SizedByte(file: seq<U8>, w: nat, h: nat, at: nat, stride: nat, im: Image, x: nat, y: nat,
                                     k: nat, p: nat)
    requires w <= stride && ReadRows(file, w, h, at, stride) == Some(im) && x < w && y < h
    requires k == at + (h - 1 - y) * stride + x && p == y * w + x
    ensures im.w == w && im.h == h && k < |file| && p < |im.pix| && im.pix[p] == file[k]
  {
    RowStartExact(stride, h - 1 - y);
    RowStartExact(w, y);
    UnrolledByte(file, at, w, stride, h, x, y, k, p);
  }

  /** Pixel (x, y) of what is read, from any file: rows from below, as long as the least multiple of four
      that holds them, from where the header says. */
  lemma ReadPixel(file: seq<U8>, im: Image, x: nat, y: nat, stride: nat, k: nat, p: nat)
    requires Read(file) == Some(im) && x < im.w && y < im.h && stride % 4 == 0 && im.w <= stride < im.w + 4
    requires k == ReadLittle32(file, 10) + (im.h - 1 - y) * stride + x && p == y * im.w + x
    ensures im.w == Signed32(ReadLittle32(file, 18)) && im.h == Signed32(ReadLittle32(file, 22))
    ensures k < |file| && p < |im.pix| && im.pix[p] == file[k]
  {
    PadExact(im.w, stride);
    SizedByte(file, im.w, im.h, ReadLittle32(file, 10), stride, im, x, y, k, p);
  }

  /** The fields of the two headers, each at its offset. */
  lemma HeaderFields(size: U32, w: U32, h: U32, pixels: U32, b: seq<U8>)
    requires b == Info(size, w, h, pixels)
    ensures |b| == 54 && b[0..2] == [0x42, 0x4D] && b[2..6] == Little32(size) && b[6..10] == [0, 0, 0, 0]
    ensures ReadLittle32(b, 10) == 1078 && b[14..18] == [40, 0, 0, 0]
    ensures b[18..22] == Little32(w) && b[22..26] == Little32(h) && b[26..28] == [1, 0] && b[28..30] == [8, 0]
    ensures b[30..34] == [0, 0, 0, 0] && b[34..38] == Little32(pixels) && b[38..46] == Zeros(8)
    ensures b[46..50] == [0, 1, 0, 0] && b[50..54] == [0, 0, 0, 0]
  {
    LayoutOffsets(Little32(size), Little32(w), Little32(h), Little32(pixels), b);
    FixedFields(b);
  }

  lemma LayoutOffsets(size: seq<U8>, width: seq<U8>, height: seq<U8>, pixels: seq<U8>, b: seq<U8>)
    requires |size| == |width| == |height| == |pixels| == 4 && b == Layout(size, width, height, pixels)
    ensures b[0..2] == [0x42, 0x4D] && b[2..6] == size && b[6..10] == [0, 0, 0, 0] && b[10..14] == [0x36, 4, 0, 0]
    ensures b[14..18] == [40, 0, 0, 0] && b[18..22] == width && b[22..26] == height
    ensures b[26..28] == [1, 0] && b[28..30] == [8, 0] && b[30..34] == [0, 0, 0, 0] && b[34..38] == pixels
    ensures b[38..46] == Zeros(8) && b[46..50] == [0, 1, 0, 0] && b[50..54] == [0, 0, 0, 0]
  {
  }
}
