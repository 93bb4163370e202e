/** `bmp_write` and `bmp_read` of imaging/bmp.c, over files that are byte sequences. */
module BmpFiles {
  import opened Bytes
  import opened Options
  import opened Wire
  import opened Frame
  import opened Bmp

  // ---- filling the header buffer ----------------------------------------------------

  lemma ZerosSplit(n: nat, k: nat)
    requires k <= n
    ensures Zeros(n) == Zeros(k) + Zeros(n - k)
  {
  }

  /** Writes `part` after the `at` bytes already in place; the rest of the buffer is still zero. */
  method Field(hdr: array<U8>, at: nat, part: seq<U8>, ghost done: seq<U8>)
    requires at == |done| && at + |part| <= hdr.Length && hdr[..] == done + Zeros(hdr.Length - at)
    modifies hdr
    ensures hdr[..] == done + part + Zeros(hdr.Length - at - |part|)
  {
    Copy(hdr, at, part);
    assert hdr[..at] == done;
    assert hdr[at + |part|..] == Zeros(hdr.Length - at - |part|);
    assert hdr[..] == hdr[..at] + hdr[at..at + |part|] + hdr[at + |part|..];
  }

  method PutLittle32(hdr: array<U8>, at: nat, v: U32, ghost done: seq<U8>)
    requires at == |done| && at + 4 <= hdr.Length && hdr[..] == done + Zeros(hdr.Length - at)
    modifies hdr
    ensures hdr[..] == done + Little32(v) + Zeros(hdr.Length - at - 4)
  {
    Shifts32(v);
    Field(hdr, at, [v % 0x100, v / 0x100 % 0x100, v / 0x1_0000 % 0x100, v / 0x100_0000], done);
  }

  /** Leaves `n` bytes of the buffer zero. */
  lemma Skip(hdr: seq<U8>, done: seq<U8>, n: nat)
    requires |done| + n <= |hdr| && hdr == done + Zeros(|hdr| - |done|)
    ensures hdr == done + Zeros(n) + Zeros(|hdr| - |done| - n)
  {
    ZerosSplit(|hdr| - |done|, n);
  }

  function FileHeader(size: U32): (b: seq<U8>)
    ensures |b| == 14
  {
    [0x42, 0x4D] + Little32(size) + Zeros(4) + [0x36, 4, 0, 0]
  }

  method PutFileHeader(hdr: array<U8>, size: U32)
    requires hdr.Length == PIX_OFFSET && hdr[..] == Zeros(PIX_OFFSET)
    modifies hdr
    ensures hdr[..] == FileHeader(size) + Zeros(PIX_OFFSET - 14)
  {
    assert [] + Zeros(PIX_OFFSET) == Zeros(PIX_OFFSET);
    Field(hdr, 0, [0x42, 0x4D], []);
    ghost var d := [] + [0x42, 0x4D];
    assert d == [0x42, 0x4D];
    PutLittle32(hdr, 2, size, d);
    d := d + Little32(size);
    Skip(hdr[..], d, 4);
    d := d + Zeros(4);
    Field(hdr, 10, [0x36, 4, 0, 0], d);
  }

  method PutInfoHeader(hdr: array<U8>, w: U32, h: U32, ghost done: seq<U8>) returns (ghost d: seq<U8>)
    requires hdr.Length == PIX_OFFSET && |done| == 14 && hdr[..] == done + Zeros(PIX_OFFSET - 14)
    modifies hdr
    ensures d == done + [40, 0, 0, 0] + Little32(w) + Little32(h) + [1, 0] + [8, 0] && |d| == 30
    ensures hdr[..] == d + Zeros(PIX_OFFSET - 30)
  {
    d := done;
    Field(hdr, 14, [40, 0, 0, 0], d);
    d := d + [40, 0, 0, 0];
    PutLittle32(hdr, 18, w, d);
    d := d + Little32(w);
    PutLittle32(hdr, 22, h, d);
    d := d + Little32(h);
    Field(hdr, 26, [1, 0], d);
    d := d + [1, 0];
    Field(hdr, 28, [8, 0], d);
    d := d + [8, 0];
  }

  method PutSizes(hdr: array<U8>, pixels: U32, ghost done: seq<U8>) returns (ghost d: seq<U8>)
    requires hdr.Length == PIX_OFFSET && |done| == 30 && hdr[..] == done + Zeros(PIX_OFFSET - 30)
    modifies hdr
    ensures d == done + Zeros(4) + Little32(pixels) + Zeros(8) + [0, 1, 0, 0] + Zeros(4) && |d| == INFO
    ensures hdr[..] == d + Zeros(PIX_OFFSET - INFO)
  {
    d := done;
    Skip(hdr[..], d, 4);
    d := d + Zeros(4);
    PutLittle32(hdr, 34, pixels, d);
    d := d + Little32(pixels);
    Skip(hdr[..], d, 8);
    d := d + Zeros(8);
    Field(hdr, 46, [0, 1, 0, 0], d);
    d := d + [0, 1, 0, 0];
    Skip(hdr[..], d, 4);
    d := d + Zeros(4);
  }

  lemma PaletteStep(i: nat)
    requires i < 256
    ensures Palette()[..4 * i] + [i, i, i] + Zeros(1) == Palette()[..4 * i + 4]
  {
  }

  method PutPalette(hdr: array<U8>, ghost info: seq<U8>)
    requires hdr.Length == PIX_OFFSET && |info| == INFO && hdr[..] == info + Zeros(PIX_OFFSET - INFO)
    modifies hdr
    ensures hdr[..] == info + Palette()
  {
    ghost var p := Palette();
    var i: int := 0;
    assert info + p[..0] == info;
    while i < 256
      invariant 0 <= i <= 256 && hdr[..] == info + p[..4 * i] + Zeros(1024 - 4 * i)
    {
      Field(hdr, INFO + 4 * i, [i, i, i], info + p[..4 * i]);
      Skip(hdr[..], info + p[..4 * i] + [i, i, i], 1);
      PaletteStep(i);
      assert info + p[..4 * i] + [i, i, i] + Zeros(1) == info + (p[..4 * i] + [i, i, i] + Zeros(1));
      i := i + 1;
    }
    assert p[..1024] == p && info + p + Zeros(0) == info + p;
  }

  /** The header buffer, as `bmp_write` fills it. */
  method BuildHeader(size: U32, w: U32, h: U32, pixels: U32) returns (hdr: array<U8>)
    ensures fresh(hdr) && hdr[..] == Info(size, w, h, pixels) + Palette()
  {
    hdr := new U8[PIX_OFFSET](_ => 0);
    assert hdr[..] == Zeros(PIX_OFFSET);
    PutFileHeader(hdr, size);
    ghost var d := PutInfoHeader(hdr, w, h, FileHeader(size));
    ghost var info := PutSizes(hdr, pixels, d);
    PutPalette(hdr, info);
  }

  // ---- writing ----------------------------------------------------------------------

  /** A file being written, on a device with room for `space` more bytes. */
  class Disk {
    var bytes: seq<U8>
    var space: nat

    /** `fwrite`: as much as fits. */
    method Append(data: seq<U8>) returns (ok: bool)
      modifies this
      ensures ok <==> |data| <= old(space)
      ensures bytes == old(bytes) + Fit(data, old(space)) && space == old(space) - |Fit(data, old(space))|
    {
      ok := |data| <= space;
      var n := if ok then |data| else space;
      bytes, space := bytes + data[..n], space - n;
      assert data[..|data|] == data;
    }
  }

  function Fit(data: seq<U8>, space: nat): seq<U8> {
    if |data| <= space then data else data[..space]
  }

  /** Appending `next` to `done`: either it all goes in and `rest` is next, or the space is used
      up. */
  lemma FitStep(done: seq<U8>, next: seq<U8>, rest: seq<U8>, all: seq<U8>, space: nat)
    requires all == done + (next + rest) && |done| <= space
    ensures |done| + |next| <= space ==> done + Fit(next, space - |done|) + rest == all
    ensures |done| + |next| > space ==> |all| > space && done + Fit(next, space - |done|) == Fit(all, space)
  {
  }

  lemma {:induction false} LastRow(pix: seq<U8>, at: nat, w: nat, pad: nat, y: nat)
    requires 0 < y && at == RowStart(w, y) <= |pix|
    ensures w <= at && at - w == RowStart(w, y - 1)
    ensures Rows(pix[..at], w, pad, y) == pix[at - w..at] + Zeros(pad) + Rows(pix[..at - w], w, pad, y - 1)
  {
    assert pix[..at][at - w..] == pix[at - w..at] && pix[..at][..at - w] == pix[..at - w];
  }

  /** Writes the rows of `all` that are not in the file yet. */
  method WriteRows(disk: Disk, pix: array<U8>, w: nat, pad: nat, h: nat, ghost all: seq<U8>, ghost space: nat)
    returns (ok: bool)
    requires pix.Length == RowStart(w, h)
    requires all == disk.bytes + Rows(pix[..], w, pad, h) && space == |disk.bytes| + disk.space
    modifies disk
    ensures ok <==> |all| <= space
    ensures disk.bytes == Fit(all, space)
  {
    ghost var s := pix[..];
    var y, at := h, pix.Length;
    assert s[..at] == s;
    while y > 0
      invariant 0 <= y <= h && at == RowStart(w, y) <= pix.Length
      invariant all == disk.bytes + Rows(s[..at], w, pad, y) && space == |disk.bytes| + disk.space
    {
      LastRow(s, at, w, pad, y);
      var row := pix[at - w..at];
      y, at := y - 1, at - w;
      FitStep(disk.bytes, row + Zeros(pad), Rows(s[..at], w, pad, y), all, space);
      ok := WriteRow(disk, row, pad);
      if !ok {
        return;
      }
    }
    assert all == disk.bytes;
    ok := true;
  }

  method WriteRow(disk: Disk, row: seq<U8>, pad: nat) returns (ok: bool)
    modifies disk
    ensures ok <==> |row| + pad <= old(disk.space)
    ensures disk.bytes == old(disk.bytes) + Fit(row + Zeros(pad), old(disk.space))
    ensures ok ==> disk.space == old(disk.space) - |row| - pad
  {
    ghost var start, space := disk.bytes, disk.space;
    FitStep([], row, Zeros(pad), row + Zeros(pad), space);
    assert [] + Fit(row, space) == Fit(row, space);
    ok := disk.Append(row);
    if !ok {
      return;
    }
    if pad > 0 {
      FitStep(row, Zeros(pad), [], row + Zeros(pad), space);
      ok := disk.Append(Zeros(pad));
      assert start + row + Fit(Zeros(pad), space - |row|) == start + (row + Fit(Zeros(pad), space - |row|));
    } else {
      assert row + Zeros(0) == row;
    }
  }

  /** `bmp_write`. The file is created empty; whatever happens, it ends up with as much of the right
      bytes as there was room for. */
  method Write(pix: array?<U8>, w: I32, h: I32, disk: Disk, opens: bool) returns (r: int)
    requires pix != null && w > 0 && h > 0 ==> pix.Length == w * h
    modifies disk
    ensures pix == null || w <= 0 || h <= 0 || !opens ==> r == -1 && disk.bytes == old(disk.bytes)
    ensures pix != null && w > 0 && h > 0 && opens ==>
              var f := File(Image(w, h, pix[..]));
              r == (if |f| <= old(disk.space) then 0 else -1) && disk.bytes == Fit(f, old(disk.space))
  {
    if w <= 0 || h <= 0 || pix == null {
      return -1;
    }
    var stride := Stride(w);
    StrideExact(w);
    var pixels := PixelBytes(w, h);
    var hdr := BuildHeader(FileBytes(w, h), w, h, pixels);
    if !opens {
      return -1;
    }
    RowStartExact(w, h);
    disk.bytes := [];
    r := WriteAll(disk, hdr, pix, w, stride - w, h);
  }

  method WriteAll(disk: Disk, hdr: array<U8>, pix: array<U8>, w: nat, pad: nat, h: nat) returns (r: int)
    requires disk.bytes == [] && pix.Length == RowStart(w, h)
    modifies disk
    ensures var f := hdr[..] + Rows(pix[..], w, pad, h);
            r == (if |f| <= old(disk.space) then 0 else -1) && disk.bytes == Fit(f, old(disk.space))
  {
    ghost var space := disk.space;
    ghost var f := hdr[..] + Rows(pix[..], w, pad, h);
    var ok := disk.Append(hdr[..]);
    if !ok {
      assert disk.bytes == Fit(f, space);
      return -1;
    }
    assert disk.bytes == hdr[..];
    ok := WriteRows(disk, pix, w, pad, h, f, space);
    return if ok then 0 else -1;
  }

  // ---- reading ----------------------------------------------------------------------

  /** `image_alloc`: a zeroed buffer, unless the size is refused or memory runs out. */
  method Allocate(w: int, h: int, memory: bool) returns (buf: array?<U8>)
    ensures buf != null <==> Allocatable(w, h) && memory
    ensures buf != null ==> fresh(buf) && buf.Length == RowStart(w, h)
    ensures buf != null ==> forall i :: 0 <= i < buf.Length ==> buf[i] == 0
  {
    AllocatableExact(w, h);
    if w <= 0 || h <= 0 || w * h > MAX_PIXELS || !memory {
      return null;
    }
    RowStartExact(w, h);
    buf := new U8[w * h](_ => 0);
  }

  /** `bmp_read`: the file if it opens, and whether its pixel buffer can be allocated. */
  method ReadFile(file: Option<seq<U8>>, memory: bool) returns (img: Option<Image>)
    ensures img == if file.Some? && memory then Read(file.value) else None
  {
    if file.None? {
      return None;
    }
    var f := file.value;
    if |f| < INFO || f[0] != 0x42 || f[1] != 0x4D {
      return None;
    }
    var at, w, h := ReadLittle32(f, 10), Signed32(ReadLittle32(f, 18)), Signed32(ReadLittle32(f, 22));
    if ReadLittle16(f, 28) != 8 || w <= 0 || h <= 0 {
      return None;
    }
    var buf := Allocate(w, h, memory);
    if buf == null {
      return None;
    }
    StrideExact(w);
    var ok := LoadRows(f, at, buf, w, Stride(w), h);
    if ok {
      img := Some(Image(w, h, buf[..]));
    } else {
      img := None;
    }
  }

  /** With `y` rows to go from position `pos`, the others are loaded. */
  ghost predicate Loaded(f: seq<U8>, at: nat, h: nat, pos: nat, y: nat, w: nat, stride: nat, tail: seq<U8>)
    requires w <= stride
  {
    && (Fits(f, at, stride, h) <==> Fits(f, pos, stride, y))
    && (Fits(f, pos, stride, y) ==> Unrolled(f, at, w, stride, h) == Unrolled(f, pos, w, stride, y) + tail)
  }

  lemma LoadedMore(f: seq<U8>, at: nat, h: nat, pos: nat, y: nat, w: nat, stride: nat, tail: seq<U8>)
    requires w <= stride && y > 0 && pos + stride <= |f| && Loaded(f, at, h, pos, y, w, stride, tail)
    ensures Loaded(f, at, h, pos + stride, y - 1, w, stride, f[pos..pos + w] + tail)
  {
    if Fits(f, pos, stride, y) {
      var above, row := Unrolled(f, pos + stride, w, stride, y - 1), f[pos..pos + w];
      assert above + row + tail == above + (row + tail);
    }
  }

  /** The rows from position `at` on, the lowest first, put where they belong. */
  method LoadRows(f: seq<U8>, at: nat, buf: array<U8>, w: nat, stride: nat, h: nat) returns (ok: bool)
    requires w <= stride && buf.Length == RowStart(w, h)
    modifies buf
    ensures ok <==> Fits(f, at, stride, h)
    ensures ok ==> buf[..] == Unrolled(f, at, w, stride, h)
  {
    var pos: nat, y: nat, start := at, h, buf.Length;
    assert buf[start..] == [];
    while y > 0
      invariant 0 <= y <= h && start == RowStart(w, y) <= buf.Length
      invariant Loaded(f, at, h, pos, y, w, stride, buf[start..])
    {
      var padlen := stride - w;
      if pos + w > |f| || (padlen > 0 && pos + w + padlen > |f|) {
        return false;
      }
      LoadedMore(f, at, h, pos, y, w, stride, buf[start..]);
      LoadRow(buf, start - w, f[pos..pos + w], start);
      y, start, pos := y - 1, start - w, pos + stride;
    }
    return true;
  }

  /** Puts one row in front of those already loaded. */
  method LoadRow(buf: array<U8>, to: nat, row: seq<U8>, start: nat)
    requires start == to + |row| <= buf.Length
    modifies buf
    ensures buf[to..] == row + old(buf[start..])
  {
    Copy(buf, to, row);
    assert buf[start..] == old(buf[start..]);
    assert buf[to..] == buf[to..start] + buf[start..];
  }
}
