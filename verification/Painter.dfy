/** The upload half of the software painter: dirty rectangles of frames, copied into a persistent texture. */
module Painter {
  import opened Bytes

  datatype Pixel = Pixel(b: Byte, g: Byte, r: Byte, a: Byte)

  datatype DirtyRect = DirtyRect(x: int, y: int, w: int, h: int)

  datatype PixelFrame = PixelFrame(width: nat, height: nat, stride: nat, bgra: seq<Byte>, dirty: seq<DirtyRect>)

  datatype Outcome = Ok | BadDimensions(width: nat, height: nat)

  predicate InRect(r: DirtyRect, px: int, py: int) {
    r.x <= px < r.x + r.w && r.y <= py < r.y + r.h
  }

  predicate IsI32(n: int) { -0x8000_0000 <= n < 0x8000_0000 }

  /** The rectangle's corners are representable, so the clipping arithmetic does not overflow. */
  predicate Representable(r: DirtyRect) {
    IsI32(r.x) && IsI32(r.y) && IsI32(r.w) && IsI32(r.h) && IsI32(r.x + r.w) && IsI32(r.y + r.h)
  }

  /** The rows lie `stride` bytes apart and the last one is complete. */
  predicate Complete(f: PixelFrame) {
    f.width > 0 && f.height > 0 ==> f.stride >= 4 * f.width && (f.height - 1) * f.stride + 4 * f.width <= |f.bgra|
  }

  lemma OffsetInBounds(f: PixelFrame, px: nat, py: nat)
    requires Complete(f) && px < f.width && py < f.height
    ensures 0 <= py * f.stride + 4 * px && py * f.stride + 4 * px + 4 <= |f.bgra|
  {
    MulMonotone(py, f.height - 1, f.stride);
  }

  lemma MulMonotone(a: nat, b: nat, k: nat)
    requires a <= b
    ensures a * k <= b * k
  {
  }

  function PixelBytes(bytes: seq<Byte>, at: nat): Pixel
    requires at + 4 <= |bytes|
  {
    Pixel(bytes[at], bytes[at + 1], bytes[at + 2], bytes[at + 3])
  }

  function PixelAt(f: PixelFrame, px: nat, py: nat): Pixel
    requires Complete(f) && px < f.width && py < f.height
  {
    OffsetInBounds(f, px, py);
    PixelBytes(f.bgra, py * f.stride + 4 * px)
  }

  /** The frame says anything about this pixel: no rectangles stand for the whole frame. */
  predicate Touched(f: PixelFrame, px: int, py: int) {
    f.dirty == [] || exists k :: 0 <= k < |f.dirty| && InRect(f.dirty[k], px, py)
  }

  /** The part of the rectangle inside the frame, as exactly the pixels in both. */
  method ClipRect(r: DirtyRect, fw: int, fh: int) returns (c: DirtyRect)
    requires fw > 0 && fh > 0 && Representable(r)
    ensures c.w >= 0 && c.h >= 0
    ensures c.w > 0 ==> 0 <= c.x && c.x + c.w <= fw
    ensures c.h > 0 ==> 0 <= c.y && c.y + c.h <= fh
    ensures forall px, py :: InRect(c, px, py) <==> InRect(r, px, py) && 0 <= px < fw && 0 <= py < fh
  {
    var nx := if r.x > 0 then r.x else 0;
    var ny := if r.y > 0 then r.y else 0;
    var nw := r.w + if r.x < 0 then r.x else 0;
    var nh := r.h + if r.y < 0 then r.y else 0;
    if nx + nw > fw {
      nw := fw - nx;
    }
    if ny + nh > fh {
      nh := fh - ny;
    }
    if nw < 0 {
      nw := 0;
    }
    if nh < 0 {
      nh := 0;
    }
    if nx >= fw {
      nx := fw - 1;
      nw := 0;
    }
    if ny >= fh {
      ny := fh - 1;
      nh := 0;
    }
    c := DirtyRect(nx, ny, nw, nh);
  }

  lemma SliceOffset(x: nat, y: nat, i: nat, j: nat, stride: nat)
    ensures (y + j) * stride + 4 * (x + i) == (y * stride + 4 * x) + (j * stride + 4 * i)
  {
    assert (y + j) * stride == y * stride + j * stride;
  }

  /** The slice holds every pixel of the rectangle, at its row and column. */
  lemma SliceHolds(f: PixelFrame, r: DirtyRect, i: nat, j: nat, start: nat, end: nat)
    requires Complete(f)
    requires 0 <= r.x && r.x + r.w <= f.width && 0 <= r.y && r.y + r.h <= f.height && i < r.w && j < r.h
    requires start == r.y * f.stride + r.x * 4 && end == start + (r.h - 1) * f.stride + r.w * 4 <= |f.bgra|
    ensures j * f.stride + 4 * i + 4 <= end - start
    ensures PixelBytes(f.bgra[start..end], j * f.stride + 4 * i) == PixelAt(f, r.x + i, r.y + j)
  {
    MulMonotone(j, r.h - 1, f.stride);
    SliceOffset(r.x, r.y, i, j, f.stride);
  }

  lemma SliceBounds(f: PixelFrame, r: DirtyRect)
    requires Complete(f)
    requires 0 <= r.x && r.x + r.w <= f.width && 0 <= r.y && r.y + r.h <= f.height && r.w > 0 && r.h > 0
    ensures var start := r.y * f.stride + r.x * 4;
      0 <= start <= start + (r.h - 1) * f.stride + r.w * 4 <= |f.bgra|
  {
    OffsetInBounds(f, r.x + r.w - 1, r.y + r.h - 1);
    SliceOffset(r.x, r.y, r.w - 1, r.h - 1, f.stride);
    OffsetInBounds(f, r.x, r.y);
    MulMonotone(0, r.h - 1, f.stride);
  }

  /** From byte `from` on, the slice holds `w` pixels of a row of the frame, beginning with column `x`. */
  ghost predicate RowInSlice(slice: seq<Byte>, from: nat, f: PixelFrame, x: nat, w: nat, row: nat)
    requires Complete(f) && x + w <= f.width && row < f.height && from + 4 * w <= |slice|
  {
    forall px: nat :: x <= px < x + w ==> PixelBytes(slice, from + 4 * (px - x)) == PixelAt(f, px, row)
  }

  /** `SliceHolds` for a column of the frame and a row whose offset in the slice is `from`. */
  lemma PixelHolds(f: PixelFrame, r: DirtyRect, px: nat, j: nat, row: nat, start: nat, end: nat, from: nat)
    requires Complete(f)
    requires 0 <= r.x && r.x + r.w <= f.width && 0 <= r.y && r.y + r.h <= f.height && j < r.h && row == r.y + j
    requires r.x <= px < r.x + r.w && from == j * f.stride
    requires start == r.y * f.stride + r.x * 4 && end == start + (r.h - 1) * f.stride + r.w * 4 <= |f.bgra|
    ensures from + 4 * (px - r.x) + 4 <= end - start
    ensures PixelBytes(f.bgra[start..end], from + 4 * (px - r.x)) == PixelAt(f, px, row)
  {
    SliceHolds(f, r, px - r.x, j, start, end);
  }

  lemma RowFits(r: DirtyRect, stride: nat, j: nat, start: nat, end: nat)
    requires 0 < r.w && j < r.h && end == start + (r.h - 1) * stride + r.w * 4
    ensures j * stride + 4 * r.w <= end - start
  {
    MulMonotone(j, r.h - 1, stride);
  }

  lemma RowHolds(f: PixelFrame, r: DirtyRect, j: nat, row: nat, start: nat, end: nat, from: nat)
    requires Complete(f)
    requires 0 <= r.x && r.x + r.w <= f.width && 0 <= r.y && r.y + r.h <= f.height && 0 < r.w && j < r.h && row == r.y + j
    requires start == r.y * f.stride + r.x * 4 && end == start + (r.h - 1) * f.stride + r.w * 4 <= |f.bgra|
    requires from == j * f.stride
    ensures from + 4 * r.w <= end - start
    ensures RowInSlice(f.bgra[start..end], from, f, r.x, r.w, row)
  {
    RowFits(r, f.stride, j, start, end);
    forall px: nat | r.x <= px < r.x + r.w
      ensures PixelBytes(f.bgra[start..end], from + 4 * (px - r.x)) == PixelAt(f, px, row)
    {
      PixelHolds(f, r, px, j, row, start, end, from);
    }
  }

  /** One row of the copy: `w` pixels, from byte `from` of the slice on. */
  method WriteRow(tex: array2<Pixel>, f: PixelFrame, x: nat, w: nat, row: nat, slice: seq<Byte>, from: nat)
    requires Complete(f) && tex.Length0 == f.height && tex.Length1 == f.width
    requires x + w <= f.width && row < f.height
    requires from + 4 * w <= |slice|
    requires RowInSlice(slice, from, f, x, w, row)
    modifies tex
    ensures forall py, px :: 0 <= py < tex.Length0 && 0 <= px < tex.Length1 ==>
      tex[py, px] == if py == row && x <= px < x + w then PixelAt(f, px, py) else old(tex[py, px])
  {
    for i := 0 to w
      invariant forall py, px :: 0 <= py < tex.Length0 && 0 <= px < tex.Length1 ==>
        tex[py, px] == if py == row && x <= px < x + i then PixelAt(f, px, py) else old(tex[py, px])
    {
      assert PixelAt(f, x + i, row) == PixelBytes(slice, from + 4 * i);
      tex[row, x + i] := PixelBytes(slice, from + 4 * i);
    }
  }

  /** Copy a rectangle of the frame: the rows of one slice of its bytes, `stride` apart. */
  method WriteRect(tex: array2<Pixel>, f: PixelFrame, r: DirtyRect)
    requires Complete(f) && tex.Length0 == f.height && tex.Length1 == f.width
    requires 0 <= r.x && r.x + r.w <= f.width && 0 <= r.y && r.y + r.h <= f.height && r.w > 0 && r.h > 0
    modifies tex
    ensures forall py, px :: 0 <= py < tex.Length0 && 0 <= px < tex.Length1 ==>
      tex[py, px] == if InRect(r, px, py) then PixelAt(f, px, py) else old(tex[py, px])
  {
    SliceBounds(f, r);
    var start := r.y * f.stride + r.x * 4;
    var end := start + (r.h - 1) * f.stride + r.w * 4;
    var slice := f.bgra[start..end];
    for j := 0 to r.h
      invariant forall py, px :: 0 <= py < tex.Length0 && 0 <= px < tex.Length1 ==>
        tex[py, px] == if InRect(r, px, py) && py < r.y + j then PixelAt(f, px, py) else old(tex[py, px])
    {
      RowHolds(f, r, j, r.y + j, start, end, j * f.stride);
      WriteRow(tex, f, r.x, r.w, r.y + j, slice, j * f.stride);
    }
  }

  // ---- One upload ----

  /** The texture's pixels, by row and column. */
  type Texture = map<(int, int), Pixel>

  ghost function Content(tex: array2<Pixel>): Texture
    reads tex
  {
    map py, px | 0 <= py < tex.Length0 && 0 <= px < tex.Length1 :: (py, px) := tex[py, px]
  }

  /** What the texture shows after an upload. */
  ghost function Uploaded(t: Texture, f: PixelFrame): Texture
    requires Complete(f)
  {
    map at | at in t ::
      if 0 <= at.1 < f.width && 0 <= at.0 < f.height && Touched(f, at.1, at.0) then PixelAt(f, at.1, at.0) else t[at]
  }

  class GpuPainter {
    const maxDimension: nat
    var config: (nat, nat)
    var upload: array2?<Pixel>
    var pendingSize: (nat, nat)
    var visible: bool

    constructor (maxDimension: nat, size: (nat, nat))
      ensures config == size && pendingSize == size && visible && upload == null && this.maxDimension == maxDimension
    {
      this.maxDimension, config, upload, pendingSize, visible := maxDimension, size, null, size, true;
    }

    method Resize(size: (nat, nat))
      modifies this`pendingSize
      ensures pendingSize == if size.0 == 0 || size.1 == 0 then old(pendingSize) else size
    {
      if size.0 == 0 || size.1 == 0 {
        return;
      }
      pendingSize := size;
    }

    method EnsureUpload(w: nat, h: nat)
      modifies this`upload
      ensures upload != null && upload.Length0 == h && upload.Length1 == w
      ensures if old(upload) != null && old(upload).Length0 == h && old(upload).Length1 == w
              then upload == old(upload) else fresh(upload)
    {
      if upload == null || upload.Length1 != w || upload.Length0 != h {
        upload := new Pixel[h, w];
      }
    }

    /** Frames of a bad size are refused, frames for a hidden surface dropped; any other frame is uploaded
        into a texture of its own size, which is kept while the size stays. */
    method PushPixels(f: PixelFrame) returns (outcome: Outcome)
      requires Complete(f) && forall k :: 0 <= k < |f.dirty| ==> Representable(f.dirty[k])
      modifies this`config, this`upload, this`pendingSize, upload
      ensures var bad := f.width == 0 || f.height == 0 || f.width > maxDimension || f.height > maxDimension;
        && outcome == (if bad then BadDimensions(f.width, f.height) else Ok)
        && (bad || !visible ==> unchanged(this) && (upload != null ==> unchanged(upload)))
        && (!bad && visible ==>
          && config == (f.width, f.height)
          && pendingSize == (if old(config) == config then old(pendingSize) else config)
          && upload != null && upload.Length0 == f.height && upload.Length1 == f.width
          && (forall py, px :: 0 <= py < f.height && 0 <= px < f.width && Touched(f, px, py) ==>
                upload[py, px] == PixelAt(f, px, py))
          && (old(config) == config && old(upload) != null && old(upload.Length0) == f.height && old(upload.Length1) == f.width ==>
            upload == old(upload) && Content(upload) == Uploaded(old(Content(upload)), f)))
    {
      if f.width == 0 || f.height == 0 {
        return BadDimensions(f.width, f.height);
      }
      if f.width > maxDimension || f.height > maxDimension {
        return BadDimensions(f.width, f.height);
      }
      if !visible {
        return Ok;
      }
      if config != (f.width, f.height) {
        config := (f.width, f.height);
        upload := null;
        pendingSize := (f.width, f.height);
      }
      EnsureUpload(f.width, f.height);
      WriteDirty(upload, f);
      outcome := Ok;
    }
  }

  method WriteDirty(tex: array2<Pixel>, f: PixelFrame)
    requires Complete(f) && f.width > 0 && f.height > 0 && tex.Length0 == f.height && tex.Length1 == f.width
    requires forall k :: 0 <= k < |f.dirty| ==> Representable(f.dirty[k])
    modifies tex
    ensures forall py, px :: 0 <= py < tex.Length0 && 0 <= px < tex.Length1 ==>
      tex[py, px] == if Touched(f, px, py) then PixelAt(f, px, py) else old(tex[py, px])
  {
    if f.dirty == [] {
      WriteRect(tex, f, DirtyRect(0, 0, f.width, f.height));
      return;
    }
    for k := 0 to |f.dirty|
      invariant forall py, px :: 0 <= py < tex.Length0 && 0 <= px < tex.Length1 ==>
        tex[py, px] == if exists m :: 0 <= m < k && InRect(f.dirty[m], px, py) then PixelAt(f, px, py) else old(tex[py, px])
    {
      var c := ClipRect(f.dirty[k], f.width, f.height);
      if c.w <= 0 || c.h <= 0 {
        assert forall py, px :: 0 <= py < tex.Length0 && 0 <= px < tex.Length1 ==> !InRect(f.dirty[k], px, py) || InRect(c, px, py);
        continue;
      }
      WriteRect(tex, f, c);
    }
  }

  // ---- Runs of frames of one size ----

  /** A frame pushed, and whether the surface was visible then. */
  datatype Push = Push(frame: PixelFrame, visible: bool)

  ghost predicate SameSize(pushes: seq<Push>, w: nat, h: nat) {
    forall i :: 0 <= i < |pushes| ==> Complete(pushes[i].frame) && pushes[i].frame.width == w && pushes[i].frame.height == h
  }

  ghost predicate HasSize(t: Texture, w: nat, h: nat) {
    forall py, px :: (py, px) in t <==> 0 <= py < h && 0 <= px < w
  }

  /** The texture after the run. */
  ghost function AfterPushes(t: Texture, pushes: seq<Push>, w: nat, h: nat): Texture
    requires SameSize(pushes, w, h)
  {
    if pushes == [] then t
    else
      var before, last := AfterPushes(t, pushes[..|pushes| - 1], w, h), pushes[|pushes| - 1];
      if last.visible then Uploaded(before, last.frame) else before
  }

  /** The last push that was seen and said anything about the pixel. */
  ghost function LastTouch(pushes: seq<Push>, px: int, py: int): (k: int)
    ensures -1 <= k < |pushes|
  {
    if pushes == [] then -1
    else if pushes[|pushes| - 1].visible && Touched(pushes[|pushes| - 1].frame, px, py) then |pushes| - 1
    else LastTouch(pushes[..|pushes| - 1], px, py)
  }

  /** Every pixel of the texture is that of the last visible frame that touched it. */
  lemma {:induction false} TextureIsLastTouch(t: Texture, pushes: seq<Push>, w: nat, h: nat, px: nat, py: nat)
    requires SameSize(pushes, w, h) && HasSize(t, w, h) && px < w && py < h
    ensures (py, px) in AfterPushes(t, pushes, w, h)
    ensures var k := LastTouch(pushes, px, py);
      AfterPushes(t, pushes, w, h)[(py, px)] == if k < 0 then t[(py, px)] else PixelAt(pushes[k].frame, px, py)
  {
    if pushes != [] {
      TextureIsLastTouch(t, pushes[..|pushes| - 1], w, h, px, py);
    }
  }

  /** Frame by frame, what changes lies in the dirty rectangles. */
  ghost predicate DirtyTellsChanges(pushes: seq<Push>, w: nat, h: nat)
    requires SameSize(pushes, w, h)
  {
    forall i, px: nat, py: nat :: 0 < i < |pushes| && px < w && py < h && !Touched(pushes[i].frame, px, py) ==>
      PixelAt(pushes[i].frame, px, py) == PixelAt(pushes[i - 1].frame, px, py)
  }

  /** A frame dropped while hidden said something about the pixel, and no visible frame has since. */
  ghost predicate Missed(pushes: seq<Push>, px: int, py: int) {
    exists j :: LastTouch(pushes, px, py) < j < |pushes| && !pushes[j].visible && Touched(pushes[j].frame, px, py)
  }

  /** The latest frame has the pixel as it was in the last visible frame that touched it. */
  ghost predicate LooksAsSeen(pushes: seq<Push>, w: nat, h: nat, px: nat, py: nat)
    requires SameSize(pushes, w, h) && pushes != [] && px < w && py < h
  {
    var k := LastTouch(pushes, px, py);
    k >= 0 && PixelAt(pushes[k].frame, px, py) == PixelAt(pushes[|pushes| - 1].frame, px, py)
  }

  lemma {:induction false} LooksAsSeenUnlessMissed(pushes: seq<Push>, w: nat, h: nat, px: nat, py: nat)
    requires SameSize(pushes, w, h) && pushes != [] && px < w && py < h
    requires DirtyTellsChanges(pushes, w, h) && pushes[0].visible && Touched(pushes[0].frame, px, py)
    ensures LastTouch(pushes, px, py) >= 0
    ensures !Missed(pushes, px, py) ==> LooksAsSeen(pushes, w, h, px, py)
  {
    var last := |pushes| - 1;
    if last > 0 {
      var before := pushes[..last];
      LooksAsSeenUnlessMissed(before, w, h, px, py);
      if !Touched(pushes[last].frame, px, py) && !Missed(pushes, px, py) {
        assert forall j :: 0 <= j < last ==> before[j] == pushes[j];
        assert !Missed(before, px, py);
      }
    }
  }

  /** Over a visible run that begins with a whole frame and whose frames differ only inside their dirty
      rectangles, the texture shows the latest frame. */
  lemma TextureShowsLatest(t: Texture, pushes: seq<Push>, w: nat, h: nat, px: nat, py: nat)
    requires SameSize(pushes, w, h) && HasSize(t, w, h) && pushes != [] && px < w && py < h
    requires forall i :: 0 <= i < |pushes| ==> pushes[i].visible
    requires DirtyTellsChanges(pushes, w, h) && forall x, y :: 0 <= x < w && 0 <= y < h ==> Touched(pushes[0].frame, x, y)
    ensures (py, px) in AfterPushes(t, pushes, w, h)
    ensures AfterPushes(t, pushes, w, h)[(py, px)] == PixelAt(pushes[|pushes| - 1].frame, px, py)
  {
    TextureIsLastTouch(t, pushes, w, h, px, py);
    LooksAsSeenUnlessMissed(pushes, w, h, px, py);
  }

  ghost predicate BeginsWhole(pushes: seq<Push>, w: nat, h: nat) {
    pushes != [] && pushes[0].visible && forall x, y :: 0 <= x < w && 0 <= y < h ==> Touched(pushes[0].frame, x, y)
  }

  /** With frames dropped while hidden, the texture shows the latest frame exactly if every pixel missed so
      looks as it was last seen. */
  lemma ShowsLatestIff(t: Texture, pushes: seq<Push>, w: nat, h: nat)
    requires SameSize(pushes, w, h) && HasSize(t, w, h) && BeginsWhole(pushes, w, h) && DirtyTellsChanges(pushes, w, h)
    ensures forall px: nat, py: nat :: px < w && py < h ==> (py, px) in AfterPushes(t, pushes, w, h)
    ensures (forall px: nat, py: nat :: px < w && py < h ==>
        AfterPushes(t, pushes, w, h)[(py, px)] == PixelAt(pushes[|pushes| - 1].frame, px, py))
      <==> (forall px: nat, py: nat :: px < w && py < h && Missed(pushes, px, py) ==> LooksAsSeen(pushes, w, h, px, py))
  {
    forall px: nat, py: nat | px < w && py < h
      ensures (py, px) in AfterPushes(t, pushes, w, h)
      ensures AfterPushes(t, pushes, w, h)[(py, px)] == PixelAt(pushes[|pushes| - 1].frame, px, py)
        <==> Missed(pushes, px, py) ==> LooksAsSeen(pushes, w, h, px, py)
    {
      TextureIsLastTouch(t, pushes, w, h, px, py);
      LooksAsSeenUnlessMissed(pushes, w, h, px, py);
    }
  }

  /** Two pixels in one row, both of the same byte. */
  function TwoPixels(b: Byte, dirty: seq<DirtyRect>): PixelFrame {
    PixelFrame(2, 1, 8, [b, b, b, b, b, b, b, b], dirty)
  }

  /** A whole frame while visible, a whole change while hidden, then a visible frame that touches one pixel:
      the other pixel stays as it was first, though each frame tells its changes. */
  lemma HiddenChangeIsMissed(t: Texture, a: Byte, b: Byte)
    requires HasSize(t, 2, 1) && a != b
    ensures var pushes := [
        Push(TwoPixels(a, []), true), Push(TwoPixels(b, []), false),
        Push(TwoPixels(b, [DirtyRect(0, 0, 1, 1)]), true)];
      && SameSize(pushes, 2, 1) && BeginsWhole(pushes, 2, 1) && DirtyTellsChanges(pushes, 2, 1)
      && (0, 1) in AfterPushes(t, pushes, 2, 1)
      && AfterPushes(t, pushes, 2, 1)[(0, 1)] == PixelAt(pushes[0].frame, 1, 0) != PixelAt(pushes[2].frame, 1, 0)
  {
    var whole, hidden, partial := TwoPixels(a, []), TwoPixels(b, []), TwoPixels(b, [DirtyRect(0, 0, 1, 1)]);
    var pushes := [Push(whole, true), Push(hidden, false), Push(partial, true)];
    assert forall px: nat :: px < 2 ==> PixelAt(partial, px, 0) == PixelAt(hidden, px, 0) == Pixel(b, b, b, b);
    assert PixelAt(whole, 1, 0) == Pixel(a, a, a, a);
    assert !Touched(partial, 1, 0) && Touched(whole, 1, 0);
    assert pushes[..2][..1] == [pushes[0]] && pushes[..2] == [pushes[0], pushes[1]];
    assert LastTouch([pushes[0]], 1, 0) == 0;
    assert LastTouch(pushes, 1, 0) == LastTouch(pushes[..2], 1, 0) == 0;
    TextureIsLastTouch(t, pushes, 2, 1, 1, 0);
  }

  /** After any upload, the texture shows the frame exactly when it showed its untouched pixels before. */
  lemma ShowsFrameIff(t: Texture, f: PixelFrame)
    requires Complete(f) && HasSize(t, f.width, f.height)
    ensures (forall px: nat, py: nat :: px < f.width && py < f.height ==> Uploaded(t, f)[(py, px)] == PixelAt(f, px, py))
      <==> (forall px: nat, py: nat :: px < f.width && py < f.height && !Touched(f, px, py) ==> t[(py, px)] == PixelAt(f, px, py))
  {
    forall px: nat, py: nat | px < f.width && py < f.height
      ensures Uploaded(t, f)[(py, px)] == if Touched(f, px, py) then PixelAt(f, px, py) else t[(py, px)]
    {
    }
  }

  // ---- Texture and frame, byte by byte ----

  /** The bytes of the first `n` pixels of a row of the texture, in the order blue, green, red, alpha. */
  ghost function RowBytes(t: Texture, row: nat, n: nat): seq<Byte>
    requires forall px :: 0 <= px < n ==> (row, px) in t
  {
    if n == 0 then []
    else var p := t[(row, n - 1)]; RowBytes(t, row, n - 1) + [p.b, p.g, p.r, p.a]
  }

  /** The texture is the frame, so far as this row goes. */
  ghost predicate RowShown(t: Texture, f: PixelFrame, row: nat, n: nat)
    requires Complete(f) && row < f.height && n <= f.width
  {
    forall px: nat :: px < n ==> (row, px) in t && t[(row, px)] == PixelAt(f, px, row)
  }

  lemma RowFitsFrame(f: PixelFrame, row: nat, n: nat)
    requires Complete(f) && row < f.height && n <= f.width && f.width > 0
    ensures 0 <= row * f.stride <= row * f.stride + 4 * n <= |f.bgra|
  {
    OffsetInBounds(f, 0, row);
    if n > 0 {
      OffsetInBounds(f, n - 1, row);
    }
  }

  /** A row of the texture that shows the frame holds the very bytes of the frame's row. */
  lemma {:induction false} ShownRowIsBytes(t: Texture, f: PixelFrame, row: nat, n: nat)
    requires Complete(f) && row < f.height && n <= f.width && f.width > 0 && RowShown(t, f, row, n)
    ensures 0 <= row * f.stride <= row * f.stride + 4 * n <= |f.bgra|
    ensures RowBytes(t, row, n) == f.bgra[row * f.stride..row * f.stride + 4 * n]
  {
    RowFitsFrame(f, row, n);
    if n > 0 {
      ShownRowIsBytes(t, f, row, n - 1);
      OffsetInBounds(f, n - 1, row);
      var from := row * f.stride;
      var p := t[(row, n - 1)];
      assert p == PixelBytes(f.bgra, from + 4 * (n - 1));
      assert f.bgra[from..from + 4 * n] == f.bgra[from..from + 4 * (n - 1)] + [p.b, p.g, p.r, p.a];
    }
  }

  /** After a visible run that begins with a whole frame and whose frames tell their changes, each row of the
      texture holds the bytes of the latest frame's row, its padding left out. */
  lemma TextureBytesAreLatest(t: Texture, pushes: seq<Push>, w: nat, h: nat, row: nat)
    requires SameSize(pushes, w, h) && HasSize(t, w, h) && BeginsWhole(pushes, w, h) && DirtyTellsChanges(pushes, w, h)
    requires (forall i :: 0 <= i < |pushes| ==> pushes[i].visible) && row < h && w > 0
    ensures var f, r := pushes[|pushes| - 1].frame, AfterPushes(t, pushes, w, h);
      && (forall px :: 0 <= px < w ==> (row, px) in r)
      && row * f.stride <= row * f.stride + 4 * w <= |f.bgra|
      && RowBytes(r, row, w) == f.bgra[row * f.stride..row * f.stride + 4 * w]
  {
    var f, r := pushes[|pushes| - 1].frame, AfterPushes(t, pushes, w, h);
    forall px: nat | px < w
      ensures (row, px) in r && r[(row, px)] == PixelAt(f, px, row)
    {
      TextureShowsLatest(t, pushes, w, h, px, row);
    }
    ShownRowIsBytes(r, f, row, w);
  }
}
