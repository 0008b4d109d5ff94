/**
 * The DirectDraw Surface (DDS) texture loader: the 4-byte magic, the
 * 124-byte DDS_HEADER and the optional 20-byte DDS_HEADER_DXT10 are
 * validated, then the mip chain of every face is copied level by level into
 * a staging buffer, flipped upside down and uploaded. An upload
 * (glTexImage2D) is recorded as the face, level, size and buffer offset it
 * was given, together with the flipped bytes.
 */
module Dds {
  import opened Types
  import opened Wrappers
  import opened Bytes

  // ------------------------------------------------------------- block arithmetic

  /** The start of block n when blocks of `size` bytes lie back to back. */
  function Blocks(n: int, size: int): (r: int)
    ensures size >= 0 ==> r >= 0
    decreases n
  {
    if n <= 0 then 0 else Blocks(n - 1, size) + size
  }

  lemma {:induction false} BlocksIsProduct(n: int, size: int)
    requires n >= 0
    ensures Blocks(n, size) == n * size
    decreases n
  {
    if n > 0 {
      BlocksIsProduct(n - 1, size);
    }
  }

  lemma {:induction false} BlocksMonotone(n: int, m: int, size: int)
    requires 0 <= n <= m && size >= 0
    ensures 0 <= Blocks(n, size) <= Blocks(m, size)
    decreases m
  {
    if m > n {
      BlocksMonotone(n, m - 1, size);
    }
  }

  /** The position of byte c of row r in rows of `stride` bytes. */
  function Cell(r: int, c: int, stride: int): int { Blocks(r, stride) + c }

  lemma CellInRows(r: int, c: int, stride: int, height: int)
    requires 0 <= r < height && 0 <= c < stride
    ensures 0 <= Cell(r, c, stride) < Blocks(height, stride)
  {
    BlocksMonotone(r + 1, height, stride);
    BlocksMonotone(0, r, stride);
  }

  lemma CellInjective(r: int, c: int, r': int, c': int, stride: int)
    requires 0 <= r && 0 <= c < stride && 0 <= r' && 0 <= c' < stride
    requires Cell(r, c, stride) == Cell(r', c', stride)
    ensures r == r' && c == c'
  {
    if r < r' {
      BlocksMonotone(r + 1, r', stride);
    } else if r' < r {
      BlocksMonotone(r' + 1, r, stride);
    }
  }

  /** Every position inside the rows is some byte of some row. */
  lemma {:induction false} CellOf(i: int, stride: int, height: int) returns (r: int, c: int)
    requires 0 <= i < Blocks(height, stride) && stride >= 0
    ensures 0 <= r < height && 0 <= c < stride && i == Cell(r, c, stride)
    decreases height
  {
    if i < Blocks(height - 1, stride) {
      r, c := CellOf(i, stride, height - 1);
    } else {
      BlocksMonotone(0, height - 1, stride);
      r, c := height - 1, i - Blocks(height - 1, stride);
    }
  }

  // ------------------------------------------------------------- in-place vertical flip

  /** The row that row r of a flipped image comes from. */
  function Mirror(r: int, height: int): int { height - 1 - r }

  /** Whether FlipUpsideDown has already swapped byte (r, c) after rows 0..y-1 and the first x bytes of row y. */
  predicate Swapped(r: int, c: int, height: int, y: int, x: int)
  {
    r < y || r > Mirror(y, height) || ((r == y || r == Mirror(y, height)) && c < x)
  }

  /** The row byte (r, c) holds after FlipUpsideDown reached byte x of row y. */
  function SourceRow(r: int, c: int, height: int, y: int, x: int): int
  {
    if Swapped(r, c, height, y, x) then Mirror(r, height) else r
  }

  /** Byte c of row r of t is byte c of row `from` of s. */
  ghost predicate CellFrom(s: seq<byte>, t: seq<byte>, stride: int, height: int, r: int, c: int, from: int)
    requires |t| == |s| && Blocks(height, stride) <= |s|
    requires 0 <= r < height && 0 <= from < height && 0 <= c < stride
  {
    CellInRows(r, c, stride, height);
    CellInRows(from, c, stride, height);
    t[Cell(r, c, stride)] == s[Cell(from, c, stride)]
  }

  /** t is s with the bytes FlipUpsideDown has reached swapped with their mirror row, the rest unchanged. */
  ghost predicate FlippedUpTo(s: seq<byte>, t: seq<byte>, stride: int, height: int, y: int, x: int)
    requires |t| == |s| && 0 <= stride && 0 <= height && Blocks(height, stride) <= |s|
  {
    (forall r, c :: 0 <= r < height && 0 <= c < stride ==>
      CellFrom(s, t, stride, height, r, c, SourceRow(r, c, height, y, x))) &&
    (forall i :: Blocks(height, stride) <= i < |s| ==> t[i] == s[i])
  }

  /** Row r of t is row height - 1 - r of s, for every row; bytes past the rows are unchanged. */
  ghost predicate RowsMirrored(s: seq<byte>, t: seq<byte>, stride: int, height: int)
  {
    |t| == |s| && 0 <= stride && 0 <= height && Blocks(height, stride) <= |s| &&
    (forall r, c :: 0 <= r < height && 0 <= c < stride ==> CellFrom(s, t, stride, height, r, c, Mirror(r, height))) &&
    (forall i :: Blocks(height, stride) <= i < |s| ==> t[i] == s[i])
  }

  /** Swapping the bytes (y, x) and (height - 1 - y, x) advances FlippedUpTo by one byte. */
  lemma SwapStep(s: seq<byte>, t: seq<byte>, stride: int, height: int, y: int, x: int)
    requires |t| == |s| && 0 <= stride && 0 <= height && Blocks(height, stride) <= |s|
    requires 0 <= y < height / 2 && 0 <= x < stride
    requires FlippedUpTo(s, t, stride, height, y, x)
    ensures 0 <= Cell(y, x, stride) < |s| && 0 <= Cell(Mirror(y, height), x, stride) < |s|
    ensures FlippedUpTo(s, t[Cell(y, x, stride) := t[Cell(Mirror(y, height), x, stride)]]
                             [Cell(Mirror(y, height), x, stride) := t[Cell(y, x, stride)]], stride, height, y, x + 1)
  {
    var top, bottom := Cell(y, x, stride), Cell(Mirror(y, height), x, stride);
    CellInRows(y, x, stride, height);
    CellInRows(Mirror(y, height), x, stride, height);
    var u := t[top := t[bottom]][bottom := t[top]];
    assert CellFrom(s, t, stride, height, y, x, SourceRow(y, x, height, y, x));
    assert CellFrom(s, t, stride, height, Mirror(y, height), x, SourceRow(Mirror(y, height), x, height, y, x));
    assert SourceRow(y, x, height, y, x) == y && SourceRow(Mirror(y, height), x, height, y, x) == Mirror(y, height);
    var x1 := x + 1;
    forall r, c | 0 <= r < height && 0 <= c < stride
      ensures CellFrom(s, u, stride, height, r, c, SourceRow(r, c, height, y, x1))
    {
      assert CellFrom(s, t, stride, height, r, c, SourceRow(r, c, height, y, x));
      CellInRows(r, c, stride, height);
      if Cell(r, c, stride) == top {
        CellInjective(r, c, y, x, stride);
      } else if Cell(r, c, stride) == bottom {
        CellInjective(r, c, Mirror(y, height), x, stride);
      } else {
        assert !(r == y && c == x);
        assert !(r == Mirror(y, height) && c == x);
      }
    }
  }

  /** After the whole of row y, the next row starts. */
  lemma RowDone(s: seq<byte>, t: seq<byte>, stride: int, height: int, y: int)
    requires |t| == |s| && 0 <= stride && 0 <= height && Blocks(height, stride) <= |s|
    requires 0 <= y < height / 2
    requires FlippedUpTo(s, t, stride, height, y, stride)
    ensures FlippedUpTo(s, t, stride, height, y + 1, 0)
  {
    var y1 := y + 1;
    forall r, c | 0 <= r < height && 0 <= c < stride
      ensures CellFrom(s, t, stride, height, r, c, SourceRow(r, c, height, y1, 0))
    {
      assert CellFrom(s, t, stride, height, r, c, SourceRow(r, c, height, y, stride));
      assert SourceRow(r, c, height, y, stride) == SourceRow(r, c, height, y + 1, 0);
    }
  }

  /** All rows up to the middle swapped: the rows are mirrored (the middle row of an odd height is its own mirror). */
  lemma FlipDone(s: seq<byte>, t: seq<byte>, stride: int, height: int)
    requires |t| == |s| && 0 <= stride && 0 <= height && Blocks(height, stride) <= |s|
    requires FlippedUpTo(s, t, stride, height, height / 2, 0)
    ensures RowsMirrored(s, t, stride, height)
  {
    forall r, c | 0 <= r < height && 0 <= c < stride
      ensures CellFrom(s, t, stride, height, r, c, Mirror(r, height))
    {
      assert CellFrom(s, t, stride, height, r, c, SourceRow(r, c, height, height / 2, 0));
      assert SourceRow(r, c, height, height / 2, 0) == Mirror(r, height);
    }
  }

  /**
   * FlipUpsideDown: a top pointer walks down from row 0 and a bottom pointer
   * up from row height - 1, swapping byte by byte; after each row the bottom
   * pointer steps back two strides.
   */
  method FlipUpsideDown(a: array<byte>, stride: int, height: int)
    requires 0 <= stride && 0 <= height && Blocks(height, stride) <= a.Length
    modifies a
    ensures RowsMirrored(old(a[..]), a[..], stride, height)
  {
    ghost var s := a[..];
    var top, bottom := 0, Blocks(height - 1, stride);
    for y := 0 to height / 2
      invariant |a[..]| == |s|
      invariant top == Cell(y, 0, stride) && bottom == Cell(height - 1 - y, 0, stride)
      invariant FlippedUpTo(s, a[..], stride, height, y, 0)
    {
      for x := 0 to stride
        invariant top == Cell(y, x, stride) && bottom == Cell(height - 1 - y, x, stride)
        invariant FlippedUpTo(s, a[..], stride, height, y, x)
      {
        SwapStep(s, a[..], stride, height, y, x);
        a[top], a[bottom] := a[bottom], a[top];
        top, bottom := top + 1, bottom + 1;
      }
      RowDone(s, a[..], stride, height, y);
      bottom := bottom - 2 * stride;
    }
    FlipDone(s, a[..], stride, height);
  }

  /** Flipping twice restores the buffer. */
  lemma FlipTwiceRestores(s: seq<byte>, t: seq<byte>, u: seq<byte>, stride: int, height: int)
    requires RowsMirrored(s, t, stride, height) && RowsMirrored(t, u, stride, height)
    ensures u == s
  {
    forall i | 0 <= i < |s| ensures u[i] == s[i] {
      if i < Blocks(height, stride) {
        var r, c := CellOf(i, stride, height);
        assert CellFrom(t, u, stride, height, r, c, Mirror(r, height));
        assert CellFrom(s, t, stride, height, Mirror(r, height), c, Mirror(Mirror(r, height), height));
      }
    }
  }

  /** The middle row of an odd height stays in place. */
  lemma FlipKeepsMiddleRow(s: seq<byte>, t: seq<byte>, stride: int, height: int, c: int)
    requires RowsMirrored(s, t, stride, height) && height % 2 == 1 && 0 <= c < stride
    ensures 0 <= Cell(height / 2, c, stride) < |s| && t[Cell(height / 2, c, stride)] == s[Cell(height / 2, c, stride)]
  {
    CellInRows(height / 2, c, stride, height);
    assert CellFrom(s, t, stride, height, height / 2, c, Mirror(height / 2, height));
  }

  /** The rows of a buffer are mirrored in any prefix that holds them. */
  lemma MirroredPrefix(s: seq<byte>, t: seq<byte>, stride: int, height: int)
    requires RowsMirrored(s, t, stride, height)
    ensures RowsMirrored(s[..Blocks(height, stride)], t[..Blocks(height, stride)], stride, height)
  {
    var n := Blocks(height, stride);
    forall r, c | 0 <= r < height && 0 <= c < stride
      ensures CellFrom(s[..n], t[..n], stride, height, r, c, Mirror(r, height))
    {
      assert CellFrom(s, t, stride, height, r, c, Mirror(r, height));
      CellInRows(r, c, stride, height);
      CellInRows(Mirror(r, height), c, stride, height);
    }
  }

  // ------------------------------------------------------------- header

  const MAGIC: seq<byte> := [0x44, 0x44, 0x53, 0x20]  // "DDS "
  /** 4 + sizeof(DDS_HEADER) */
  const HEADER_END: int := 128
  /** 4 + sizeof(DDS_HEADER) + sizeof(DDS_HEADER_DXT10) */
  const DX10_HEADER_END: int := 148
  const CAPS2_CUBEMAP: int := 0x200
  const CAPS2_VOLUME: int := 0x20_0000
  const FOURCC_DX10: int := 0x3031_5844

  // Offsets of the header fields in the file: the header follows the magic.
  const OFF_HEIGHT: int := 4 + 8
  const OFF_WIDTH: int := 4 + 12
  const OFF_MIPCOUNT: int := 4 + 24
  const OFF_FOURCC: int := 4 + 72 + 8
  const OFF_BITCOUNT: int := 4 + 72 + 12
  const OFF_CAPS2: int := 4 + 108

  function Height(buf: seq<byte>): int requires |buf| >= HEADER_END { U32At(buf, OFF_HEIGHT) }
  function Width(buf: seq<byte>): int requires |buf| >= HEADER_END { U32At(buf, OFF_WIDTH) }
  function MipCount(buf: seq<byte>): int requires |buf| >= HEADER_END { U32At(buf, OFF_MIPCOUNT) }
  function FourCC(buf: seq<byte>): int requires |buf| >= HEADER_END { U32At(buf, OFF_FOURCC) }
  function BitCount(buf: seq<byte>): int requires |buf| >= HEADER_END { U32At(buf, OFF_BITCOUNT) }
  function Caps2(buf: seq<byte>): int requires |buf| >= HEADER_END { U32At(buf, OFF_CAPS2) }

  /** `v & bit` is nonzero, for a power of two bit. */
  predicate HasBit(v: int, bit: int) requires bit > 0 { (v / bit) % 2 == 1 }

  datatype InternalFormat = RGBA8 | RGBA16F | RGB16F
  datatype BufferFormat = BGRA | RGBA | RGB | BGR | RED

  datatype Format = Format(components: int, bytesPerComponent: int, internal: InternalFormat,
                           buffer: BufferFormat, halfFloat: bool)

  /** The texel format selected by the RGB bit count; other counts are rejected. */
  function FormatOf(bitCount: int): (r: Option<Format>)
    ensures r.Some? <==> bitCount == 32 || bitCount == 64 || bitCount == 48 || bitCount == 24 || bitCount == 8
    ensures r.Some? ==> r.value.components * r.value.bytesPerComponent * 8 == bitCount
    ensures r.Some? ==> (r.value.halfFloat <==> r.value.bytesPerComponent == 2)
  {
    if bitCount == 64 then Some(Format(4, 2, RGBA16F, RGBA, true))
    else if bitCount == 48 then Some(Format(3, 2, RGB16F, RGB, true))
    else if bitCount == 24 then Some(Format(3, 1, RGBA8, BGR, false))
    else if bitCount == 8 then Some(Format(1, 1, RGBA8, RED, false))
    else if bitCount == 32 then Some(Format(4, 1, RGBA8, BGRA, false))
    else None
  }

  /** Where the pixel data starts, the texel format, the level-0 size, the mip count and the face count. */
  datatype Layout = Layout(start: int, format: Format, width: int, height: int, levels: int, faces: int)

  datatype Rejection = TooShort | BadMagic | WrongTarget | VolumeTexture | TooShortForDx10
                     | UnsupportedBitCount | NoMipLevels | BadDimensions

  datatype Checked = Reject(reason: Rejection) | Accept(layout: Layout)

  /**
   * The header checks of bLoadDdsTexture, in the source's order: a cube map
   * target must come with the cube map bit and any other target without it;
   * volume textures are refused.
   */
  function ValidateAsWritten(buf: seq<byte>, cube: bool): (r: Checked)
    ensures |buf| < HEADER_END ==> r == Reject(TooShort)
    ensures |buf| >= HEADER_END && buf[..4] != MAGIC ==> r == Reject(BadMagic)
    ensures r.Accept? <==>
      |buf| >= HEADER_END && buf[..4] == MAGIC &&
      (cube <==> HasBit(Caps2(buf), CAPS2_CUBEMAP)) && !HasBit(Caps2(buf), CAPS2_VOLUME) &&
      (FourCC(buf) == FOURCC_DX10 ==> |buf| >= DX10_HEADER_END) &&
      FormatOf(BitCount(buf)).Some? && MipCount(buf) >= 1
    ensures r.Accept? ==>
      r.layout == Layout(if FourCC(buf) == FOURCC_DX10 then DX10_HEADER_END else HEADER_END,
                         FormatOf(BitCount(buf)).value, Width(buf), Height(buf), MipCount(buf), if cube then 6 else 1)
    ensures r.Accept? ==> r.layout.start <= |buf| && r.layout.levels >= 1
  {
    if |buf| < HEADER_END then Reject(TooShort)
    else if buf[..4] != MAGIC then Reject(BadMagic)
    else if (cube != HasBit(Caps2(buf), CAPS2_CUBEMAP)) || HasBit(Caps2(buf), CAPS2_VOLUME) then
      if cube != HasBit(Caps2(buf), CAPS2_CUBEMAP) then Reject(WrongTarget) else Reject(VolumeTexture)
    else if FourCC(buf) == FOURCC_DX10 && |buf| < DX10_HEADER_END then Reject(TooShortForDx10)
    else
      var start := if FourCC(buf) == FOURCC_DX10 then DX10_HEADER_END else HEADER_END;
      match FormatOf(BitCount(buf))
      case None => Reject(UnsupportedBitCount)
      case Some(f) =>
        if MipCount(buf) < 1 then Reject(NoMipLevels)
        else Accept(Layout(start, f, Width(buf), Height(buf), MipCount(buf), if cube then 6 else 1))
  }

  // ------------------------------------------------------------- mip chain

  /** `n >>= 1; if (!n) n = 1;` */
  function Halve(n: int): int { if n / 2 == 0 then 1 else n / 2 }

  /** The width (or height) of mip level k. */
  function LevelExtent(n: int, k: int): int
    decreases k
  {
    if k <= 0 then n else Halve(LevelExtent(n, k - 1))
  }

  /** The bytes of one row of level k, a uint32 product. */
  function RowStride(l: Layout, k: int): int
  {
    (LevelExtent(l.width, k) * l.format.components * l.format.bytesPerComponent) % UINT32_MOD
  }

  /** The bytes of level k: the uint32 product width * height * components * bytes per component. */
  function LevelSize(l: Layout, k: int): int
  {
    (LevelExtent(l.width, k) * LevelExtent(l.height, k) * l.format.components * l.format.bytesPerComponent) % UINT32_MOD
  }

  /** The bytes an image of level k really has, and glTexImage2D reads: the same product without the wrap. */
  function LevelBytes(l: Layout, k: int): int
  {
    LevelExtent(l.width, k) * LevelExtent(l.height, k) * l.format.components * l.format.bytesPerComponent
  }

  /** The staging buffer, `nMaxReadSize`: the size of level 0. */
  function StagingSize(l: Layout): int { LevelSize(l, 0) }

  /** Level k's copy, flip and upload stay within the staging buffer. */
  predicate StagingHolds(l: Layout, k: int) { LevelBytes(l, k) <= StagingSize(l) }

  /** The bytes of levels 0..k-1 of one face. */
  function LevelsSize(l: Layout, k: int): (r: int)
    ensures r >= 0
    decreases k
  {
    if k <= 0 then 0 else LevelsSize(l, k - 1) + LevelSize(l, k - 1)
  }

  /** Where the data of level `level` of face `face` starts: faces and levels lie back to back from the data start. */
  function PlannedOffset(l: Layout, face: int, level: int): int
  {
    l.start + Blocks(face, LevelsSize(l, l.levels)) + LevelsSize(l, level)
  }

  /** One glTexImage2D call of the loader: target face, mip level, size, and the offset its bytes were read from. */
  datatype Upload = Upload(face: int, level: int, width: int, height: int, offset: int, size: int)

  function Planned(l: Layout, face: int, level: int): Upload
  {
    Upload(face, level, LevelExtent(l.width, level), LevelExtent(l.height, level),
           PlannedOffset(l, face, level), LevelSize(l, level))
  }

  /** The upload would read past the end of the buffer. */
  predicate Overruns(buf: seq<byte>, u: Upload) { u.offset + u.size > |buf| }

  predicate WithinBuffer(buf: seq<byte>, u: Upload) { 0 <= u.offset && 0 <= u.size && u.offset + u.size <= |buf| }

  /**
   * How the walk over the mip chain ended: every level uploaded, a level
   * with fewer bytes left in the file than it needs (the source's `return
   * false`), or a level larger than the staging buffer, where the source
   * copies, flips and uploads past the end of that buffer.
   */
  datatype WalkEnd = Complete | ShortData | StagingOverrun

  /** The walk stops before upload u: the file is too short for it, or its image does not fit the staging buffer. */
  predicate Stops(buf: seq<byte>, l: Layout, u: Upload)
  {
    Overruns(buf, u) || !StagingHolds(l, u.level)
  }

  /** The reason the walk stops before u, the file's length being checked first. */
  function StopOf(buf: seq<byte>, u: Upload): WalkEnd
  {
    if Overruns(buf, u) then ShortData else StagingOverrun
  }

  /** Upload number i is level u.level of face u.face, faces taken in turn and levels in turn within a face. */
  predicate InSlot(u: Upload, i: int, levels: int)
  {
    0 <= u.face && 0 <= u.level < levels && Blocks(u.face, levels) + u.level == i
  }

  /** The face and level of upload number i. */
  function SlotOf(i: int, levels: int): (int, int)
    requires levels > 0
    decreases i
  {
    if i < levels then (0, i) else (SlotOf(i - levels, levels).0 + 1, SlotOf(i - levels, levels).1)
  }

  lemma {:induction false} SlotOfBlocks(face: int, level: int, levels: int)
    requires 0 <= face && 0 <= level < levels
    ensures SlotOf(Blocks(face, levels) + level, levels) == (face, level)
    decreases face
  {
    if face > 0 {
      SlotOfBlocks(face - 1, level, levels);
    }
  }

  /** Upload number i is the planned one for its slot, lies within the buffer and fits the staging buffer. */
  predicate Issued(buf: seq<byte>, l: Layout, u: Upload, i: int)
  {
    InSlot(u, i, l.levels) && u == Planned(l, u.face, u.level) && WithinBuffer(buf, u) && StagingHolds(l, u.level)
  }

  /** The upload that comes after the first i. */
  function NextPlanned(l: Layout, i: int): Upload
    requires l.levels > 0
  {
    Planned(l, SlotOf(i, l.levels).0, SlotOf(i, l.levels).1)
  }

  /**
   * What the mip walk did: the uploads are the planned ones, face by face and
   * level by level with none skipped, each within both buffers; it is
   * complete exactly when none is missing, and otherwise the next planned
   * level stops it, for the reason `end` names.
   */
  ghost predicate Walked(buf: seq<byte>, l: Layout, end: WalkEnd, ups: seq<Upload>)
  {
    l.levels > 0 &&
    (forall i :: 0 <= i < |ups| ==> Issued(buf, l, ups[i], i)) &&
    (end == Complete <==> |ups| == Blocks(l.faces, l.levels)) &&
    (end != Complete ==> |ups| < Blocks(l.faces, l.levels) &&
                         Stops(buf, l, NextPlanned(l, |ups|)) && end == StopOf(buf, NextPlanned(l, |ups|)))
  }

  /** Upload number i is the planned one for its slot, lies within the buffer and carries the bytes it read, flipped upside down. */
  ghost predicate UploadHolds(buf: seq<byte>, l: Layout, u: Upload, i: int, image: seq<byte>)
  {
    Issued(buf, l, u, i) &&
    RowsMirrored(buf[u.offset..u.offset + u.size], image, RowStride(l, u.level), u.height)
  }

  /** Every upload so far holds. */
  ghost predicate Uploaded(buf: seq<byte>, l: Layout, ups: seq<Upload>, images: seq<seq<byte>>)
  {
    l.levels > 0 && |images| == |ups| &&
    forall i :: 0 <= i < |ups| ==> UploadHolds(buf, l, ups[i], i, images[i])
  }

  lemma UploadedAppend(buf: seq<byte>, l: Layout, ups: seq<Upload>, images: seq<seq<byte>>, face: int, level: int, image: seq<byte>)
    requires Uploaded(buf, l, ups, images)
    requires UploadHolds(buf, l, Planned(l, face, level), |ups|, image)
    ensures Uploaded(buf, l, ups + [Planned(l, face, level)], images + [image])
  {
  }

  /** A complete walk issues faces times levels uploads. */
  lemma UploadCount(buf: seq<byte>, l: Layout, ups: seq<Upload>)
    requires Walked(buf, l, Complete, ups) && l.faces >= 0
    ensures |ups| == l.faces * l.levels
  {
    BlocksIsProduct(l.faces, l.levels);
  }

  /** Consecutive levels, and the last level of one face and the first of the next, are back to back. */
  lemma LevelsConsecutive(l: Layout, face: int, level: int)
    requires 0 <= face && 0 <= level
    ensures PlannedOffset(l, face, level + 1) == PlannedOffset(l, face, level) + LevelSize(l, level)
    ensures PlannedOffset(l, face + 1, 0) == PlannedOffset(l, face, l.levels)
  {
  }

  lemma {:induction false} LevelExtentBounds(n: int, k: int)
    requires n >= 1
    ensures 1 <= LevelExtent(n, k) <= n
    decreases k
  {
    if k > 0 {
      LevelExtentBounds(n, k - 1);
    }
  }

  /** A side of 0 (allowed by the header) stays 0 at level 0 and is 1 from level 1 on. */
  lemma LevelExtentNonNegative(n: int, k: int)
    requires n >= 0
    ensures LevelExtent(n, k) >= 0
    ensures n == 0 && k >= 1 ==> LevelExtent(n, k) == 1
  {
    if n >= 1 {
      LevelExtentBounds(n, k);
    } else if k >= 1 {
      ZeroExtentIsOne(k);
    }
  }

  lemma {:induction false} ZeroExtentIsOne(k: int)
    requires k >= 1
    ensures LevelExtent(0, k) == 1
    decreases k
  {
    if k > 1 {
      ZeroExtentIsOne(k - 1);
    }
  }

  lemma MulBoth(a: int, a': int, b: int, b': int)
    requires 0 <= a <= a' && 0 <= b <= b'
    ensures 0 <= a * b <= a' * b'
  {
    MulMonotone(a, a', b);
    MulMonotone(b, b', a');
    MulMonotone(0, a, b);
  }

  /** Level 0 has positive sides and its unwrapped size fits in a uint32. */
  predicate SaneDimensions(l: Layout)
  {
    l.width >= 1 && l.height >= 1 && l.format.components >= 1 && l.format.bytesPerComponent >= 1 &&
    l.width * l.height * l.format.components * l.format.bytesPerComponent < UINT32_MOD
  }

  /** A smaller level of the same texel format has no more bytes. */
  lemma LevelProduct(w: int, h: int, c: int, b: int, width: int, height: int)
    requires 0 <= w <= width && 0 <= h <= height && c >= 0 && b >= 0
    ensures 0 <= w * h * c * b <= width * height * c * b
  {
    var p, q := w * h, width * height;
    MulBoth(w, width, h, height);
    var pc, qc := p * c, q * c;
    MulBoth(p, q, c, c);
    MulBoth(pc, qc, b, b);
  }

  /** With sane dimensions every level fits the staging buffer: the guard of the walk never fires. */
  lemma LevelFitsStaging(l: Layout, k: int)
    requires SaneDimensions(l)
    ensures StagingHolds(l, k)
  {
    var w, h := LevelExtent(l.width, k), LevelExtent(l.height, k);
    var c, b := l.format.components, l.format.bytesPerComponent;
    LevelExtentBounds(l.width, k);
    LevelExtentBounds(l.height, k);
    LevelProduct(w, h, c, b, l.width, l.height);
    LevelProduct(l.width, l.height, c, b, l.width, l.height);
    ModSmall(l.width * l.height * c * b, UINT32_MOD);
  }

  lemma ModSmall(x: int, m: int)
    requires 0 <= x < m
    ensures x % m == x
  {
  }

  /** A texel format and sides as the header gives them: at least one component of at least one byte, sides in uint32. */
  predicate HeaderLayout(l: Layout)
  {
    l.format.components >= 1 && l.format.bytesPerComponent >= 1 && 0 <= l.width && 0 <= l.height
  }

  /** A level of at least one row has no fewer bytes than one row, and its rows make up its bytes. */
  lemma StrideBelowBytes(w: int, h: int, c: int, b: int)
    requires w >= 0 && h >= 1 && c >= 1 && b >= 1
    ensures 0 <= w * c * b <= w * h * c * b
    ensures h * (w * c * b) == w * h * c * b
  {
    var wc := w * c;
    MulBoth(w, w, 1, c);
    MulBoth(wc, wc, 1, b);
    var stride := wc * b;
    MulBoth(stride, stride, 1, h);
  }

  /**
   * When level k fits the staging buffer nothing about it wraps: its uint32
   * size is its real size, and that is its rows of RowStride bytes.
   */
  lemma StagingHoldsExact(l: Layout, k: int)
    requires HeaderLayout(l) && StagingHolds(l, k)
    ensures LevelSize(l, k) == LevelBytes(l, k) <= StagingSize(l)
    ensures LevelSize(l, k) == Blocks(LevelExtent(l.height, k), RowStride(l, k))
  {
    var w, h := LevelExtent(l.width, k), LevelExtent(l.height, k);
    var c, b := l.format.components, l.format.bytesPerComponent;
    LevelExtentNonNegative(l.width, k);
    LevelExtentNonNegative(l.height, k);
    LevelExtentNonNegative(l.width, 0);
    LevelExtentNonNegative(l.height, 0);
    LevelProduct(l.width, l.height, c, b, l.width, l.height);
    assert 0 <= StagingSize(l) < UINT32_MOD;
    LevelProduct(w, h, c, b, w, h);
    ModSmall(w * h * c * b, UINT32_MOD);
    if h == 0 {
      assert w * h == 0;
    } else {
      StrideBelowBytes(w, h, c, b);
      ModSmall(w * c * b, UINT32_MOD);
      BlocksIsProduct(h, w * c * b);
    }
  }

  /** What the loader needs of a layout to walk it: the header's texel format and sides, and the data start within the buffer. */
  predicate LayoutFits(buf: seq<byte>, l: Layout)
  {
    0 <= l.start <= |buf| && l.levels >= 1 && l.faces >= 1 && HeaderLayout(l)
  }

  /** Every layout the header checks accept can be walked. */
  lemma AcceptedLayoutFits(buf: seq<byte>, cube: bool)
    requires ValidateAsWritten(buf, cube).Accept?
    ensures LayoutFits(buf, ValidateAsWritten(buf, cube).layout)
  {
  }

  /** memcpy of buf[offset..offset + size] to the start of the staging buffer. */
  method CopyLevel(buf: seq<byte>, offset: int, size: int, staging: array<byte>)
    requires 0 <= offset && 0 <= size && offset + size <= |buf| && size <= staging.Length
    modifies staging
    ensures staging[..size] == buf[offset..offset + size]
    ensures staging[size..] == old(staging[size..])
  {
    forall i | 0 <= i < size {
      staging[i] := buf[offset + i];
    }
  }

  /** Copies the rows of one level to the staging buffer and flips them there: the bytes its upload carries. */
  method StageLevel(buf: seq<byte>, offset: int, stride: int, height: int, staging: array<byte>) returns (image: seq<byte>)
    requires 0 <= offset && 0 <= stride && 0 <= height
    requires offset + Blocks(height, stride) <= |buf| && Blocks(height, stride) <= staging.Length
    modifies staging
    ensures RowsMirrored(buf[offset..offset + Blocks(height, stride)], image, stride, height)
  {
    var size := Blocks(height, stride);
    CopyLevel(buf, offset, size, staging);
    ghost var copied := staging[..];
    FlipUpsideDown(staging, stride, height);
    MirroredPrefix(copied, staging[..], stride, height);
    assert copied[..size] == buf[offset..offset + size];
    image := staging[..size];
  }

  /**
   * The mip loop of one face: each level is copied to the staging buffer,
   * flipped and uploaded, then width and height halve with a floor of one.
   * A level that would read past the file ends the walk with ShortData, as
   * in the source; a level larger than the staging buffer ends it with
   * StagingOverrun, where the source goes on past the buffer's end.
   */
  method UploadFace(buf: seq<byte>, l: Layout, side: int, staging: array<byte>,
                    offset0: int, ups0: seq<Upload>, images0: seq<seq<byte>>)
    returns (end: WalkEnd, offset: int, ups: seq<Upload>, images: seq<seq<byte>>)
    requires LayoutFits(buf, l) && staging.Length == StagingSize(l) && 0 <= side
    requires offset0 == PlannedOffset(l, side, 0) && |ups0| == Blocks(side, l.levels) && Uploaded(buf, l, ups0, images0)
    modifies staging
    ensures Uploaded(buf, l, ups, images)
    ensures end == Complete ==> offset == PlannedOffset(l, side + 1, 0) && |ups| == Blocks(side + 1, l.levels)
    ensures end != Complete ==> |ups| < Blocks(side + 1, l.levels) &&
                                Stops(buf, l, NextPlanned(l, |ups|)) && end == StopOf(buf, NextPlanned(l, |ups|))
  {
    var c, b := l.format.components, l.format.bytesPerComponent;
    offset, ups, images := offset0, ups0, images0;
    var w, h := l.width, l.height;
    for level := 0 to l.levels
      invariant w == LevelExtent(l.width, level) && h == LevelExtent(l.height, level)
      invariant offset == PlannedOffset(l, side, level) && |ups| == Blocks(side, l.levels) + level
      invariant Uploaded(buf, l, ups, images)
    {
      var size := (w * h * c * b) % UINT32_MOD;
      assert size == LevelSize(l, level);
      if offset + size > |buf| {
        SlotOfBlocks(side, level, l.levels);
        return ShortData, offset, ups, images;
      }
      if w * h * c * b > staging.Length {
        SlotOfBlocks(side, level, l.levels);
        return StagingOverrun, offset, ups, images;
      }
      StagingHoldsExact(l, level);
      LevelExtentNonNegative(l.height, level);
      var stride := RowStride(l, level);
      var image := StageLevel(buf, offset, stride, h, staging);
      assert Upload(side, level, w, h, offset, size) == Planned(l, side, level);
      UploadedAppend(buf, l, ups, images, side, level, image);
      ups, images := ups + [Upload(side, level, w, h, offset, size)], images + [image];
      offset := offset + size;
      w := w / 2;
      if w == 0 {
        w := 1;
      }
      h := h / 2;
      if h == 0 {
        h := 1;
      }
    }
    end := Complete;
  }

  lemma UploadedIssued(buf: seq<byte>, l: Layout, ups: seq<Upload>, images: seq<seq<byte>>)
    requires Uploaded(buf, l, ups, images)
    ensures forall i :: 0 <= i < |ups| ==> Issued(buf, l, ups[i], i)
  {
    forall i | 0 <= i < |ups| ensures Issued(buf, l, ups[i], i) {
      assert UploadHolds(buf, l, ups[i], i, images[i]);
    }
  }

  /**
   * The face and mip loops: the faces in turn, each with its whole mip chain
   * from the offset the previous face ended at. The uploads already issued
   * when a level stops the walk stay issued.
   */
  method UploadMips(buf: seq<byte>, l: Layout) returns (end: WalkEnd, ups: seq<Upload>, images: seq<seq<byte>>)
    requires LayoutFits(buf, l)
    ensures Walked(buf, l, end, ups) && Uploaded(buf, l, ups, images)
  {
    var c, b := l.format.components, l.format.bytesPerComponent;
    var staging := new byte[(l.width * l.height * c * b) % UINT32_MOD];
    var offset := l.start;
    ups, images := [], [];
    for side := 0 to l.faces
      invariant offset == PlannedOffset(l, side, 0) && |ups| == Blocks(side, l.levels)
      invariant Uploaded(buf, l, ups, images)
    {
      var faceEnd;
      faceEnd, offset, ups, images := UploadFace(buf, l, side, staging, offset, ups, images);
      if faceEnd != Complete {
        BlocksMonotone(side + 1, l.faces, l.levels);
        UploadedIssued(buf, l, ups, images);
        return faceEnd, ups, images;
      }
    }
    UploadedIssued(buf, l, ups, images);
    end := Complete;
  }

  /**
   * bLoadDdsTexture over a buffer already in memory, with the staging
   * buffer's bound enforced: a rejected header issues no upload; an
   * accepted one walks the mip chain of its layout and succeeds exactly when
   * the walk is complete. A walk that ends in StagingOverrun is where the
   * source writes past the staging buffer; here it fails instead.
   */
  method LoadDdsTexture(buf: seq<byte>, cube: bool) returns (ok: bool, end: WalkEnd, ups: seq<Upload>, images: seq<seq<byte>>)
    ensures ok <==> ValidateAsWritten(buf, cube).Accept? && end == Complete
    ensures ValidateAsWritten(buf, cube).Reject? ==> ups == [] && images == []
    ensures ValidateAsWritten(buf, cube).Accept? ==>
      Walked(buf, ValidateAsWritten(buf, cube).layout, end, ups) && Uploaded(buf, ValidateAsWritten(buf, cube).layout, ups, images)
  {
    var checked := ValidateAsWritten(buf, cube);
    if checked.Reject? {
      return false, ShortData, [], [];
    }
    AcceptedLayoutFits(buf, cube);
    end, ups, images := UploadMips(buf, checked.layout);
    ok := end == Complete;
  }

  /** Every upload of a walk reads a level that fits the staging buffer, with its real, unwrapped size. */
  lemma WalkStaysInStaging(buf: seq<byte>, l: Layout, end: WalkEnd, ups: seq<Upload>, i: int)
    requires HeaderLayout(l) && Walked(buf, l, end, ups) && 0 <= i < |ups|
    ensures ups[i].size == LevelBytes(l, ups[i].level) <= StagingSize(l)
  {
    StagingHoldsExact(l, ups[i].level);
  }

  /** For sane dimensions the staging guard never stops the walk: only a short file does. */
  lemma SaneWalkNeverOverruns(buf: seq<byte>, l: Layout, end: WalkEnd, ups: seq<Upload>)
    requires SaneDimensions(l) && Walked(buf, l, end, ups)
    ensures end != StagingOverrun
  {
    if end != Complete {
      LevelFitsStaging(l, NextPlanned(l, |ups|).level);
    }
  }

  // ------------------------------------------------------------- the staging buffer as written

  /** Upload number 1 of a walk with two levels per face is level 1 of face 0. */
  lemma SecondSlot(u: Upload)
    requires InSlot(u, 1, 2)
    ensures u.face == 0 && u.level == 1
  {
    if u.face >= 1 {
      BlocksMonotone(1, u.face, 2);
    }
  }

  /** A 4 + 124 + n byte file: the magic, a 0 x 0 texture of 32-bit texels with `mips` mip levels, nothing else set. */
  function ZeroSizedDds(mips: byte, n: nat): seq<byte>
  {
    seq(HEADER_END + n, i => if i == 0 || i == 1 then 0x44 else if i == 2 then 0x53 else if i == 3 then 0x20
                             else if i == OFF_MIPCOUNT then mips else if i == OFF_BITCOUNT then 32 else 0)
  }

  /** The layout the header checks give the zero-sized texture. */
  function ZeroSizedLayout(mips: int): Layout
  {
    Layout(HEADER_END, Format(4, 1, RGBA8, BGRA, false), 0, 0, mips, 1)
  }

  lemma ZeroSizedAccepted(mips: byte, n: nat)
    requires mips >= 1
    ensures ValidateAsWritten(ZeroSizedDds(mips, n), false) == Accept(ZeroSizedLayout(mips as int))
  {
    var buf := ZeroSizedDds(mips, n);
    assert buf[..4] == MAGIC;
    assert Width(buf) == 0 && Height(buf) == 0 && Caps2(buf) == 0 && FourCC(buf) == 0;
    assert MipCount(buf) == mips as int && BitCount(buf) == 32;
  }

  /** In the zero-sized layout the staging buffer is empty, level 0 has no byte and level 1 has four. */
  lemma ZeroSizedLevels(mips: int)
    ensures StagingSize(ZeroSizedLayout(mips)) == 0 && LevelBytes(ZeroSizedLayout(mips), 0) == 0
    ensures LevelSize(ZeroSizedLayout(mips), 1) == 4 && LevelBytes(ZeroSizedLayout(mips), 1) == 4
    ensures StagingHolds(ZeroSizedLayout(mips), 0) && !StagingHolds(ZeroSizedLayout(mips), 1)
  {
    var l := ZeroSizedLayout(mips);
    assert LevelExtent(l.width, 1) == 1 && LevelExtent(l.height, 1) == 1;
  }

  /**
   * With one mip level the zero-sized texture loads as in the source: the
   * one upload, of no bytes, fits both the 128-byte file and the empty
   * staging buffer, and the walk completes.
   */
  lemma ZeroSizedSingleLevelLoads(end: WalkEnd, ups: seq<Upload>)
    requires Walked(ZeroSizedDds(1, 0), ZeroSizedLayout(1), end, ups)
    ensures end == Complete && |ups| == 1 && ups[0].size == 0
  {
    var l := ZeroSizedLayout(1);
    ZeroSizedLevels(1);
    assert Blocks(1, 1) == 1;
    assert SlotOf(0, 1) == (0, 0);
  }

  /** With two mip levels every walk over a 132-byte file uploads level 0 and is stopped by level 1's four bytes. */
  lemma ZeroSizedWalk(end: WalkEnd, ups: seq<Upload>)
    requires Walked(ZeroSizedDds(2, 4), ZeroSizedLayout(2), end, ups)
    ensures end == StagingOverrun && |ups| == 1
    ensures NextPlanned(ZeroSizedLayout(2), 1) == Planned(ZeroSizedLayout(2), 0, 1)
    ensures !Overruns(ZeroSizedDds(2, 4), Planned(ZeroSizedLayout(2), 0, 1))
  {
    var buf, l := ZeroSizedDds(2, 4), ZeroSizedLayout(2);
    ZeroSizedLevels(2);
    assert Blocks(1, 2) == 2;
    assert SlotOf(0, 2) == (0, 0) && SlotOf(1, 2) == (0, 1);
    assert !Stops(buf, l, NextPlanned(l, 0));
    if |ups| == 2 {
      SecondSlot(ups[1]);
      assert false;
    }
  }

  /**
   * The header checks as written accept the zero-sized texture with two
   * levels; its staging buffer holds no byte, and the second level (1 x 1,
   * four bytes) fits in the file, so the source copies four bytes into the
   * empty staging buffer, where the walk here stops with StagingOverrun.
   */
  lemma StagingOverrunAsWritten()
    ensures ValidateAsWritten(ZeroSizedDds(2, 4), false).Accept?
    ensures var l := ValidateAsWritten(ZeroSizedDds(2, 4), false).layout;
      StagingSize(l) == 0 && LevelSize(l, 1) == 4 && !Overruns(ZeroSizedDds(2, 4), Planned(l, 0, 1)) &&
      forall end: WalkEnd, ups: seq<Upload> :: Walked(ZeroSizedDds(2, 4), l, end, ups) ==> end == StagingOverrun
  {
    ZeroSizedAccepted(2, 4);
    ZeroSizedLevels(2);
    var l := ZeroSizedLayout(2);
    assert SlotOf(1, 2) == (0, 1);
    forall end: WalkEnd, ups: seq<Upload> | Walked(ZeroSizedDds(2, 4), l, end, ups)
      ensures end == StagingOverrun
    {
      ZeroSizedWalk(end, ups);
    }
  }

  /**
   * The level-0 size is a uint32 product: for a 65536 x 65536 texture of
   * 8-bit texels it wraps to 0, so the staging buffer is empty while the
   * level has 2^32 bytes and level 1 2^30; neither fits.
   */
  lemma MipSizeWrapsAsWritten(f: Format)
    requires f.components == 1 && f.bytesPerComponent == 1
    ensures var l := Layout(HEADER_END, f, 0x1_0000, 0x1_0000, 2, 1);
      StagingSize(l) == 0 && LevelSize(l, 0) == 0 && LevelBytes(l, 0) == UINT32_MOD &&
      LevelSize(l, 1) == 0x4000_0000 && !StagingHolds(l, 0) && !StagingHolds(l, 1) && !SaneDimensions(l)
  {
  }
}
