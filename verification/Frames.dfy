/** Compositor frames: what a received frame may carry, the arithmetic of its
    geometry, and the row copy into a pool buffer. */
module Frames {
  import opened Wrappers
  import opened ByteStrings

  const MAX_FRAME_BYTES: nat := 256 * 1024 * 1024
  const DRM_FORMAT_MOD_LINEAR: nat := 0
  const U32: nat := 0x1_0000_0000
  const I32_MAX: nat := 0x7FFF_FFFF
  const USIZE: nat := 0x1_0000_0000_0000_0000

  type u32 = n: nat | n < 0x1_0000_0000

  // ---------- formats ----------

  datatype VideoFormat = BGRx | BGRA | RGBx | RGBA | XBGR | ABGR | XRGB | ARGB

  datatype PixelFormat = Bgra8 | Rgba8 | DmabufPixels(drmFormat: u32, modifier: nat)

  /** The format the live stream announced, with its PipeWire equivalent. */
  datatype Announced = Shm(format: VideoFormat) | Dmabuf(drmFormat: u32, modifier: nat, format: VideoFormat)

  function Fourcc(a: char, b: char, c: char, d: char): u32
    requires a < '\U{80}' && b < '\U{80}' && c < '\U{80}' && d < '\U{80}'
  {
    (a as int + b as int * 0x100 + c as int * 0x1_0000 + d as int * 0x100_0000) as u32
  }

  function SpaFormatForDrm(drm: u32): Option<VideoFormat>
  {
    if drm == Fourcc('X', 'R', '2', '4') then Some(BGRx)
    else if drm == Fourcc('A', 'R', '2', '4') then Some(BGRA)
    else if drm == Fourcc('X', 'B', '2', '4') then Some(RGBx)
    else if drm == Fourcc('A', 'B', '2', '4') then Some(RGBA)
    else if drm == Fourcc('R', 'X', '2', '4') then Some(XBGR)
    else if drm == Fourcc('R', 'A', '2', '4') then Some(ABGR)
    else if drm == Fourcc('B', 'X', '2', '4') then Some(XRGB)
    else if drm == Fourcc('B', 'A', '2', '4') then Some(ARGB)
    else None
  }

  function AnnouncedFormat(format: PixelFormat): Option<Announced>
  {
    match format
    case Bgra8 => Some(Shm(BGRx))
    case Rgba8 => Some(Shm(RGBx))
    case DmabufPixels(drm, modifier) =>
      match SpaFormatForDrm(drm) case None => None case Some(spa) => Some(Dmabuf(drm, modifier, spa))
  }

  datatype Channel = Red | Green | Blue | Alpha | Padding

  /** PipeWire's names read in the order of the bytes in memory. */
  function MemoryOrder(format: VideoFormat): seq<Channel>
  {
    match format
    case BGRx => [Blue, Green, Red, Padding]
    case BGRA => [Blue, Green, Red, Alpha]
    case RGBx => [Red, Green, Blue, Padding]
    case RGBA => [Red, Green, Blue, Alpha]
    case XBGR => [Padding, Blue, Green, Red]
    case ABGR => [Alpha, Blue, Green, Red]
    case XRGB => [Padding, Red, Green, Blue]
    case ARGB => [Alpha, Red, Green, Blue]
  }

  /** The letters of a DRM code for four channels of eight bits: the fourth
      channel stands first or last, and the first of the other three is named. */
  predicate IsDrmName(a: char, b: char)
  {
    (a in "XA" && b in "RB") || (a in "RB" && b in "XA")
  }

  function Fourth(c: char): Channel
  {
    if c == 'X' then Padding else Alpha
  }

  function FromFirst(c: char): seq<Channel>
  {
    if c == 'R' then [Red, Green, Blue] else [Blue, Green, Red]
  }

  /** DRM codes read from the most to the least significant byte of a
      little-endian word. */
  function WordOrder(a: char, b: char): seq<Channel>
  {
    if a in "XA" then [Fourth(a)] + FromFirst(b) else FromFirst(a) + [Fourth(b)]
  }

  predicate SameBytes(format: VideoFormat, a: char, b: char)
  {
    var memory, word := MemoryOrder(format), WordOrder(a, b);
    memory[0] == word[3] && memory[1] == word[2] && memory[2] == word[1] && memory[3] == word[0]
  }

  lemma CodeHasFormat(a: char, b: char, format: VideoFormat)
    requires IsDrmName(a, b)
    ensures SpaFormatForDrm(Fourcc(a, b, '2', '4')) == Some(format) <==> SameBytes(format, a, b)
  {
    assert ((a == 'X' || a == 'A') && (b == 'R' || b == 'B')) || ((a == 'R' || a == 'B') && (b == 'X' || b == 'A'));
  }

  lemma CodeOf(format: VideoFormat) returns (a: char, b: char)
    ensures IsDrmName(a, b) && forall drm: u32 | SpaFormatForDrm(drm) == Some(format) :: drm == Fourcc(a, b, '2', '4')
  {
    match format {
      case BGRx => a, b := 'X', 'R';
      case BGRA => a, b := 'A', 'R';
      case RGBx => a, b := 'X', 'B';
      case RGBA => a, b := 'A', 'B';
      case XBGR => a, b := 'R', 'X';
      case ABGR => a, b := 'R', 'A';
      case XRGB => a, b := 'B', 'X';
      case ARGB => a, b := 'B', 'A';
    }
  }

  /** A DRM code gets the PipeWire format with the same bytes in memory, and every
      one of four channels of eight bits gets one. */
  lemma SameMemoryOrder(drm: u32, format: VideoFormat)
    ensures SpaFormatForDrm(drm) == Some(format) <==>
            exists a, b :: IsDrmName(a, b) && drm == Fourcc(a, b, '2', '4') && SameBytes(format, a, b)
  {
    hide SpaFormatForDrm, SameBytes, Fourcc;
    forall a, b | IsDrmName(a, b) ensures SpaFormatForDrm(Fourcc(a, b, '2', '4')) == Some(format) <==> SameBytes(format, a, b) {
      CodeHasFormat(a, b, format);
    }
    if SpaFormatForDrm(drm) == Some(format) {
      var a, b := CodeOf(format);
      assert IsDrmName(a, b) && drm == Fourcc(a, b, '2', '4');
    }
  }

  /** Shared memory is announced with the bytes its wire name says, the fourth one
      unused, and a dmabuf with its own code and modifier. */
  lemma AnnouncedKeepsOrder(format: PixelFormat)
    ensures var announced := AnnouncedFormat(format);
            match format
            case Bgra8 => announced.Some? && announced.value.Shm? && MemoryOrder(announced.value.format) == [Blue, Green, Red, Padding]
            case Rgba8 => announced.Some? && announced.value.Shm? && MemoryOrder(announced.value.format) == [Red, Green, Blue, Padding]
            case DmabufPixels(drm, modifier) =>
              && (announced.None? <==> forall f: VideoFormat :: SpaFormatForDrm(drm) != Some(f))
              && (announced.Some? ==> announced.value.Dmabuf? && announced.value.drmFormat == drm && announced.value.modifier == modifier
                                      && SpaFormatForDrm(drm) == Some(announced.value.format))
  {
  }

  /** Pixels a memory map shows in order: everything but tiled dmabufs. */
  predicate CpuMappable(announced: Announced)
  {
    announced.Shm? || announced.modifier == DRM_FORMAT_MOD_LINEAR
  }

  // ---------- frames ----------

  type Descriptor = nat
  type Damage = seq<int>

  datatype Carried = Memfd(file: Descriptor) | DmabufFile(file: Descriptor) | InSlot

  datatype StreamFrame = StreamFrame(
    streamId: nat, width: u32, height: u32, stride: u32, format: PixelFormat,
    damage: Damage, slot: Option<u32>, carried: Carried)

  /** A frame as the cast stores it. */
  datatype Payload =
    | Described(file: Descriptor, stride: u32, damage: Damage)
    | Slot(slot: u32, damage: Damage)

  datatype Refusal = WrongGeometry | BadStride | NoSlotTable | SlotOutside | SlotWithDescriptor | NotTight | NotLinear | WrongFormat

  function ValidateFrame(frame: StreamFrame, width: u32, height: u32, announced: Announced, slotCount: nat): (r: Result<Payload, Refusal>)
    ensures r.Ok? ==> frame.width == width && frame.height == height
    ensures r.Ok? ==> width * 4 <= frame.stride <= I32_MAX
    ensures r.Ok? && r.value.Slot? ==> frame.slot == Some(r.value.slot) && r.value.slot < slotCount && frame.carried.InSlot?
    ensures r.Ok? && r.value.Described? ==>
              CpuMappable(announced) && frame.slot.None? && !frame.carried.InSlot? && frame.carried.file == r.value.file
    ensures r.Ok? ==> r.value.damage == frame.damage
  {
    if frame.width != width || frame.height != height then Err(WrongGeometry)
    else if frame.stride < width * 4 || frame.stride > I32_MAX then Err(BadStride)
    else match frame.slot
      case Some(slot) =>
        if slotCount == 0 then Err(NoSlotTable)
        else if slot >= slotCount then Err(SlotOutside)
        else if !frame.carried.InSlot? then Err(SlotWithDescriptor)
        else Ok(Slot(slot, frame.damage))
      case None =>
        if announced.Shm? && !frame.format.DmabufPixels? && frame.carried.Memfd? then
          if frame.stride != width * 4 then Err(NotTight) else Ok(Described(frame.carried.file, frame.stride, frame.damage))
        else if announced.Dmabuf? && frame.format == DmabufPixels(announced.drmFormat, announced.modifier) && frame.carried.DmabufFile? then
          if announced.modifier != DRM_FORMAT_MOD_LINEAR then Err(NotLinear)
          else Ok(Described(frame.carried.file, frame.stride, frame.damage))
        else Err(WrongFormat)
  }

  /** What a frame of a stream is: it has the stream's geometry, a stride between
      a row and the signed range, and its pixels in a slot of the table, in a
      tight shared-memory file of a shared-memory stream, or in a linear dmabuf
      of the announced pair. */
  predicate FrameOf(frame: StreamFrame, width: u32, height: u32, format: PixelFormat, slotCount: nat)
  {
    && frame.width == width && frame.height == height
    && width * 4 <= frame.stride <= I32_MAX
    && match frame.carried
       case InSlot => frame.slot.Some? && frame.slot.value < slotCount
       case Memfd(_) =>
         frame.slot.None? && !format.DmabufPixels? && !frame.format.DmabufPixels? && frame.stride == width * 4
       case DmabufFile(_) =>
         frame.slot.None? && format.DmabufPixels? && format.modifier == DRM_FORMAT_MOD_LINEAR && frame.format == format
  }

  /** The payload such a frame brings. */
  function PayloadOf(frame: StreamFrame): Payload
    requires frame.carried.InSlot? ==> frame.slot.Some?
  {
    match frame.carried
    case InSlot => Slot(frame.slot.value, frame.damage)
    case Memfd(file) => Described(file, frame.stride, frame.damage)
    case DmabufFile(file) => Described(file, frame.stride, frame.damage)
  }

  /** The frames of a stream are accepted, as what they bring, and no others. */
  lemma AcceptedIff(frame: StreamFrame, width: u32, height: u32, format: PixelFormat, slotCount: nat)
    requires AnnouncedFormat(format).Some?
    ensures var checked := ValidateFrame(frame, width, height, AnnouncedFormat(format).value, slotCount);
            if FrameOf(frame, width, height, format, slotCount) then checked == Ok(PayloadOf(frame)) else checked.Err?
  {
    hide SpaFormatForDrm;
  }

  // ---------- geometry ----------

  datatype GeometryError = Overflow | OutOfRange

  function CheckedMul(a: nat, b: nat): Option<nat>
  {
    if a * b < USIZE then Some(a * b) else None
  }

  function FrameLen(width: u32, height: u32): Result<nat, GeometryError>
  {
    match CheckedMul(width, height)
    case None => Err(Overflow)
    case Some(pixels) =>
      match CheckedMul(pixels, 4)
      case None => Err(Overflow)
      case Some(bytes) => if width == 0 || height == 0 || bytes > MAX_FRAME_BYTES then Err(OutOfRange) else Ok(bytes)
  }

  predicate GeometryOk(width: u32, height: u32)
  {
    FrameLen(width, height).Ok?
  }

  /** The checked length accepts exactly the nonempty frames within the cap ... */
  lemma FrameLenIff(width: u32, height: u32)
    ensures GeometryOk(width, height) <==> 0 < width && 0 < height && width * height * 4 <= MAX_FRAME_BYTES
    ensures GeometryOk(width, height) ==> FrameLen(width, height).value == width * height * 4
  {
    if 0 < width && 0 < height && width * height * 4 <= MAX_FRAME_BYTES { assert width * height < USIZE; }
  }

  /** ... and for those every product computed without a check fits its type:
      the `u32` row and frame lengths, which are then cast to `i32`. */
  lemma UncheckedProductsFit(width: u32, height: u32)
    requires GeometryOk(width, height)
    ensures width * 4 <= I32_MAX && width * height * 4 <= I32_MAX && width * height < U32
    ensures width <= I32_MAX && height <= I32_MAX
  {
    FrameLenIff(width, height);
    assert width * height >= width && width * height >= height by { ProductBounds(width, height); }
  }

  /** The length a copy tests against, computed without a check in 64 bits,
      fits for any stride a message can hold. */
  lemma NeededFits(stride: u32, width: u32, height: u32)
    requires GeometryOk(width, height)
    ensures height > 0 && Needed(stride, width * 4, height) < USIZE
  {
    FrameLenIff(width, height);
    UncheckedProductsFit(width, height);
    assert stride * (height - 1) <= U32 * I32_MAX by {
      MulMonotone(stride, U32, height - 1);
      MulMonotone(height - 1, I32_MAX, U32);
      assert U32 * (height - 1) == (height - 1) * U32 && U32 * I32_MAX == I32_MAX * U32;
    }
  }

  /** Casts that keep the low 32 bits. */
  function AsU32(n: nat): u32
  {
    n % U32
  }

  function AsI32(n: nat): int
  {
    if n % U32 <= I32_MAX then n % U32 else n % U32 - U32
  }

  lemma AsI32Iff(n: nat)
    ensures AsI32(n) == n <==> n <= I32_MAX
    ensures n < U32 ==> AsU32(n) == n
  {
  }

  lemma ProductBounds(a: nat, b: nat)
    requires a > 0 && b > 0
    ensures a * b >= a && a * b >= b
  {
    assert a * b == a * (b - 1) + a && a * b == (a - 1) * b + b;
    assert a * (b - 1) >= 0 && (a - 1) * b >= 0;
  }

  // ---------- the row copy ----------

  /** The bytes a copy reads: all rows but the last with their padding. */
  function Needed(stride: nat, rowBytes: nat, height: nat): nat
    requires height > 0
  {
    stride * (height - 1) + rowBytes
  }

  lemma RowInside(stride: nat, rowBytes: nat, height: nat, row: nat)
    requires row < height
    ensures row * stride + rowBytes <= Needed(stride, rowBytes, height)
  {
    assert row * stride <= (height - 1) * stride by { MulMonotone(row, height - 1, stride); }
    assert (height - 1) * stride == stride * (height - 1);
  }

  lemma MulMonotone(a: nat, b: nat, c: nat)
    requires a <= b
    ensures a * c <= b * c
  {
    assert b * c == a * c + (b - a) * c;
    assert (b - a) * c >= 0;
  }

  /** One row of an image. */
  function Row(pixels: Bytes, stride: nat, rowBytes: nat, row: nat): Bytes
    requires row * stride + rowBytes <= |pixels|
  {
    pixels[row * stride..row * stride + rowBytes]
  }

  lemma TightIsNeeded(rowBytes: nat, height: nat)
    requires height > 0
    ensures Needed(rowBytes, rowBytes, height) == height * rowBytes
  {
    assert rowBytes * (height - 1) + rowBytes == rowBytes * height;
  }

  /** Rows before `rows` of the destination are the rows of the source. */
  ghost predicate RowsCopied(src: Bytes, stride: nat, dest: Bytes, rowBytes: nat, rows: nat)
  {
    forall row: nat | row < rows ::
      && row * stride + rowBytes <= |src| && row * rowBytes + rowBytes <= |dest|
      && Row(dest, rowBytes, rowBytes, row) == Row(src, stride, rowBytes, row)
  }

  /** Bytes after the first rows do not reach into them. */
  lemma EarlierRowStays(before: Bytes, after: Bytes, rowBytes: nat, rows: nat, row: nat)
    requires row < rows && rows * rowBytes <= |before| == |after|
    requires forall k | 0 <= k < rows * rowBytes :: after[k] == before[k]
    ensures row * rowBytes + rowBytes <= |after| && Row(after, rowBytes, rowBytes, row) == Row(before, rowBytes, rowBytes, row)
  {
    MulMonotone(row + 1, rows, rowBytes);
    assert (row + 1) * rowBytes == row * rowBytes + rowBytes;
  }

  lemma RowWritten(src: Bytes, stride: nat, before: Bytes, after: Bytes, rowBytes: nat, rows: nat)
    requires RowsCopied(src, stride, before, rowBytes, rows)
    requires rows * stride + rowBytes <= |src| && rows * rowBytes + rowBytes <= |before| == |after|
    requires forall k | 0 <= k < rows * rowBytes :: after[k] == before[k]
    requires after[rows * rowBytes..rows * rowBytes + rowBytes] == Row(src, stride, rowBytes, rows)
    ensures RowsCopied(src, stride, after, rowBytes, rows + 1)
  {
    forall row: nat | row < rows + 1
      ensures row * stride + rowBytes <= |src| && row * rowBytes + rowBytes <= |after|
      ensures Row(after, rowBytes, rowBytes, row) == Row(src, stride, rowBytes, row)
    {
      if row < rows { EarlierRowStays(before, after, rowBytes, rows, row); }
    }
  }

  /** A tightly packed image copied whole is copied row by row. */
  lemma WholeIsRows(src: Bytes, dest: Bytes, rowBytes: nat, height: nat)
    requires height * rowBytes <= |src| && height * rowBytes <= |dest|
    requires dest[..height * rowBytes] == src[..height * rowBytes]
    ensures RowsCopied(src, rowBytes, dest, rowBytes, height)
  {
    forall row: nat | row < height
      ensures row * rowBytes + rowBytes <= height * rowBytes
      ensures Row(dest, rowBytes, rowBytes, row) == Row(src, rowBytes, rowBytes, row)
    {
      MulMonotone(row + 1, height, rowBytes);
      assert (row + 1) * rowBytes == row * rowBytes + rowBytes;
      var from := row * rowBytes;
      assert dest[from..from + rowBytes] == dest[..height * rowBytes][from..from + rowBytes];
      assert src[from..from + rowBytes] == src[..height * rowBytes][from..from + rowBytes];
    }
  }

  method CopyBytes(src: array<byte>, from: nat, dest: array<byte>, to: nat, count: nat)
    requires src != dest && from + count <= src.Length && to + count <= dest.Length
    modifies dest
    ensures dest[to..to + count] == src[from..from + count]
    ensures forall k | 0 <= k < dest.Length && !(to <= k < to + count) :: dest[k] == old(dest[k])
  {
    for i := 0 to count
      invariant forall k | to <= k < to + i :: dest[k] == src[from + k - to]
      invariant forall k | 0 <= k < dest.Length && !(to <= k < to + i) :: dest[k] == old(dest[k])
    {
      dest[to + i] := src[from + i];
    }
  }

  /** Copy `height` rows out of a source with padded or tight rows into a tight
      destination; nothing behind the last row is written. */
  method CopyRows(src: array<byte>, stride: nat, dest: array<byte>, rowBytes: nat, height: nat)
    requires src != dest && height > 0
    requires Needed(stride, rowBytes, height) <= src.Length && height * rowBytes <= dest.Length
    modifies dest
    ensures RowsCopied(src[..], stride, dest[..], rowBytes, height)
    ensures forall k | height * rowBytes <= k < dest.Length :: dest[k] == old(dest[k])
  {
    hide RowsCopied, Row, Needed;
    TightIsNeeded(rowBytes, height);
    if stride == rowBytes {
      CopyBytes(src, 0, dest, 0, height * rowBytes);
      assert dest[..][..height * rowBytes] == src[..][..height * rowBytes];
      WholeIsRows(src[..], dest[..], rowBytes, height);
      return;
    }
    NoRows(src[..], stride, dest[..], rowBytes);
    for row := 0 to height
      invariant RowsCopied(src[..], stride, dest[..], rowBytes, row)
      invariant forall k | height * rowBytes <= k < dest.Length :: dest[k] == old(dest[k])
    {
      RowInside(stride, rowBytes, height, row);
      RowInside(rowBytes, rowBytes, height, row);
      ghost var before := dest[..];
      CopyBytes(src, row * stride, dest, row * rowBytes, rowBytes);
      RowSlice(src[..], stride, rowBytes, row);
      assert dest[..][row * rowBytes..row * rowBytes + rowBytes] == src[..][row * stride..row * stride + rowBytes];
      RowWritten(src[..], stride, before, dest[..], rowBytes, row);
    }
  }

  lemma NoRows(src: Bytes, stride: nat, dest: Bytes, rowBytes: nat)
    ensures RowsCopied(src, stride, dest, rowBytes, 0)
  {
  }

  lemma RowSlice(pixels: Bytes, stride: nat, rowBytes: nat, row: nat)
    requires row * stride + rowBytes <= |pixels|
    ensures Row(pixels, stride, rowBytes, row) == pixels[row * stride..row * stride + rowBytes]
  {
  }

  /** The tests made before a frame's file is copied into a pool buffer. */
  predicate CopyAllowed(srcLen: nat, stride: u32, width: u32, height: u32, destLen: nat)
    requires height > 0
  {
    && Needed(stride, width * 4, height) <= srcLen
    && Needed(stride, width * 4, height) <= MAX_FRAME_BYTES
    && height * (width * 4) <= destLen
  }

  /** Pixel for pixel: what a copied buffer shows is what the source holds. */
  lemma CopiedPixels(src: Bytes, stride: nat, dest: Bytes, rowBytes: nat, height: nat, row: nat, i: nat)
    requires RowsCopied(src, stride, dest, rowBytes, height) && row < height && i < rowBytes
    ensures row * stride + i < |src| && row * rowBytes + i < |dest|
    ensures dest[row * rowBytes + i] == src[row * stride + i]
  {
    assert Row(dest, rowBytes, rowBytes, row)[i] == Row(src, stride, rowBytes, row)[i];
  }

  /** A pool buffer made for one geometry holds any frame of that geometry. */
  lemma OwnPoolBufferIsLargeEnough(srcLen: nat, stride: u32, width: u32, height: u32)
    requires GeometryOk(width, height)
    ensures CopyAllowed(srcLen, stride, width, height, FrameLen(width, height).value)
       <==> Needed(stride, width * 4, height) <= srcLen && Needed(stride, width * 4, height) <= MAX_FRAME_BYTES
  {
    FrameLenIff(width, height);
    assert height * (width * 4) == width * height * 4;
  }
}
