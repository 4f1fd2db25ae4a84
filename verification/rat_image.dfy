/** Houdini RAT texture reading for Glf (plugin/glfRatImage/ratImage.cpp):
    crop validation, GL format mapping, pixel sizes and the row copy that
    flips the image. */
module RatImage {
  import opened Wrappers

  /** The GL pixel-data types the reader produces. */
  datatype GlType = UnsignedByte | HalfFloat | Float

  /** The GL formats a storage spec may ask for; `OtherFormat` is anything
      else, and `InvalidFormat` is the value 1 `GetFormat` returns for an
      unsupported channel count. */
  datatype GlFormat =
    | DepthComponent | ColorIndex | Alpha | Luminance | Red
    | LuminanceAlpha | Rg | Rgb | Rgba | InvalidFormat | OtherFormat

  /** What `_OpenForReading` recorded about the file. */
  datatype Image = Image(width: int, height: int, nchannels: int, outputType: GlType)

  /** `_IsValidCrop`: every margin is non-negative and something is left
      in both directions. */
  function IsValidCrop(img: Image, cropTop: int, cropBottom: int, cropLeft: int, cropRight: int): (ok: bool)
    ensures ok ==> 0 <= cropLeft + cropRight < img.width && 0 <= cropTop + cropBottom < img.height
    ensures cropTop == cropBottom == cropLeft == cropRight == 0 ==> (ok <==> img.width > 0 && img.height > 0)
  {
    var w := img.width - (cropLeft + cropRight);
    var h := img.height - (cropTop + cropBottom);
    cropTop >= 0 && cropBottom >= 0 && cropLeft >= 0 && cropRight >= 0 && w > 0 && h > 0
  }

  /** A valid crop fits inside the image, and no crop is valid on an empty
      image. */
  lemma ValidCropFits(img: Image, cropTop: int, cropBottom: int, cropLeft: int, cropRight: int)
    ensures IsValidCrop(img, cropTop, cropBottom, cropLeft, cropRight) ==>
      cropLeft + cropRight < img.width && cropTop + cropBottom < img.height
    ensures img.width > 0 && img.height > 0 <==> IsValidCrop(img, 0, 0, 0, 0)
  {
  }

  /** `_GetNumElements`: channels per pixel of a storage format; unknown
      formats count as one. */
  function NumElements(format: GlFormat): (n: nat)
    ensures 1 <= n <= 4
    ensures n == 4 <==> format == Rgba
    ensures n == 3 <==> format == Rgb
    ensures n == 2 <==> format == LuminanceAlpha || format == Rg
  {
    match format
    case LuminanceAlpha | Rg => 2
    case Rgb => 3
    case Rgba => 4
    case _ => 1
  }

  /** `GetFormat`: the format for the file's channel count. */
  function GetFormat(img: Image): (f: GlFormat)
    ensures 1 <= img.nchannels <= 4 ==> NumElements(f) == img.nchannels
    ensures !(1 <= img.nchannels <= 4) <==> f == InvalidFormat
  {
    if img.nchannels == 1 then Red
    else if img.nchannels == 2 then Rg
    else if img.nchannels == 3 then Rgb
    else if img.nchannels == 4 then Rgba
    else InvalidFormat
  }

  /** `_GetBytesPerChannelFromType` as written: half floats fall into the
      default case and count as four bytes. */
  function BytesPerChannelAsWritten(t: GlType): (n: nat)
    ensures n == (if t == UnsignedByte then 1 else 4)
  {
    match t
    case UnsignedByte => 1
    case Float => 4
    case HalfFloat => 4
  }

  /** `GetBytesPerPixel` as written (ratImage.cpp:156-158): the written
      channel size times the channel count, so a half-float pixel counts
      twice the bytes the reader copies for it. */
  function BytesPerPixelAsWritten(img: Image): (n: int)
    ensures img.outputType != HalfFloat ==> n == BytesPerPixel(img)
    ensures img.outputType == HalfFloat ==> n == 2 * BytesPerPixel(img)
  {
    BytesPerChannelAsWritten(img.outputType) * img.nchannels
  }

  /** The channel size the reader itself uses when copying rows. */
  function BytesPerChannel(t: GlType): (n: nat)
    ensures n == 1 <==> t == UnsignedByte
    ensures n == 2 <==> t == HalfFloat
    ensures n == 4 <==> t == Float
  {
    match t
    case UnsignedByte => 1
    case HalfFloat => 2
    case Float => 4
  }

  /** `GetBytesPerPixel` as evidently intended: one byte per channel for
      unsigned bytes, two for half floats, four for floats, so only an
      image without channels has empty pixels. */
  function BytesPerPixel(img: Image): (n: int)
    ensures img.nchannels >= 0 ==> n >= 0
    ensures n == 0 <==> img.nchannels == 0
    ensures img.outputType == UnsignedByte ==> n == img.nchannels
    ensures img.outputType == HalfFloat ==> n == 2 * img.nchannels
    ensures img.outputType == Float ==> n == 4 * img.nchannels
  {
    BytesPerChannel(img.outputType) * img.nchannels
  }

  /** For a half-float RGBA file the written size is twice the size of the
      pixels `ReadCropped` writes. */
  lemma HalfFloatPixelSizeAsWritten()
    ensures var img := Image(8, 8, 4, HalfFloat);
      BytesPerPixelAsWritten(img) == 16 && BytesPerPixel(img) == 8
  {
  }

  /** The written and intended sizes agree on byte and float images. */
  lemma PixelSizesAgreeOffHalf(img: Image)
    requires img.outputType != HalfFloat
    ensures BytesPerPixelAsWritten(img) == BytesPerPixel(img)
  {
  }

  /** The raster data types of a RAT plane. */
  datatype PixelFormat = PxlInt8 | PxlFloat16 | PxlFloat32 | PxlOther

  function RasterType(f: PixelFormat): (r: Option<GlType>)
    ensures r.None? <==> f == PxlOther
  {
    match f
    case PxlInt8 => Some(UnsignedByte)
    case PxlFloat16 => Some(HalfFloat)
    case PxlFloat32 => Some(Float)
    case PxlOther => None
  }

  /** The first raster of the file: its channel count by packing (None for
      an unsupported packing), data type, resolution and rows of bytes. */
  datatype Raster = Raster(channels: Option<nat>, format: PixelFormat, xres: int, yres: int, rows: seq<seq<bv8>>)

  /** The `StorageSpec` the caller fills. */
  datatype Storage = Storage(width: int, height: int, format: GlFormat, flipped: bool)

  /** What the file reports when opened: its plane count, resolution,
      component count and the data type of its plane (the plane's
      unsigned-char, half and float types are the three `PixelFormat`
      kinds). */
  datatype FileStat = FileStat(numPlanes: int, xres: int, yres: int, componentCount: int, dataType: PixelFormat)

  /** `_OpenForReading`: only the first subimage at mip 0 opens; `stat` is
      None when the file cannot be opened. */
  function OpenForReading(subimage: int, mip: int, stat: Option<FileStat>): (r: Option<Image>)
    ensures r.Some? <==>
      subimage == 0 && mip == 0 && stat.Some? && stat.value.numPlanes >= 1 &&
      stat.value.xres > 0 && stat.value.yres > 0 && stat.value.componentCount != 0 &&
      stat.value.dataType != PxlOther
    ensures r.Some? ==>
      r.value.width == stat.value.xres && r.value.height == stat.value.yres &&
      r.value.nchannels == stat.value.componentCount &&
      RasterType(stat.value.dataType) == Some(r.value.outputType)
  {
    if mip != 0 || subimage != 0 || stat.None? then None
    else
      var st := stat.value;
      if st.numPlanes < 1 || st.xres <= 0 || st.yres <= 0 || st.componentCount == 0 then None
      else match RasterType(st.dataType)
        case None => None
        case Some(t) => Some(Image(st.xres, st.yres, st.componentCount, t))
  }

  /** An opened image always accepts the uncropped read. */
  lemma OpenedImageHasFullCrop(subimage: int, mip: int, stat: Option<FileStat>)
    requires OpenForReading(subimage, mip, stat).Some?
    ensures IsValidCrop(OpenForReading(subimage, mip, stat).value, 0, 0, 0, 0)
  {
    ValidCropFits(OpenForReading(subimage, mip, stat).value, 0, 0, 0, 0);
  }

  /** The destination rows: source row y lands on row `height - 1 - y`
      unless the storage is already flipped. */
  function CopyRows(src: seq<seq<bv8>>, stride: nat, flipped: bool): (dst: seq<seq<bv8>>)
    requires forall y :: 0 <= y < |src| ==> |src[y]| >= stride
    ensures |dst| == |src|
    ensures forall y :: 0 <= y < |src| ==> |dst[y]| == stride
    ensures forall y :: 0 <= y < |src| ==>
      dst[if flipped then y else |src| - 1 - y] == src[y][..stride]
  {
    seq(|src|, i requires 0 <= i < |src| => src[if flipped then i else |src| - 1 - i][..stride])
  }

  /** Copying an unflipped image twice gives it back. */
  lemma FlipTwice(src: seq<seq<bv8>>, stride: nat)
    requires forall y :: 0 <= y < |src| ==> |src[y]| == stride
    ensures CopyRows(CopyRows(src, stride, false), stride, false) == src
  {
    var once := CopyRows(src, stride, false);
    var twice := CopyRows(once, stride, false);
    forall y | 0 <= y < |src| ensures twice[y] == src[y] {
      assert src[y][..stride] == src[y];
      assert once[|src| - 1 - y][..stride] == once[|src| - 1 - y];
    }
  }

  /** `ReadCropped`. Cropping is not implemented, so any margin refuses;
      `raster` is None when the file cannot be opened or holds no image.
      The channel count, type and resolution must match what the caller
      expects. */
  function ReadCropped(img: Image, cropTop: int, cropBottom: int, cropLeft: int, cropRight: int,
                       storage: Storage, raster: Option<Raster>): (r: Option<seq<seq<bv8>>>)
    ensures cropTop != 0 || cropBottom != 0 || cropLeft != 0 || cropRight != 0 ==> r.None?
    ensures raster.None? ==> r.None?
    ensures r.Some? ==> raster.value.channels == Some(NumElements(storage.format))
    ensures r.Some? ==> RasterType(raster.value.format) == Some(img.outputType)
    ensures r.Some? ==> raster.value.xres == storage.width && raster.value.yres == storage.height
    ensures r.Some? ==> |r.value| == storage.height == |raster.value.rows| && storage.width >= 0
    ensures r.Some? ==> forall y :: 0 <= y < storage.height ==>
      |raster.value.rows[y]| >= storage.width * NumElements(storage.format) * BytesPerChannel(img.outputType)
    ensures r.Some? ==> forall y :: 0 <= y < storage.height ==>
      r.value[if storage.flipped then y else storage.height - 1 - y] ==
        raster.value.rows[y][..storage.width * NumElements(storage.format) * BytesPerChannel(img.outputType)]
  {
    if cropTop != 0 || cropBottom != 0 || cropLeft != 0 || cropRight != 0 then None
    else if raster.None? then None
    else
      var ras := raster.value;
      if ras.channels.None? then None
      else if ras.channels.value != NumElements(storage.format) then None
      else if RasterType(ras.format).None? then None
      else if RasterType(ras.format).value != img.outputType then None
      else if ras.xres != storage.width || ras.yres != storage.height then None
      else if storage.width < 0 || |ras.rows| != storage.height then None
      else
        var stride := storage.width * ras.channels.value * BytesPerChannel(img.outputType);
        if exists y :: 0 <= y < |ras.rows| && |ras.rows[y]| < stride then None
        else Some(CopyRows(ras.rows, stride, storage.flipped))
  }

  /** The bytes of one destination row: the storage's width in pixels of
      the storage format's channels, at the reader's channel size. */
  function RowStride(img: Image, storage: Storage): int {
    storage.width * NumElements(storage.format) * BytesPerChannel(img.outputType)
  }

  /** `Read` is `ReadCropped` without margins: it succeeds exactly when the
      file's first raster exists and matches the storage's channel count,
      the image's type and the storage's resolution, with every row at
      least a full stride long; the rows are then copied at that stride,
      flipped unless the storage already is. */
  function Read(img: Image, storage: Storage, raster: Option<Raster>): (r: Option<seq<seq<bv8>>>)
    ensures r.Some? <==>
      raster.Some? && raster.value.channels == Some(NumElements(storage.format)) &&
      RasterType(raster.value.format) == Some(img.outputType) &&
      raster.value.xres == storage.width && raster.value.yres == storage.height &&
      storage.width >= 0 && |raster.value.rows| == storage.height &&
      forall y :: 0 <= y < storage.height ==> |raster.value.rows[y]| >= RowStride(img, storage)
    ensures r.Some? ==> r.value == CopyRows(raster.value.rows, RowStride(img, storage), storage.flipped)
  {
    ReadCropped(img, 0, 0, 0, 0, storage, raster)
  }

  /** Every row a successful read returns is one row of pixels: the
      storage's width times `BytesPerPixel` bytes, when the image's channel
      count is the storage format's. */
  lemma ReadRowsArePixelRows(img: Image, storage: Storage, raster: Option<Raster>)
    requires img.nchannels == NumElements(storage.format)
    requires Read(img, storage, raster).Some?
    ensures forall y :: 0 <= y < |Read(img, storage, raster).value| ==>
      |Read(img, storage, raster).value[y]| == storage.width * BytesPerPixel(img)
  {
    assert RowStride(img, storage) == storage.width * BytesPerPixel(img) by {
      assert BytesPerPixel(img) == BytesPerChannel(img.outputType) * img.nchannels;
      assert storage.width * NumElements(storage.format) * BytesPerChannel(img.outputType) ==
        storage.width * (BytesPerChannel(img.outputType) * NumElements(storage.format));
    }
  }
}
