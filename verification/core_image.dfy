/** `RprUsdCoreImage` (rprUsd/coreImage.cpp): an RPR image built from one
    texture or from a set of UDIM tiles, with the image descriptor computed
    from the pixel format. Creating an image in the RPR context is a foreign
    call, so whether it succeeds is part of the input. */
module CoreImage {
  import opened Wrappers

  const Uint32Modulus: int := 0x1_0000_0000
  const FirstUdimTile: nat := 1001
  const LastUdimTile: nat := 1100

  datatype ComponentType = UInt8 | Float16 | Float32
  datatype ImageFormat = ImageFormat(componentType: ComponentType, numComponents: nat)
  datatype ImageDesc = ImageDesc(width: nat, height: nat, depth: nat, rowPitch: nat, slicePitch: nat)

  function BytesPerComponent(t: ComponentType): (b: nat)
    ensures b in {1, 2, 4}
    ensures b == 1 <==> t == UInt8
  {
    match t
    case Float16 => 2
    case Float32 => 4
    case UInt8 => 1
  }

  /** `GetRprImageDesc`: the pitches are unsigned 32-bit products. */
  function GetRprImageDesc(format: ImageFormat, width: nat, height: nat, depth: nat): (d: ImageDesc)
    ensures d.width == width && d.height == height && d.depth == depth
    ensures d.rowPitch < Uint32Modulus && d.slicePitch < Uint32Modulus
    ensures width * format.numComponents * BytesPerComponent(format.componentType) < Uint32Modulus ==>
      d.rowPitch == width * format.numComponents * BytesPerComponent(format.componentType)
  {
    var row := (width * format.numComponents * BytesPerComponent(format.componentType)) % Uint32Modulus;
    ImageDesc(width, height, depth, row, (row * height) % Uint32Modulus)
  }

  /** Without wrap-around a slice is exactly the bytes of `height` rows of
      `width` pixels. */
  lemma SlicePitchIsImageBytes(format: ImageFormat, width: nat, height: nat)
    requires width * format.numComponents * BytesPerComponent(format.componentType) * height < Uint32Modulus
    ensures GetRprImageDesc(format, width, height, 1).slicePitch ==
      width * height * format.numComponents * BytesPerComponent(format.componentType)
  {
    var b := BytesPerComponent(format.componentType);
    var row := width * format.numComponents * b;
    ReorderProduct(width, height, format.numComponents, b);
    if height > 0 {
      ProductAtLeast(row, height);
      SmallModulus(row);
      SmallModulus(row * height);
    } else {
      assert (row % Uint32Modulus) * height == 0;
    }
  }

  lemma SmallModulus(x: nat)
    requires x < Uint32Modulus
    ensures x % Uint32Modulus == x
  {
  }

  lemma ReorderProduct(w: nat, h: nat, c: nat, b: nat)
    ensures w * c * b * h == w * h * c * b
  {
  }

  lemma ProductAtLeast(a: nat, k: nat)
    requires k >= 1
    ensures a <= a * k
  {
  }

  datatype GlType = GlUnsignedByte | GlHalfFloat | GlFloat | GlOtherType(code: nat)
  datatype GlFormat = GlRed | GlRgb | GlRgba | GlOtherFormat(code: nat)

  /** A decoded texture as the texture loader hands it over; `creatable`
      says whether the RPR context accepts the image. */
  datatype TextureData = TextureData(glType: GlType, glFormat: GlFormat, width: nat, height: nat, creatable: bool)

  datatype Image = Image(format: ImageFormat, desc: ImageDesc)

  function ComponentTypeOf(t: GlType): (r: Option<ComponentType>)
    ensures r.None? <==> t.GlOtherType?
    ensures t == GlHalfFloat <==> r == Some(Float16)
    ensures t == GlFloat <==> r == Some(Float32)
  {
    match t
    case GlUnsignedByte => Some(UInt8)
    case GlHalfFloat => Some(Float16)
    case GlFloat => Some(Float32)
    case GlOtherType(_) => None
  }

  function ComponentCountOf(f: GlFormat): (r: Option<nat>)
    ensures r.None? <==> f.GlOtherFormat?
    ensures r.Some? ==> r.value in {1, 3, 4}
  {
    match f
    case GlRed => Some(1)
    case GlRgb => Some(3)
    case GlRgba => Some(4)
    case GlOtherFormat(_) => None
  }

  /** `CreateRprImage`: fails for an unsupported pixel type or layout, or
      when the context refuses the image. */
  function CreateRprImage(t: TextureData): (r: Option<Image>)
    ensures r.Some? <==> !t.glType.GlOtherType? && !t.glFormat.GlOtherFormat? && t.creatable
    ensures r.Some? ==> r.value.desc.width == t.width && r.value.desc.height == t.height
  {
    match (ComponentTypeOf(t.glType), ComponentCountOf(t.glFormat))
    case (Some(ct), Some(n)) =>
      if t.creatable then
        var format := ImageFormat(ct, n);
        Some(Image(format, GetRprImageDesc(format, t.width, t.height, 1)))
      else None
    case _ => None
  }

  datatype UdimTile = UdimTile(id: nat, textureData: TextureData)
  datatype SubImage = SubImage(tileId: nat, image: Image)

  /** A single image has no sub-images; a UDIM set has an empty root image
      and one sub-image per accepted tile. */
  datatype RprUsdCoreImage = RprUsdCoreImage(root: Option<Image>, subImages: seq<SubImage>)

  predicate IsUdimTileId(id: nat) {
    FirstUdimTile <= id <= LastUdimTile
  }

  /** The tiles that become sub-images, in order: the id must be a UDIM tile
      id and the image must be creatable. */
  function AcceptedTiles(tiles: seq<UdimTile>): (r: seq<SubImage>)
    ensures |r| <= |tiles|
    ensures forall s :: s in r ==> IsUdimTileId(s.tileId)
    ensures forall s :: s in r ==> exists t :: t in tiles && t.id == s.tileId && CreateRprImage(t.textureData) == Some(s.image)
  {
    if |tiles| == 0 then []
    else
      var front := AcceptedTiles(tiles[..|tiles| - 1]);
      var t := tiles[|tiles| - 1];
      assert forall u :: u in tiles[..|tiles| - 1] ==> u in tiles;
      if IsUdimTileId(t.id) then
        match CreateRprImage(t.textureData)
        case Some(img) => front + [SubImage(t.id, img)]
        case None => front
      else front
  }

  /** No tile is accepted exactly when every tile has an out-of-range id or
      an image that cannot be created. */
  lemma {:induction false} AcceptedTilesIff(tiles: seq<UdimTile>)
    ensures (|AcceptedTiles(tiles)| == 0) <==>
      forall i :: 0 <= i < |tiles| ==> !IsUdimTileId(tiles[i].id) || CreateRprImage(tiles[i].textureData).None?
  {
    if |tiles| > 0 {
      var n := |tiles| - 1;
      AcceptedTilesIff(tiles[..n]);
      assert forall i :: 0 <= i < n ==> tiles[..n][i] == tiles[i];
    }
  }

  /** A tile becomes a sub-image exactly when its id is a UDIM tile id and
      its image can be created: its pixel type and layout are supported and
      the context accepts it. On its own, such a tile is the one sub-image. */
  function Accepted(t: UdimTile): (ok: bool)
    ensures ok <==> (FirstUdimTile <= t.id <= LastUdimTile && !t.textureData.glType.GlOtherType? &&
                     !t.textureData.glFormat.GlOtherFormat? && t.textureData.creatable)
    ensures ok <==> |AcceptedTiles([t])| == 1
  {
    IsUdimTileId(t.id) && CreateRprImage(t.textureData).Some?
  }

  /** The positions of the accepted tiles, in increasing order: every
      position listed holds an accepted tile, and every accepted tile's
      position is listed. */
  function AcceptedIndices(tiles: seq<UdimTile>): (idx: seq<nat>)
    ensures forall k :: 0 <= k < |idx| ==> idx[k] < |tiles| && Accepted(tiles[idx[k]])
    ensures forall k, l :: 0 <= k < l < |idx| ==> idx[k] < idx[l]
    ensures forall i :: 0 <= i < |tiles| && Accepted(tiles[i]) ==> i in idx
  {
    if |tiles| == 0 then []
    else
      var n := |tiles| - 1;
      var front := AcceptedIndices(tiles[..n]);
      assert forall i :: 0 <= i < n ==> tiles[..n][i] == tiles[i];
      if Accepted(tiles[n]) then front + [n] else front
  }

  /** `subs` lists, position by position, the sub-images of the tiles at
      `idx`: each listed tile is accepted and contributes its id and its
      created image. */
  predicate SubImagesAt(tiles: seq<UdimTile>, subs: seq<SubImage>, idx: seq<nat>) {
    |subs| == |idx| &&
    forall k :: 0 <= k < |subs| ==>
      idx[k] < |tiles| && Accepted(tiles[idx[k]]) &&
      subs[k] == SubImage(tiles[idx[k]].id, CreateRprImage(tiles[idx[k]].textureData).value)
  }

  /** The sub-images are exactly the accepted tiles, in tile order: the
      k-th sub-image is the k-th accepted tile with its id and its created
      image, and (by `AcceptedIndices`) no accepted tile is skipped. */
  lemma {:induction false} AcceptedTilesInOrder(tiles: seq<UdimTile>)
    ensures SubImagesAt(tiles, AcceptedTiles(tiles), AcceptedIndices(tiles))
  {
    if |tiles| > 0 {
      var n := |tiles| - 1;
      var front, fi := AcceptedTiles(tiles[..n]), AcceptedIndices(tiles[..n]);
      AcceptedTilesInOrder(tiles[..n]);
      SubImagesAtPrefix(tiles, n, front, fi);
      AcceptedStep(tiles);
      if Accepted(tiles[n]) {
        SubImagesAtAppend(tiles, n, front, fi);
      }
    }
  }

  /** One more tile adds its sub-image and its position exactly when it is
      accepted. */
  lemma AcceptedStep(tiles: seq<UdimTile>)
    requires |tiles| > 0
    ensures var n := |tiles| - 1;
      AcceptedTiles(tiles) ==
        (if Accepted(tiles[n])
         then AcceptedTiles(tiles[..n]) + [SubImage(tiles[n].id, CreateRprImage(tiles[n].textureData).value)]
         else AcceptedTiles(tiles[..n])) &&
      AcceptedIndices(tiles) ==
        (if Accepted(tiles[n]) then AcceptedIndices(tiles[..n]) + [n] else AcceptedIndices(tiles[..n]))
  {
  }

  lemma SubImagesAtPrefix(tiles: seq<UdimTile>, n: nat, subs: seq<SubImage>, idx: seq<nat>)
    requires n <= |tiles| && SubImagesAt(tiles[..n], subs, idx)
    ensures SubImagesAt(tiles, subs, idx)
  {
    forall k | 0 <= k < |subs|
      ensures idx[k] < |tiles| && tiles[..n][idx[k]] == tiles[idx[k]]
    {
    }
  }

  lemma SubImagesAtAppend(tiles: seq<UdimTile>, n: nat, subs: seq<SubImage>, idx: seq<nat>)
    requires n < |tiles| && Accepted(tiles[n]) && SubImagesAt(tiles, subs, idx)
    ensures SubImagesAt(tiles, subs + [SubImage(tiles[n].id, CreateRprImage(tiles[n].textureData).value)], idx + [n])
  {
  }

  /** `RprUsdCoreImage::Create` from tiles: nothing for no tiles; a lone tile
      with id 0 is a plain image; otherwise the accepted UDIM tiles go under a
      root image, and the result is null if none is accepted or the root image
      cannot be created (`rootCreatable`). */
  function Create(tiles: seq<UdimTile>, rootCreatable: bool): (r: Option<RprUsdCoreImage>)
    ensures |tiles| == 0 ==> r.None?
    ensures |tiles| == 1 && tiles[0].id == 0 ==>
      (r.Some? <==> CreateRprImage(tiles[0].textureData).Some?) &&
      (r.Some? ==> r.value == RprUsdCoreImage(CreateRprImage(tiles[0].textureData), []))
    ensures !(|tiles| == 1 && tiles[0].id == 0) && r.Some? ==>
      r.value.subImages == AcceptedTiles(tiles) && |r.value.subImages| > 0
    ensures !(|tiles| == 1 && tiles[0].id == 0) ==>
      (r.Some? <==> |tiles| > 0 && |AcceptedTiles(tiles)| > 0 && rootCreatable)
  {
    if |tiles| == 0 then None
    else if |tiles| == 1 && tiles[0].id == 0 then
      match CreateRprImage(tiles[0].textureData)
      case Some(img) => Some(RprUsdCoreImage(Some(img), []))
      case None => None
    else
      var subs := AcceptedTiles(tiles);
      if |subs| == 0 || !rootCreatable then None
      else
        var rootFormat := ImageFormat(UInt8, 0);
        Some(RprUsdCoreImage(Some(Image(rootFormat, ImageDesc(0, 0, 0, 0, 0))), subs))
  }

  /** `GetBaseImage`: the first sub-image, or the root image when there is
      none. */
  function GetBaseImage(c: RprUsdCoreImage): (r: Option<Image>)
    ensures |c.subImages| > 0 ==> r == Some(c.subImages[0].image)
    ensures |c.subImages| == 0 ==> r == c.root
  {
    if |c.subImages| == 0 then c.root else Some(c.subImages[0].image)
  }

  datatype Status = RprSuccess | RprError(code: int)

  /** `ForEachImage`: applies `f` to each sub-image in order and returns the
      first failure; with no sub-images, `f` is applied to the root. */
  function ForEachImage(c: RprUsdCoreImage, f: Option<Image> -> Status): (r: Status)
    ensures |c.subImages| == 0 ==> r == f(c.root)
    ensures |c.subImages| > 0 && r == RprSuccess ==>
      forall i :: 0 <= i < |c.subImages| ==> f(Some(c.subImages[i].image)) == RprSuccess
    ensures |c.subImages| > 0 && r != RprSuccess ==>
      exists i :: 0 <= i < |c.subImages| && r == f(Some(c.subImages[i].image)) &&
        forall j :: 0 <= j < i ==> f(Some(c.subImages[j].image)) == RprSuccess
  {
    if |c.subImages| == 0 then f(c.root) else FirstFailure(c.subImages, f, 0)
  }

  function FirstFailure(subs: seq<SubImage>, f: Option<Image> -> Status, from: nat): (r: Status)
    requires from <= |subs|
    ensures r == RprSuccess ==> forall i :: from <= i < |subs| ==> f(Some(subs[i].image)) == RprSuccess
    ensures r != RprSuccess ==>
      exists i :: from <= i < |subs| && r == f(Some(subs[i].image)) &&
        forall j :: from <= j < i ==> f(Some(subs[j].image)) == RprSuccess
    decreases |subs| - from
  {
    if from == |subs| then RprSuccess
    else
      var s := f(Some(subs[from].image));
      if s != RprSuccess then s else FirstFailure(subs, f, from + 1)
  }

  /** All sub-images succeed exactly when `ForEachImage` does. */
  lemma ForEachImageSucceedsIffAll(c: RprUsdCoreImage, f: Option<Image> -> Status)
    requires |c.subImages| > 0
    ensures ForEachImage(c, f) == RprSuccess <==>
      forall i :: 0 <= i < |c.subImages| ==> f(Some(c.subImages[i].image)) == RprSuccess
  {
  }
}
