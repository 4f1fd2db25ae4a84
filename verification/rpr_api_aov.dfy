/** The AOV objects of the delegate (hdRpr/rprApiAov.cpp): each holds a
    framebuffer, an optional resolved framebuffer, a RIF filter and a dirty
    bitset.  The colour AOV adds a filter-type state machine for denoising;
    the depth AOV tracks its own size.  RIF and RPR calls are outside the
    model: a filter is represented only by its presence and kind. */
module RprApiAov {
  import opened HdTypes
  import opened Wrappers
  import Framebuffer

  /** The two bits of `HdRprApiAov::ChangeTracker` (`DirtySize = 1 << 0`,
      `DirtyFormat = 1 << 1`); a bitset over them is a set of flags, with
      `AllDirty` holding both. */
  datatype DirtyFlag = DirtySize | DirtyFormat

  const Clean: set<DirtyFlag> := {}
  const AllDirty: set<DirtyFlag> := {DirtySize, DirtyFormat}

  /** The format the constructor keeps: only UNorm8, Float16 and Float32
      components are supported; anything else falls back to Float32Vec4. */
  function SupportedFormat(f: HdFormat): (r: HdFormat)
    ensures f.Format? && f.component in {UNorm8, Float16, Float32} ==> r == f
    ensures !(f.Format? && f.component in {UNorm8, Float16, Float32}) ==> r == Float32Vec4
  {
    if f.Format? && f.component in {UNorm8, Float16, Float32} then f else Float32Vec4
  }

  /** A generic AOV: `hasFilter` is whether `m_filter` is set. */
  datatype Aov = Aov(format: HdFormat, dirty: set<DirtyFlag>, fb: Framebuffer.Fb, resolved: Option<Framebuffer.Fb>, hasFilter: bool)

  /** The constructor with the default filter: the kept format is the
      supported one, but the resample filter is decided by the requested
      format, so an unsupported request still gets a filter.  `attached` is
      the RPR AOV the framebuffer is attached as, and `hybrid` says whether
      the active plugin is Hybrid, which cannot resolve framebuffers.  Every
      dirty bit starts raised. */
  function New(width: nat, height: nat, format: HdFormat, attached: Framebuffer.Aov, hybrid: bool): (a: Aov)
    ensures a.format == SupportedFormat(format)
    ensures a.hasFilter <==> format != Float32Vec4
    ensures a.fb.width == width && a.fb.height == height && a.fb.aov == attached
    ensures a.resolved.Some? <==> !hybrid
    ensures a.resolved.Some? ==> a.resolved.value.width == width && a.resolved.value.height == height
    ensures a.dirty == AllDirty
  {
    var fb := Framebuffer.AttachAs(Framebuffer.New(width, height), attached);
    Aov(SupportedFormat(format), AllDirty, fb,
        if hybrid then None else Some(Framebuffer.New(width, height)),
        format != Float32Vec4)
  }

  /** `HdRprApiAov::Resize`: a new format raises `DirtyFormat`; a main
      framebuffer that actually changed raises `DirtySize`; a resolved
      framebuffer that changed raises `DirtyFormat`. */
  function Resize(a: Aov, width: nat, height: nat, format: HdFormat): (r: Aov)
    ensures r.format == format
    ensures a.format != format ==> DirtyFormat in r.dirty
    ensures (a.fb.width != width || a.fb.height != height) ==> DirtySize in r.dirty
    ensures (a.format == format && a.fb.width == width && a.fb.height == height &&
             (a.resolved.None? || (a.resolved.value.width == width && a.resolved.value.height == height))) ==> r == a
    ensures a.dirty <= r.dirty
    ensures r.fb.width == width && r.fb.height == height
  {
    var d0 := if a.format != format then a.dirty + {DirtyFormat} else a.dirty;
    var (fbChanged, fb) := Framebuffer.Resize(a.fb, width, height);
    var d1 := if fbChanged then d0 + {DirtySize} else d0;
    match a.resolved
    case None => a.(format := format, dirty := d1, fb := fb)
    case Some(res) =>
      var (resChanged, res2) := Framebuffer.Resize(res, width, height);
      a.(format := format, dirty := if resChanged then d1 + {DirtyFormat} else d1, fb := fb, resolved := Some(res2))
  }

  /** `HdRprApiAov::Update`: a dirty format re-decides the filter (a
      resample filter unless the format is Float32Vec4), and every bit is
      cleared. */
  function Update(a: Aov): (r: Aov)
    ensures r.dirty == Clean
    ensures DirtyFormat in a.dirty ==> (r.hasFilter <==> a.format != Float32Vec4)
    ensures DirtyFormat !in a.dirty ==> r.hasFilter == a.hasFilter
    ensures r.format == a.format && r.fb == a.fb && r.resolved == a.resolved
  {
    var withFilter := if DirtyFormat in a.dirty then a.(hasFilter := a.format != Float32Vec4) else a;
    withFilter.(dirty := Clean)
  }

  /** The integer masking `GetData` applies to an Int32 AOV: every int read
      back keeps only its low 24 bits (the `& 0xFFFFFF` on a two's-complement
      int is the Euclidean remainder modulo 2^24). */
  function MaskPrimIds(data: seq<int>, format: HdFormat): (r: seq<int>)
    ensures |r| == |data|
    ensures format != Int32Format ==> r == data
    ensures format == Int32Format ==> forall i :: 0 <= i < |r| ==>
      0 <= r[i] < Int24Modulus && (data[i] - r[i]) % Int24Modulus == 0
    ensures format == Int32Format ==> forall i :: 0 <= i < |r| && 0 <= data[i] < Int24Modulus ==> r[i] == data[i]
  {
    if format == Int32Format then seq(|data|, i requires 0 <= i < |data| => data[i] % Int24Modulus) else data
  }

  /** Masking is idempotent. */
  lemma MaskPrimIdsIdempotent(data: seq<int>, format: HdFormat)
    ensures MaskPrimIds(MaskPrimIds(data, format), format) == MaskPrimIds(data, format)
  {
  }

  /** `rif::FilterType` as used by the colour AOV. */
  datatype FilterType = NoFilter | Resample | AIDenoise | EawDenoise

  /** `rif::FilterInputType`, without `Color`, which is not retained. */
  datatype FilterInput = Normal | LinearDepth | ObjectId | Albedo | WorldCoordinate

  /** The colour AOV: the generic state plus the current filter type, its
      dirty flag and the retained denoise inputs. */
  datatype ColorAov = ColorAov(base: Aov, current: FilterType, isCurrentFilterDirty: bool, retained: set<FilterInput>)

  /** `EnableAIDenoise`; the three booleans say whether each input AOV is
      non-null. */
  function EnableAIDenoise(c: ColorAov, albedo: bool, normal: bool, linearDepth: bool): (r: ColorAov)
    ensures c.current == AIDenoise || !albedo || !normal || !linearDepth ==> r == c
    ensures c.current != AIDenoise && albedo && normal && linearDepth ==>
      r == c.(current := AIDenoise, isCurrentFilterDirty := true, retained := {Normal, LinearDepth, Albedo})
  {
    if c.current == AIDenoise then c
    else if !albedo || !normal || !linearDepth then c
    else c.(current := AIDenoise, isCurrentFilterDirty := true, retained := {Normal, LinearDepth, Albedo})
  }

  /** `EnableEAWDenoise`. */
  function EnableEawDenoise(c: ColorAov, albedo: bool, normal: bool, linearDepth: bool, objectId: bool, worldCoordinate: bool): (r: ColorAov)
    ensures c.current == EawDenoise || !(albedo && normal && linearDepth && objectId && worldCoordinate) ==> r == c
    ensures c.current != EawDenoise && albedo && normal && linearDepth && objectId && worldCoordinate ==>
      r == c.(current := EawDenoise, isCurrentFilterDirty := true,
              retained := {Normal, LinearDepth, ObjectId, Albedo, WorldCoordinate})
  {
    if c.current == EawDenoise then c
    else if !(albedo && normal && linearDepth && objectId && worldCoordinate) then c
    else c.(current := EawDenoise, isCurrentFilterDirty := true,
            retained := {Normal, LinearDepth, ObjectId, Albedo, WorldCoordinate})
  }

  /** `DisableDenoise`: a no-op when already resampling or without a filter;
      otherwise the retained inputs are dropped and the filter type becomes
      None for Float32Vec4 and Resample for any other format. */
  function DisableDenoise(c: ColorAov): (r: ColorAov)
    ensures c.current == Resample || !c.base.hasFilter ==> r == c
    ensures c.current != Resample && c.base.hasFilter ==>
      r.retained == {} && r.isCurrentFilterDirty && r.base == c.base &&
      r.current == (if c.base.format == Float32Vec4 then NoFilter else Resample)
  {
    if c.current == Resample || !c.base.hasFilter then c
    else c.(retained := {}, current := if c.base.format == Float32Vec4 then NoFilter else Resample,
            isCurrentFilterDirty := true)
  }

  /** `HdRprApiColorAov::OnFormatChange`: None and Resample follow the
      format (Resample for anything but Float32Vec4); a denoise filter is
      kept.  `DirtySize` is always raised. */
  function OnFormatChange(c: ColorAov): (r: ColorAov)
    ensures DirtySize in r.base.dirty
    ensures c.current == NoFilter && c.base.format != Float32Vec4 ==> r.current == Resample && r.isCurrentFilterDirty
    ensures c.current == Resample && c.base.format == Float32Vec4 ==> r.current == NoFilter && r.isCurrentFilterDirty
    ensures c.current in {AIDenoise, EawDenoise} ==> r.current == c.current && r.isCurrentFilterDirty == c.isCurrentFilterDirty
    ensures r.current != NoFilter || r.base.format == Float32Vec4 || c.current != NoFilter
    ensures r.retained == c.retained
  {
    var next :=
      if c.current == NoFilter && c.base.format != Float32Vec4 then c.(current := Resample, isCurrentFilterDirty := true)
      else if c.current == Resample && c.base.format == Float32Vec4 then c.(current := NoFilter, isCurrentFilterDirty := true)
      else c;
    next.(base := next.base.(dirty := next.base.dirty + {DirtySize}))
  }

  /** `HdRprApiColorAov::Update`.  `denoiseCreated` says whether building a
      denoise filter succeeds; on failure the filter type drops to None. */
  function ColorUpdate(c: ColorAov, denoiseCreated: bool): (r: ColorAov)
    ensures r.base.dirty == Clean && !r.isCurrentFilterDirty
    ensures r.retained == c.retained && r.base.format == c.base.format
  {
    var c1 := if DirtyFormat in c.base.dirty then OnFormatChange(c) else c;
    var c2 :=
      if c1.isCurrentFilterDirty then
        var c3 := match c1.current
          case NoFilter => c1.(base := c1.base.(hasFilter := false))
          case Resample => c1.(base := c1.base.(hasFilter := true))
          case _ =>
            if denoiseCreated then c1.(base := c1.base.(hasFilter := true))
            else c1.(base := c1.base.(hasFilter := false), current := NoFilter);
        c3.(isCurrentFilterDirty := false, base := c3.base.(dirty := c3.base.dirty + {DirtySize}))
      else c1;
    c2.(base := c2.base.(dirty := Clean))
  }

  /** After an update that had a pending filter change, the AOV has a filter
      exactly when its filter type is not None. */
  lemma ColorUpdateSettlesFilter(c: ColorAov, denoiseCreated: bool)
    requires c.isCurrentFilterDirty || (DirtyFormat in c.base.dirty && OnFormatChange(c).isCurrentFilterDirty)
    ensures var r := ColorUpdate(c, denoiseCreated); r.base.hasFilter <==> r.current != NoFilter
  {
  }

  /** Toggling between formats and updating keeps None and Resample in step
      with the format, starting from a settled AOV without denoising. */
  lemma FormatChangeKeepsResampleInStep(c: ColorAov, format: HdFormat, denoiseCreated: bool)
    requires c.current in {NoFilter, Resample} && !c.isCurrentFilterDirty
    requires c.current == (if c.base.format == Float32Vec4 then NoFilter else Resample)
    ensures var r := ColorUpdate(c.(base := c.base.(format := format, dirty := c.base.dirty + {DirtyFormat})), denoiseCreated);
      r.current == (if format == Float32Vec4 then NoFilter else Resample)
  {
  }

  /** The depth AOV keeps its own size and format. */
  datatype DepthAov = DepthAov(width: int, height: int, format: HdFormat, dirty: set<DirtyFlag>)

  /** `HdRprApiDepthAov::Resize`: `DirtyFormat` only on a new format,
      `DirtySize` only when the width or the height changes. */
  function DepthResize(d: DepthAov, width: int, height: int, format: HdFormat): (r: DepthAov)
    ensures r.width == width && r.height == height && r.format == format
    ensures d.format != format ==> DirtyFormat in r.dirty
    ensures d.width != width || d.height != height ==> DirtySize in r.dirty
    ensures d.format == format && d.width == width && d.height == height ==> r == d
    ensures d.dirty <= r.dirty
  {
    var d1 := if d.format != format then d.(format := format, dirty := d.dirty + {DirtyFormat}) else d;
    if d1.width != width || d1.height != height then d1.(width := width, height := height, dirty := d1.dirty + {DirtySize})
    else d1
  }
}
