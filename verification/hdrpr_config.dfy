/** The hand-written render configuration of the delegate
    (hdRpr/config.cpp, hdRpr/config.h): a preferences record plus a dirty
    bitset.  Every setter stores, raises its bit and saves only when the new
    value differs from the stored one. */
module HdRprConfig {
  import opened Wrappers

  // rpr::RenderDeviceType and rpr::PluginType (rprcpp/rprContext.h)
  const DeviceNone: int := -1
  const DeviceCpu: int := 0
  const DeviceGpu: int := 1
  const PluginNone: int := -1
  const PluginTahoe: int := 0
  const PluginHybrid: int := 1

  // HdRprHybridQuality
  const QualityNone: int := -1
  const QualityLow: int := 0
  const QualityMedium: int := 1
  const QualityHigh: int := 2

  // HdRprConfig::ChangeTracker
  const Clean: bv32 := 0
  const DirtyAll: bv32 := 0xFFFF_FFFF
  const DirtyRenderDevice: bv32 := 1
  const DirtyPlugin: bv32 := 2
  const DirtyHybridQuality: bv32 := 4
  const DirtyDenoising: bv32 := 8
  const DirtySampling: bv32 := 16

  const DefaultMinSamples: int := 64
  const DefaultMaxSamples: int := 256
  const DefaultVariance: real := 0.0

  datatype PrefData = PrefData(
    renderDevice: int,
    plugin: int,
    hybridQuality: int,
    enableDenoising: bool,
    minSamples: int,
    maxSamples: int,
    variance: real)

  /** The configuration object; `saves` counts calls to `Save`. */
  datatype Config = Config(pref: PrefData, dirty: bv32, saves: nat)

  /** `PrefData::SetDefault`. */
  const Defaults: PrefData := PrefData(DeviceGpu, PluginTahoe, QualityLow, false,
                                       DefaultMinSamples, DefaultMaxSamples, DefaultVariance)

  /** `IsValid`: both the render device and the plugin lie in [FIRST, LAST];
      the hybrid quality and the sampling fields are not checked. */
  function IsValid(p: PrefData): (ok: bool)
    ensures ok <==> p.renderDevice in {DeviceCpu, DeviceGpu} && p.plugin in {PluginTahoe, PluginHybrid}
    ensures ok ==> p.renderDevice != DeviceNone && p.plugin != PluginNone
    ensures p == Defaults ==> ok
  {
    DeviceCpu <= p.renderDevice <= DeviceGpu && PluginTahoe <= p.plugin <= PluginHybrid
  }

  /** The constructor: the loaded record when there is one and it is valid,
      else the defaults; every flag starts dirty.  Reading the file is outside
      the model and `loaded` stands for its outcome. */
  function Create(loaded: Option<PrefData>): (c: Config)
    ensures IsValid(c.pref)
    ensures c.dirty == DirtyAll && c.saves == 0
    ensures loaded.Some? && IsValid(loaded.value) ==> c.pref == loaded.value
    ensures !(loaded.Some? && IsValid(loaded.value)) ==> c.pref == Defaults
  {
    var p := if loaded.Some? && IsValid(loaded.value) then loaded.value else Defaults;
    Config(p, DirtyAll, 0)
  }

  /** The common shape of every setter: `changed` says whether the value
      differs; if so the new record is stored, `flag` is raised and the record
      is saved, else nothing happens. */
  function Update(c: Config, changed: bool, p: PrefData, flag: bv32): (r: Config)
    ensures !changed ==> r == c
    ensures changed ==> r == Config(p, c.dirty | flag, c.saves + 1)
  {
    if changed then Config(p, c.dirty | flag, c.saves + 1) else c
  }

  function SetRenderDevice(c: Config, d: int): (r: Config)
    ensures r.pref.renderDevice == d
    ensures r != c <==> c.pref.renderDevice != d
    ensures r != c ==> r.dirty == c.dirty | DirtyRenderDevice && r.saves == c.saves + 1
    ensures r.pref.(renderDevice := c.pref.renderDevice) == c.pref
  {
    Update(c, c.pref.renderDevice != d, c.pref.(renderDevice := d), DirtyRenderDevice)
  }

  function SetHybridQuality(c: Config, q: int): (r: Config)
    ensures r.pref.hybridQuality == q
    ensures r != c <==> c.pref.hybridQuality != q
    ensures r != c ==> r.dirty == c.dirty | DirtyHybridQuality && r.saves == c.saves + 1
    ensures r.pref.(hybridQuality := c.pref.hybridQuality) == c.pref
  {
    Update(c, c.pref.hybridQuality != q, c.pref.(hybridQuality := q), DirtyHybridQuality)
  }

  /** `GetHybridQuality`: MEDIUM is reported as HIGH; every other value as stored. */
  function GetHybridQuality(c: Config): (q: int)
    ensures c.pref.hybridQuality == QualityMedium ==> q == QualityHigh
    ensures c.pref.hybridQuality != QualityMedium ==> q == c.pref.hybridQuality
    ensures q != QualityMedium
  {
    if c.pref.hybridQuality == QualityMedium then QualityHigh else c.pref.hybridQuality
  }

  function SetPlugin(c: Config, p: int): (r: Config)
    ensures r.pref.plugin == p
    ensures r != c <==> c.pref.plugin != p
    ensures r != c ==> r.dirty == c.dirty | DirtyPlugin && r.saves == c.saves + 1
    ensures r.pref.(plugin := c.pref.plugin) == c.pref
  {
    Update(c, c.pref.plugin != p, c.pref.(plugin := p), DirtyPlugin)
  }

  function SetDenoising(c: Config, enable: bool): (r: Config)
    ensures r.pref.enableDenoising == enable
    ensures r != c <==> c.pref.enableDenoising != enable
    ensures r != c ==> r.dirty == c.dirty | DirtyDenoising && r.saves == c.saves + 1
    ensures r.pref.(enableDenoising := c.pref.enableDenoising) == c.pref
  {
    Update(c, c.pref.enableDenoising != enable, c.pref.(enableDenoising := enable), DirtyDenoising)
  }

  function SetMinSamples(c: Config, n: int): (r: Config)
    ensures r.pref.minSamples == n
    ensures r != c <==> c.pref.minSamples != n
    ensures r != c ==> r.dirty == c.dirty | DirtySampling && r.saves == c.saves + 1
    ensures r.pref.(minSamples := c.pref.minSamples) == c.pref
  {
    Update(c, c.pref.minSamples != n, c.pref.(minSamples := n), DirtySampling)
  }

  function SetMaxSamples(c: Config, n: int): (r: Config)
    ensures r.pref.maxSamples == n
    ensures r != c <==> c.pref.maxSamples != n
    ensures r != c ==> r.dirty == c.dirty | DirtySampling && r.saves == c.saves + 1
    ensures r.pref.(maxSamples := c.pref.maxSamples) == c.pref
  {
    Update(c, c.pref.maxSamples != n, c.pref.(maxSamples := n), DirtySampling)
  }

  function SetVariance(c: Config, v: real): (r: Config)
    ensures r.pref.variance == v
    ensures r != c <==> c.pref.variance != v
    ensures r != c ==> r.dirty == c.dirty | DirtySampling && r.saves == c.saves + 1
    ensures r.pref.(variance := c.pref.variance) == c.pref
  {
    Update(c, c.pref.variance != v, c.pref.(variance := v), DirtySampling)
  }

  /** C++ float-to-int conversion: truncation toward zero. */
  function TruncateToInt(x: real): (i: int)
    ensures 0.0 <= x ==> i as real <= x < i as real + 1.0
    ensures x < 0.0 ==> i as real - 1.0 < x <= i as real
  {
    if x >= 0.0 then x.Floor else -((-x).Floor)
  }

  /** `GetVariance` returns `int`, so the stored float is truncated toward zero. */
  function GetVariance(c: Config): (i: int)
    ensures 0.0 <= c.pref.variance < 1.0 ==> i == 0
  {
    TruncateToInt(c.pref.variance)
  }

  /** `IsDirty` tests the flags with a bitwise AND. */
  predicate IsDirty(c: Config, flag: bv32) {
    c.dirty & flag != 0
  }

  /** `CleanDirtyFlag` clears exactly the given bits and keeps the others. */
  function CleanDirtyFlag(c: Config, flag: bv32): (r: Config)
    ensures !IsDirty(r, flag)
    ensures r.dirty & !flag == c.dirty & !flag
    ensures r.pref == c.pref && r.saves == c.saves
  {
    c.(dirty := c.dirty & !flag)
  }

  /** `ResetDirty` clears every bit. */
  function ResetDirty(c: Config): (r: Config)
    ensures forall f: bv32 :: !IsDirty(r, f)
    ensures r.pref == c.pref && r.saves == c.saves
  {
    c.(dirty := Clean)
  }

  /** The three sampling setters share the single `DirtySampling` bit: after
      cleaning it, any one of them that changes a value makes it dirty again. */
  lemma SamplingSettersShareOneBit(c: Config, minS: int, maxS: int, v: real)
    ensures c.pref.minSamples != minS ==> IsDirty(SetMinSamples(CleanDirtyFlag(c, DirtySampling), minS), DirtySampling)
    ensures c.pref.maxSamples != maxS ==> IsDirty(SetMaxSamples(CleanDirtyFlag(c, DirtySampling), maxS), DirtySampling)
    ensures c.pref.variance != v ==> IsDirty(SetVariance(CleanDirtyFlag(c, DirtySampling), v), DirtySampling)
  {
  }

  /** Setting a value equal to the stored one never dirties anything. */
  lemma SetSameValueIsNoOp(c: Config)
    ensures SetRenderDevice(c, c.pref.renderDevice) == c
    ensures SetPlugin(c, c.pref.plugin) == c
    ensures SetHybridQuality(c, c.pref.hybridQuality) == c
    ensures SetDenoising(c, c.pref.enableDenoising) == c
    ensures SetMinSamples(c, c.pref.minSamples) == c
    ensures SetMaxSamples(c, c.pref.maxSamples) == c
    ensures SetVariance(c, c.pref.variance) == c
  {
  }

  /** Validity is kept by setters given in-range arguments. */
  lemma SettersPreserveValidity(c: Config, d: int, p: int)
    requires IsValid(c.pref)
    requires DeviceCpu <= d <= DeviceGpu && PluginTahoe <= p <= PluginHybrid
    ensures IsValid(SetPlugin(SetRenderDevice(c, d), p).pref)
  {
  }

  /** An out-of-range device makes the record invalid, so a later `Load` of
      it falls back to the defaults. */
  lemma InvalidDeviceRejected(c: Config)
    ensures !IsValid(SetRenderDevice(c, DeviceNone).pref)
    ensures Create(Some(SetRenderDevice(c, DeviceNone).pref)).pref == Defaults
  {
  }
}
