/** `HdRprPreferences` (hdRpr/rprApi.cpp): the older preferences singleton
    with a single dirty boolean and a separate filter-dirty boolean.  Unlike
    `HdRprConfig`, only the hybrid-quality and plugin setters are change-only. */
module HdRprPreferences {
  import opened Wrappers

  const DeviceCpu: int := 0
  const DeviceGpu: int := 1
  const PluginTahoe: int := 0
  const QualityLow: int := 0
  const QualityMedium: int := 1
  const QualityHigh: int := 2
  const AovNone: int := -1
  const AovColor: int := 0

  datatype PrefData = PrefData(aov: int, renderDevice: int, hybridQuality: int, plugin: int, enableDenoising: bool)

  /** The singleton; `saves` counts calls to `Save`. */
  datatype Prefs = Prefs(data: PrefData, isDirty: bool, isFilterDirty: bool, saves: nat)

  /** `IsValid`: the device lies in [FIRST, LAST] and the AOV in [NONE, LAST];
      the AOV enum is not part of this model, so its last value is `aovLast`. */
  function IsValid(d: PrefData, aovLast: int): (ok: bool)
    ensures ok ==> d.renderDevice in {DeviceCpu, DeviceGpu} && d.aov >= AovNone
    ensures d.aov == AovNone && d.renderDevice in {DeviceCpu, DeviceGpu} && aovLast >= AovNone ==> ok
    ensures d == Defaults && aovLast >= AovColor ==> ok
  {
    DeviceCpu <= d.renderDevice <= DeviceGpu && AovNone <= d.aov <= aovLast
  }

  /** `SetDefault`. */
  const Defaults: PrefData := PrefData(AovColor, DeviceGpu, QualityLow, PluginTahoe, true)

  /** The constructor: a valid loaded record or the defaults; both flags
      start dirty. */
  function Create(loaded: Option<PrefData>, aovLast: int): (p: Prefs)
    requires aovLast >= AovColor
    ensures IsValid(p.data, aovLast) && p.isDirty && p.isFilterDirty && p.saves == 0
    ensures (loaded.None? || !IsValid(loaded.value, aovLast)) ==> p.data == Defaults
    ensures loaded.Some? && IsValid(loaded.value, aovLast) ==> p.data == loaded.value
  {
    var d := if loaded.Some? && IsValid(loaded.value, aovLast) then loaded.value else Defaults;
    Prefs(d, true, true, 0)
  }

  /** `SetAov`: always stores, saves and marks dirty. */
  function SetAov(p: Prefs, aov: int): (r: Prefs)
    ensures r.data == p.data.(aov := aov) && r.isDirty && r.saves == p.saves + 1
    ensures r.isFilterDirty == p.isFilterDirty
  {
    p.(data := p.data.(aov := aov), isDirty := true, saves := p.saves + 1)
  }

  /** `SetRenderDevice`: always stores, saves and marks dirty. */
  function SetRenderDevice(p: Prefs, d: int): (r: Prefs)
    ensures r.data == p.data.(renderDevice := d) && r.isDirty && r.saves == p.saves + 1
    ensures r.isFilterDirty == p.isFilterDirty
  {
    p.(data := p.data.(renderDevice := d), isDirty := true, saves := p.saves + 1)
  }

  /** `SetHybridQuality`: stores, saves and marks dirty only on a new value. */
  function SetHybridQuality(p: Prefs, q: int): (r: Prefs)
    ensures r.data.hybridQuality == q
    ensures r != p <==> p.data.hybridQuality != q
    ensures p.data.hybridQuality != q ==> r == p.(data := p.data.(hybridQuality := q), isDirty := true, saves := p.saves + 1)
  {
    if p.data.hybridQuality != q then p.(data := p.data.(hybridQuality := q), isDirty := true, saves := p.saves + 1)
    else p
  }

  /** `GetHybridQuality`: MEDIUM is reported as HIGH. */
  function GetHybridQuality(p: Prefs): (q: int)
    ensures q != QualityMedium
    ensures p.data.hybridQuality != QualityMedium ==> q == p.data.hybridQuality
  {
    if p.data.hybridQuality == QualityMedium then QualityHigh else p.data.hybridQuality
  }

  /** `SetPlugin`: stores, saves and marks dirty only on a new value. */
  function SetPlugin(p: Prefs, plugin: int): (r: Prefs)
    ensures r.data.plugin == plugin
    ensures r != p <==> p.data.plugin != plugin
    ensures p.data.plugin != plugin ==> r == p.(data := p.data.(plugin := plugin), isDirty := true, saves := p.saves + 1)
  {
    if p.data.plugin != plugin then p.(data := p.data.(plugin := plugin), isDirty := true, saves := p.saves + 1)
    else p
  }

  /** `SetDenoising`: stores and marks the filter dirty, without saving and
      without touching the general dirty flag. */
  function SetDenoising(p: Prefs, enable: bool): (r: Prefs)
    ensures r.data == p.data.(enableDenoising := enable)
    ensures r.isFilterDirty && r.isDirty == p.isDirty && r.saves == p.saves
  {
    p.(data := p.data.(enableDenoising := enable), isFilterDirty := true)
  }

  /** The device setter keeps validity for an in-range device, whatever the
      other setters did. */
  lemma SettersPreserveValidity(p: Prefs, d: int, q: int, plugin: int, aovLast: int)
    requires IsValid(p.data, aovLast) && DeviceCpu <= d <= DeviceGpu
    ensures IsValid(SetPlugin(SetHybridQuality(SetRenderDevice(p, d), q), plugin).data, aovLast)
  {
  }
}
