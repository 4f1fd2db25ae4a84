/** The render-device configuration of rprUsd/devicesConfiguration.py:
    per-plugin CPU and GPU choices, their JSON form, defaults and the
    staleness and completeness checks. */
module DevicesConfig {
  import opened Wrappers

  /** The JSON values the configuration file holds. */
  datatype Json =
    | JBool(b: bool)
    | JInt(i: int)
    | JString(s: string)
    | JObject(fields: map<string, Json>)
    | JArray(items: seq<Json>)

  /** `RprUsd.PluginType` without the invalid value (`allValues[1:]`). */
  datatype PluginType = Tahoe | Northstar | Hybrid

  /** The enum name the file stores. */
  function PluginName(t: PluginType): string {
    match t
    case Tahoe => "kPluginTahoe"
    case Northstar => "kPluginNorthstar"
    case Hybrid => "kPluginHybrid"
  }

  /** `PluginType.GetValueFromName`. */
  function PluginFromName(name: string): (r: Option<PluginType>)
    ensures r.Some? ==> PluginName(r.value) == name
  {
    if name == "kPluginTahoe" then Some(Tahoe)
    else if name == "kPluginNorthstar" then Some(Northstar)
    else if name == "kPluginHybrid" then Some(Hybrid)
    else None
  }

  datatype GpuInfo = GpuInfo(index: int, name: string)
  datatype CpuInfo = CpuInfo(numThreads: int)
  datatype DevicesInfo = DevicesInfo(cpu: CpuInfo, gpus: seq<GpuInfo>)

  datatype GpuConfig = GpuConfig(isEnabled: bool, gpuInfo: GpuInfo)
  datatype CpuConfig = CpuConfig(numActiveThreads: int, cpuInfo: CpuInfo)
  datatype PluginConfig = PluginConfig(pluginType: PluginType, cpuConfig: CpuConfig, gpuConfigs: seq<GpuConfig>)

  /** Reading a key of an object; a missing key (`KeyError`) or a
      non-object gives None. */
  function Field(j: Json, key: string): (r: Option<Json>)
    ensures r.Some? <==> j.JObject? && key in j.fields
  {
    if j.JObject? && key in j.fields then Some(j.fields[key]) else None
  }

  /** The `serialize` dictionary of a GPU choice: exactly the two keys,
      and it reads back as the same choice. */
  function SerializeGpu(g: GpuConfig): (r: Json)
    ensures r.JObject? && r.fields.Keys == {"is_enabled", "gpu_info"}
    ensures DeserializeGpu(r) == Some(g)
  {
    JObject(map["is_enabled" := JBool(g.isEnabled),
                "gpu_info" := JObject(map["index" := JInt(g.gpuInfo.index), "name" := JString(g.gpuInfo.name)])])
  }

  function DeserializeGpu(j: Json): (r: Option<GpuConfig>)
    ensures r.Some? ==> Field(j, "is_enabled").Some? && Field(j, "gpu_info").Some?
  {
    match (Field(j, "is_enabled"), Field(j, "gpu_info"))
    case (Some(JBool(e)), Some(info)) =>
      (match (Field(info, "index"), Field(info, "name"))
       case (Some(JInt(i)), Some(JString(n))) => Some(GpuConfig(e, GpuInfo(i, n)))
       case _ => None)
    case _ => None
  }

  lemma GpuRoundTrip(g: GpuConfig)
    ensures DeserializeGpu(SerializeGpu(g)) == Some(g)
  {
  }

  /** The `serialize` dictionary of a CPU choice: exactly the two keys,
      and it reads back as the same choice. */
  function SerializeCpu(c: CpuConfig): (r: Json)
    ensures r.JObject? && r.fields.Keys == {"num_active_threads", "cpu_info"}
    ensures DeserializeCpu(r) == Some(c)
  {
    JObject(map["num_active_threads" := JInt(c.numActiveThreads),
                "cpu_info" := JObject(map["num_threads" := JInt(c.cpuInfo.numThreads)])])
  }

  function DeserializeCpu(j: Json): (r: Option<CpuConfig>)
    ensures r.Some? ==> Field(j, "num_active_threads").Some? && Field(j, "cpu_info").Some?
  {
    match (Field(j, "num_active_threads"), Field(j, "cpu_info"))
    case (Some(JInt(n)), Some(info)) =>
      (match Field(info, "num_threads")
       case Some(JInt(t)) => Some(CpuConfig(n, CpuInfo(t)))
       case _ => None)
    case _ => None
  }

  lemma CpuRoundTrip(c: CpuConfig)
    ensures DeserializeCpu(SerializeCpu(c)) == Some(c)
  {
  }

  function SerializeGpus(gs: seq<GpuConfig>): (r: seq<Json>)
    ensures |r| == |gs|
    ensures forall k :: 0 <= k < |gs| ==> r[k] == SerializeGpu(gs[k])
  {
    if |gs| == 0 then [] else SerializeGpus(gs[..|gs| - 1]) + [SerializeGpu(gs[|gs| - 1])]
  }

  /** The list comprehension over `gpu_configs`: any bad entry fails the
      whole list. */
  function DeserializeGpus(js: seq<Json>): (r: Option<seq<GpuConfig>>)
    ensures r.Some? ==> |r.value| == |js| && forall k :: 0 <= k < |js| ==> DeserializeGpu(js[k]) == Some(r.value[k])
  {
    if |js| == 0 then Some([])
    else
      match (DeserializeGpus(js[..|js| - 1]), DeserializeGpu(js[|js| - 1]))
      case (Some(front), Some(g)) => Some(front + [g])
      case _ => None
  }

  lemma {:induction false} GpusRoundTrip(gs: seq<GpuConfig>)
    ensures DeserializeGpus(SerializeGpus(gs)) == Some(gs)
  {
    if |gs| > 0 {
      var n := |gs| - 1;
      var js := SerializeGpus(gs);
      assert js[..n] == SerializeGpus(gs[..n]);
      GpusRoundTrip(gs[..n]);
      GpuRoundTrip(gs[n]);
      assert gs[..n] + [gs[n]] == gs;
    }
  }

  /** The `serialize` dictionary of a plugin's configuration: the three
      keys, the plugin's enum name, the CPU choice that reads back, and one
      entry per GPU. */
  function SerializePlugin(p: PluginConfig): (r: Json)
    ensures r.JObject? && r.fields.Keys == {"plugin_type", "cpu_config", "gpu_configs"}
    ensures r.fields["plugin_type"].JString? && PluginFromName(r.fields["plugin_type"].s) == Some(p.pluginType)
    ensures DeserializeCpu(r.fields["cpu_config"]) == Some(p.cpuConfig)
    ensures r.fields["gpu_configs"].JArray? && |r.fields["gpu_configs"].items| == |p.gpuConfigs|
  {
    JObject(map["plugin_type" := JString(PluginName(p.pluginType)),
                "cpu_config" := SerializeCpu(p.cpuConfig),
                "gpu_configs" := JArray(SerializeGpus(p.gpuConfigs))])
  }

  function DeserializePlugin(j: Json): (r: Option<PluginConfig>)
    ensures r.Some? ==> Field(j, "plugin_type").Some? && Field(j, "cpu_config").Some? && Field(j, "gpu_configs").Some?
  {
    match (Field(j, "plugin_type"), Field(j, "cpu_config"), Field(j, "gpu_configs"))
    case (Some(JString(name)), Some(cpu), Some(JArray(gpus))) =>
      (match (PluginFromName(name), DeserializeCpu(cpu), DeserializeGpus(gpus))
       case (Some(t), Some(c), Some(gs)) => Some(PluginConfig(t, c, gs))
       case _ => None)
    case _ => None
  }

  /** deserialize(serialize(x)) == x for a plugin's configuration. */
  lemma PluginRoundTrip(p: PluginConfig)
    ensures DeserializePlugin(SerializePlugin(p)) == Some(p)
  {
    PluginFields(p);
    CpuRoundTrip(p.cpuConfig);
    GpusRoundTrip(p.gpuConfigs);
    DeserializePluginOf(SerializePlugin(p), p.pluginType, p.cpuConfig, p.gpuConfigs);
  }

  /** Reading a plugin configuration whose three fields read back. */
  lemma DeserializePluginOf(j: Json, t: PluginType, c: CpuConfig, gs: seq<GpuConfig>)
    requires Field(j, "plugin_type") == Some(JString(PluginName(t)))
    requires Field(j, "cpu_config").Some? && DeserializeCpu(Field(j, "cpu_config").value) == Some(c)
    requires Field(j, "gpu_configs").Some? && Field(j, "gpu_configs").value.JArray?
    requires DeserializeGpus(Field(j, "gpu_configs").value.items) == Some(gs)
    ensures DeserializePlugin(j) == Some(PluginConfig(t, c, gs))
  {
    assert PluginFromName(PluginName(t)) == Some(t);
  }

  /** The three keys a serialized plugin configuration holds. */
  lemma PluginFields(p: PluginConfig)
    ensures Field(SerializePlugin(p), "plugin_type") == Some(JString(PluginName(p.pluginType)))
    ensures Field(SerializePlugin(p), "cpu_config") == Some(SerializeCpu(p.cpuConfig))
    ensures Field(SerializePlugin(p), "gpu_configs") == Some(JArray(SerializeGpus(p.gpuConfigs)))
  {
  }

  /** `deepcopy`: a field-by-field copy.  Configurations are values here,
      so the copy is the identity; the member only mirrors `copy.deepcopy`
      and records that the copy loses and adds nothing. */
  function DeepCopy(p: PluginConfig): (r: PluginConfig)
    ensures r == p
  {
    PluginConfig(p.pluginType, CpuConfig(p.cpuConfig.numActiveThreads, p.cpuConfig.cpuInfo),
                 seq(|p.gpuConfigs|, i requires 0 <= i < |p.gpuConfigs| => GpuConfig(p.gpuConfigs[i].isEnabled, p.gpuConfigs[i].gpuInfo)))
  }

  function GpuInfos(gs: seq<GpuConfig>): (r: seq<GpuInfo>)
    ensures |r| == |gs| && forall k :: 0 <= k < |gs| ==> r[k] == gs[k].gpuInfo
  {
    seq(|gs|, i requires 0 <= i < |gs| => gs[i].gpuInfo)
  }

  /** `default` as written. Its CPU branch reads `cpu.num_threads`, an
      attribute the device-info binding does not have (it exposes
      `numThreads`), so a plugin without GPUs raises `AttributeError`. */
  function DefaultAsWritten(t: PluginType, info: DevicesInfo): (r: Result<PluginConfig, string>)
    ensures r.Failure? <==> |info.gpus| == 0
  {
    var gpus := seq(|info.gpus|, i requires 0 <= i < |info.gpus| => GpuConfig(i == 0, info.gpus[i]));
    if |gpus| == 0 then Failure("AttributeError: num_threads")
    else Success(PluginConfig(t, CpuConfig(0, info.cpu), gpus))
  }

  /** The default as evidently intended: only the first GPU is enabled, and
      the CPU gets all its threads only when there is no GPU. */
  function Default(t: PluginType, info: DevicesInfo): (r: PluginConfig)
    ensures r.pluginType == t && r.cpuConfig.cpuInfo == info.cpu
    ensures GpuInfos(r.gpuConfigs) == info.gpus
    ensures forall k :: 0 <= k < |r.gpuConfigs| ==> (r.gpuConfigs[k].isEnabled <==> k == 0)
    ensures r.cpuConfig.numActiveThreads == (if |info.gpus| == 0 then info.cpu.numThreads else 0)
  {
    var gpus := seq(|info.gpus|, i requires 0 <= i < |info.gpus| => GpuConfig(i == 0, info.gpus[i]));
    PluginConfig(t, CpuConfig(if |gpus| == 0 then info.cpu.numThreads else 0, info.cpu), gpus)
  }

  /** Where the written default does return, it is the intended one. */
  lemma DefaultAgreesWithGpus(t: PluginType, info: DevicesInfo)
    requires |info.gpus| > 0
    ensures DefaultAsWritten(t, info) == Success(Default(t, info))
  {
  }

  /** The completeness rule of the settings dialog: some CPU threads or
      some enabled GPU. */
  function IsComplete(p: PluginConfig): (ok: bool)
    ensures p.cpuConfig.numActiveThreads > 0 ==> ok
    ensures (exists g <- p.gpuConfigs :: g.isEnabled) ==> ok
    ensures ok && p.cpuConfig.numActiveThreads <= 0 ==> exists g <- p.gpuConfigs :: g.isEnabled
  {
    p.cpuConfig.numActiveThreads > 0 || exists k :: 0 <= k < |p.gpuConfigs| && p.gpuConfigs[k].isEnabled
  }

  /** A default configuration is complete exactly when the plugin sees a
      GPU or a CPU with threads. */
  lemma DefaultCompleteness(t: PluginType, info: DevicesInfo)
    ensures IsComplete(Default(t, info)) <==> |info.gpus| > 0 || info.cpu.numThreads > 0
  {
    var d := Default(t, info);
    if |info.gpus| > 0 {
      assert d.gpuConfigs[0].isEnabled;
    }
  }

  /** Whether a stored configuration no longer matches the devices found:
      None when a plugin is not among the detected ones (`KeyError`). */
  function IsOutdated(configs: seq<PluginConfig>, devices: map<PluginType, DevicesInfo>): (r: Option<bool>)
    ensures r == Some(false) <==>
      forall k :: 0 <= k < |configs| ==> (configs[k].pluginType in devices &&
        configs[k].cpuConfig.cpuInfo == devices[configs[k].pluginType].cpu &&
        GpuInfos(configs[k].gpuConfigs) == devices[configs[k].pluginType].gpus)
  {
    if |configs| == 0 then Some(false)
    else
      var p := configs[0];
      if p.pluginType !in devices then None
      else if p.cpuConfig.cpuInfo == devices[p.pluginType].cpu && GpuInfos(p.gpuConfigs) == devices[p.pluginType].gpus
      then
        var rest := IsOutdated(configs[1..], devices);
        assert forall k :: 1 <= k < |configs| ==> configs[k] == configs[1..][k - 1];
        rest
      else Some(true)
  }

  /** Defaults built from the detected devices are never outdated. */
  lemma {:induction false} DefaultsAreCurrent(types: seq<PluginType>, devices: map<PluginType, DevicesInfo>)
    requires forall k :: 0 <= k < |types| ==> types[k] in devices
    ensures IsOutdated(seq(|types|, i requires 0 <= i < |types| => Default(types[i], devices[types[i]])), devices) == Some(false)
  {
  }
}
