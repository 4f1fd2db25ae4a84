/** The build-time generator of the render-settings class
    (hdRpr/python/generateRenderSettingFiles.py) and the run-time behaviour of
    the C++ it emits.  A settings table is a list of categories; each category
    gets its own dirty bit and each setting gets a setter that range-checks its
    argument, stores it only when it differs, saves the preferences and raises
    the category bit.

    Numbers are modelled as `real`: the generated C++ uses `int` or `float`
    according to the Python type of the default, and the distinction does not
    change any comparison made here. */
module SettingsGenerator {
  import opened Wrappers

  /** A setting's value as seen by the generated class. */
  datatype Value = BoolV(b: bool) | NumV(n: real) | TokenV(t: string)

  /** One row of a category's `settings` list. */
  datatype Setting = Setting(
    name: string,
    uiName: Option<string>,
    default: Value,
    values: Option<seq<string>>,
    minValue: Option<real>,
    maxValue: Option<real>)

  datatype Category = Category(name: string, disabledPlatforms: seq<string>, settings: seq<Setting>)

  /** The body emitted for `Set<Name>`: a platform no-op, or a checked store
      that raises the dirty bit with the given index. */
  datatype SetterBody = NoOp | Checked(min: Option<real>, max: Option<real>, dirtyBit: nat)

  /** Everything the generator emits for one setting. */
  datatype Generated = Generated(
    name: string,
    nameTitle: string,
    enumType: Option<string>,
    enumMembers: seq<string>,
    default: Value,
    min: Option<real>,
    max: Option<real>,
    descriptor: Option<string>,
    body: SetterBody)

  // ---------------------------------------------------------------------------
  // Name mangling

  function ToUpperAscii(c: char): (r: char)
    ensures 'a' <= c <= 'z' ==> 'A' <= r <= 'Z' && r as int - c as int == 'A' as int - 'a' as int
    ensures !('a' <= c <= 'z') ==> r == c
  {
    if 'a' <= c <= 'z' then (c as int - 'a' as int + 'A' as int) as char else c
  }

  /** `camel_case_capitalize`: only the first character is upper-cased.  The
      Python indexes `w[0]`, so an empty name raises; the generator is never
      given one. */
  function CamelCaseCapitalize(w: string): (r: string)
    requires |w| > 0
    ensures |r| == |w|
    ensures r[0] == ToUpperAscii(w[0])
    ensures r[1..] == w[1..]
  {
    [ToUpperAscii(w[0])] + w[1..]
  }

  // ---------------------------------------------------------------------------
  // Generation

  function IsDisabled(c: Category, platform: string): bool {
    platform in c.disabledPlatforms
  }

  /** The bounds a setting's setter checks: an enumerated setting is bounded
      by the indexes of its values, any other by its own min/max, if given. */
  function Bounds(s: Setting): (r: (Option<real>, Option<real>))
    ensures s.values.Some? ==> r == (Some(0.0), Some((|s.values.value| - 1) as real))
    ensures s.values.None? ==> r == (s.minValue, s.maxValue)
  {
    if s.values.Some? then (Some(0.0), Some((|s.values.value| - 1) as real))
    else (s.minValue, s.maxValue)
  }

  function EnumMembers(nameTitle: string, values: seq<string>): (r: seq<string>)
    ensures |r| == |values|
    ensures forall i :: 0 <= i < |values| ==> r[i] == "k" + nameTitle + values[i]
  {
    if values == [] then []
    else ["k" + nameTitle + values[0]] + EnumMembers(nameTitle, values[1..])
  }

  /** What the generator emits for one setting: its name and capitalised
      title, an enum type with one member per value for an enumerated
      setting, its default and UI name, its bounds, and a checked setter on
      the category's dirty bit unless the platform disables it. */
  function GenerateSetting(s: Setting, dirtyBit: nat, disabled: bool): (g: Generated)
    requires |s.name| > 0
    ensures g.name == s.name && g.nameTitle == CamelCaseCapitalize(s.name)
    ensures g.default == s.default && g.descriptor == s.uiName
    ensures (g.min, g.max) == Bounds(s)
    ensures g.enumType.Some? <==> s.values.Some?
    ensures s.values.Some? ==> g.enumType == Some(g.nameTitle + "Type") && |g.enumMembers| == |s.values.value|
    ensures s.values.None? ==> g.enumMembers == []
    ensures g.body.NoOp? <==> disabled
    ensures !disabled ==> g.body == Checked(g.min, g.max, dirtyBit)
  {
    var title := CamelCaseCapitalize(s.name);
    var (lo, hi) := Bounds(s);
    Generated(
      s.name,
      title,
      if s.values.Some? then Some(title + "Type") else None,
      if s.values.Some? then EnumMembers(title, s.values.value) else [],
      s.default,
      lo, hi,
      s.uiName,
      if disabled then NoOp else Checked(lo, hi, dirtyBit))
  }

  /** Every setting of the category has a name. */
  predicate SettingsNamed(c: Category) {
    forall s <- c.settings :: |s.name| > 0
  }

  predicate NamesNonEmpty(cats: seq<Category>) {
    forall i :: 0 <= i < |cats| ==> SettingsNamed(cats[i])
  }

  function GenerateSettings(ss: seq<Setting>, dirtyBit: nat, disabled: bool): (r: seq<Generated>)
    requires forall s <- ss :: |s.name| > 0
    ensures |r| == |ss|
    ensures forall j :: 0 <= j < |ss| ==> r[j] == GenerateSetting(ss[j], dirtyBit, disabled)
  {
    if ss == [] then []
    else [GenerateSetting(ss[0], dirtyBit, disabled)] + GenerateSettings(ss[1..], dirtyBit, disabled)
  }

  function CountSettings(cats: seq<Category>): nat {
    if cats == [] then 0 else |cats[0].settings| + CountSettings(cats[1..])
  }

  /** The generator's loop from category `cats[0]` on, with `offset` the
      dirty-bit index the next category receives. */
  function GenerateFrom(cats: seq<Category>, offset: nat, platform: string): (r: seq<Generated>)
    requires NamesNonEmpty(cats)
    ensures |r| == CountSettings(cats)
    ensures forall k :: 0 <= k < |r| && r[k].body.Checked? ==>
              offset <= r[k].body.dirtyBit < offset + |cats|
  {
    if cats == [] then []
    else
      var c := cats[0];
      GenerateSettings(c.settings, offset, IsDisabled(c, platform))
        + GenerateFrom(cats[1..], offset + 1, platform)
  }

  /** `generate_render_setting_files`: dirty-bit offsets start at 1 (bit 0 is
      the interactive-mode bit) and rise by one per category in table order. */
  function Generate(cats: seq<Category>, platform: string): (r: seq<Generated>)
    requires NamesNonEmpty(cats)
    ensures |r| == CountSettings(cats)
    ensures forall k :: 0 <= k < |r| && r[k].body.Checked? ==> 1 <= r[k].body.dirtyBit <= |cats|
  {
    GenerateFrom(cats, 1, platform)
  }

  /** The number of settings in the categories before `i`. */
  function SettingsBefore(cats: seq<Category>, i: nat): nat
    requires i <= |cats|
  {
    if i == 0 then 0 else SettingsBefore(cats, i - 1) + |cats[i - 1].settings|
  }

  lemma {:induction false} SettingsBeforeBound(cats: seq<Category>, i: nat)
    requires i < |cats|
    ensures SettingsBefore(cats, i) + |cats[i].settings| <= CountSettings(cats)
    decreases i
  {
    if i == 0 {
    } else {
      SettingsBeforeBound(cats[1..], i - 1);
      SettingsBeforeShift(cats, i);
    }
  }

  lemma {:induction false} SettingsBeforeShift(cats: seq<Category>, i: nat)
    requires 0 < i <= |cats|
    ensures SettingsBefore(cats, i) == |cats[0].settings| + SettingsBefore(cats[1..], i - 1)
    decreases i
  {
    if i == 1 {
    } else {
      SettingsBeforeShift(cats, i - 1);
      assert cats[1..][i - 2] == cats[i - 1];
    }
  }

  /** One step of the generator's loop: the first category's settings, then
      the rest with the next dirty bit. */
  lemma GenerateFromStep(cats: seq<Category>, offset: nat, platform: string)
    requires NamesNonEmpty(cats) && |cats| > 0
    ensures NamesNonEmpty(cats[1..])
    ensures GenerateFrom(cats, offset, platform)
         == GenerateSettings(cats[0].settings, offset, IsDisabled(cats[0], platform))
            + GenerateFrom(cats[1..], offset + 1, platform)
  {
  }

  /** The first category's settings open the generated list. */
  lemma GeneratedHead(cats: seq<Category>, offset: nat, platform: string, j: nat)
    requires NamesNonEmpty(cats) && |cats| > 0 && j < |cats[0].settings|
    ensures j < CountSettings(cats)
    ensures GenerateFrom(cats, offset, platform)[j]
         == GenerateSetting(cats[0].settings[j], offset, IsDisabled(cats[0], platform))
  {
    GenerateFromStep(cats, offset, platform);
  }

  /** After the first category's settings come the rest's, one dirty bit on. */
  lemma GeneratedTail(cats: seq<Category>, offset: nat, platform: string, k: nat, idx: nat)
    requires NamesNonEmpty(cats) && |cats| > 0 && k < CountSettings(cats[1..])
    requires idx == |cats[0].settings| + k
    ensures NamesNonEmpty(cats[1..])
    ensures idx < CountSettings(cats)
    ensures GenerateFrom(cats, offset, platform)[idx]
         == GenerateFrom(cats[1..], offset + 1, platform)[k]
  {
    GenerateFromStep(cats, offset, platform);
  }

  /** Setting `j` of category `i` is generated with category `i`'s dirty bit,
      `offset + i`, and a no-op body exactly when that category is disabled
      on the platform. */
  lemma {:induction false} CategoryBitOfSetting(cats: seq<Category>, offset: nat, platform: string, i: nat, j: nat)
    requires NamesNonEmpty(cats)
    requires i < |cats| && j < |cats[i].settings|
    ensures SettingsBefore(cats, i) + j < CountSettings(cats)
    ensures GenerateFrom(cats, offset, platform)[SettingsBefore(cats, i) + j]
         == GenerateSetting(cats[i].settings[j], offset + i, IsDisabled(cats[i], platform))
    decreases i, 2
  {
    SettingsBeforeBound(cats, i);
    if i == 0 {
      GeneratedHead(cats, offset, platform, j);
    } else {
      CategoryBitOfLaterSetting(cats, offset, platform, i, j);
    }
  }

  /** The step of `CategoryBitOfSetting` past the first category. */
  lemma {:induction false} CategoryBitOfLaterSetting(cats: seq<Category>, offset: nat, platform: string, i: nat, j: nat)
    requires NamesNonEmpty(cats)
    requires 0 < i < |cats| && j < |cats[i].settings|
    ensures SettingsBefore(cats, i) + j < CountSettings(cats)
    ensures GenerateFrom(cats, offset, platform)[SettingsBefore(cats, i) + j]
         == GenerateSetting(cats[i].settings[j], offset + i, IsDisabled(cats[i], platform))
    decreases i, 1
  {
    SettingInRest(cats, offset, platform, i, j);
    var k := SettingsBefore(cats[1..], i - 1) + j;
    SettingsBeforeShift(cats, i);
    GeneratedTail(cats, offset, platform, k, SettingsBefore(cats, i) + j);
  }

  /** Setting `j` of category `i > 0` is where the rest of the table puts
      it, generated with the next offset. */
  lemma {:induction false} SettingInRest(cats: seq<Category>, offset: nat, platform: string, i: nat, j: nat)
    requires NamesNonEmpty(cats)
    requires 0 < i < |cats| && j < |cats[i].settings|
    ensures NamesNonEmpty(cats[1..])
    ensures SettingsBefore(cats[1..], i - 1) + j < CountSettings(cats[1..])
    ensures GenerateFrom(cats[1..], offset + 1, platform)[SettingsBefore(cats[1..], i - 1) + j]
         == GenerateSetting(cats[i].settings[j], offset + i, IsDisabled(cats[i], platform))
    decreases i, 0
  {
    var rest := cats[1..];
    assert NamesNonEmpty(rest);
    assert rest[i - 1] == cats[i];
    SettingNameNonEmpty(cats, i, j);
    CategoryBitOfSetting(rest, offset + 1, platform, i - 1, j);
    GenerateSettingCongruent(rest[i - 1].settings[j], cats[i].settings[j], (offset + 1) + (i - 1), offset + i,
                             IsDisabled(rest[i - 1], platform), IsDisabled(cats[i], platform));
  }

  lemma GenerateSettingCongruent(s1: Setting, s2: Setting, bit1: nat, bit2: nat, d1: bool, d2: bool)
    requires s1 == s2 && bit1 == bit2 && d1 == d2 && |s1.name| > 0
    ensures GenerateSetting(s1, bit1, d1) == GenerateSetting(s2, bit2, d2)
  {
  }

  /** Every setting of a table whose names are non-empty has a non-empty name. */
  lemma SettingNameNonEmpty(cats: seq<Category>, i: nat, j: nat)
    requires NamesNonEmpty(cats)
    requires i < |cats| && j < |cats[i].settings|
    ensures |cats[i].settings[j].name| > 0
  {
    assert SettingsNamed(cats[i]);
    assert cats[i].settings[j] in cats[i].settings;
  }

  /** Only settings with a UI name produce a render-setting descriptor. */
  function Descriptors(gs: seq<Generated>): (r: seq<string>)
    ensures |r| <= |gs|
    ensures forall d :: d in r <==> exists k :: 0 <= k < |gs| && gs[k].descriptor == Some(d)
  {
    if gs == [] then []
    else
      var rest := Descriptors(gs[1..]);
      assert forall d :: (exists k :: 0 <= k < |gs[1..]| && gs[1..][k].descriptor == Some(d))
                     <==> (exists k :: 1 <= k < |gs| && gs[k].descriptor == Some(d)) by {
        forall d | exists k :: 1 <= k < |gs| && gs[k].descriptor == Some(d)
          ensures exists k :: 0 <= k < |gs[1..]| && gs[1..][k].descriptor == Some(d)
        {
          var k :| 1 <= k < |gs| && gs[k].descriptor == Some(d);
          assert gs[1..][k - 1] == gs[k];
        }
      }
      match gs[0].descriptor
      case Some(d) => [d] + rest
      case None => rest
  }

  // ---------------------------------------------------------------------------
  // Run-time behaviour of the generated class

  /** `m_prefData` (the setting values plus `enableInteractive`), the dirty
      bitset, the number of `Save` calls and the last synced settings version. */
  datatype Config = Config(
    values: map<string, Value>,
    interactive: bool,
    dirty: bv32,
    saves: nat,
    lastVersion: int)

  const Clean: bv32 := 0
  const DirtyAll: bv32 := 0xFFFF_FFFF
  const DirtyInteractiveMode: bv32 := 1

  /** The dirty flag of bit `n`, `1 << n`, built one doubling at a time. */
  function Bit(n: nat): (r: bv32)
    requires n < 32
  {
    if n == 0 then 1 else Bit(n - 1) << 1
  }

  predicate Below(v: Value, bound: real) {
    v.NumV? && v.n < bound
  }

  predicate Above(v: Value, bound: real) {
    v.NumV? && v.n > bound
  }

  /** The argument passes the generated `if (x < kMin) return; if (x > kMax) return;`. */
  predicate InRange(min: Option<real>, max: Option<real>, v: Value) {
    (min.Some? ==> !Below(v, min.value)) && (max.Some? ==> !Above(v, max.value))
  }

  /** `Set<Name>(v)` on a generated setting. */
  function Set(cfg: Config, g: Generated, v: Value): (r: Config)
    requires g.name in cfg.values
    requires g.body.Checked? ==> g.body.dirtyBit < 32
    ensures r != cfg <==> g.body.Checked? && InRange(g.body.min, g.body.max, v) && cfg.values[g.name] != v
    ensures r != cfg ==> r == cfg.(values := cfg.values[g.name := v],
                                   saves := cfg.saves + 1,
                                   dirty := cfg.dirty | Bit(g.body.dirtyBit))
  {
    match g.body
    case NoOp => cfg
    case Checked(min, max, bit) =>
      if min.Some? && Below(v, min.value) then cfg
      else if max.Some? && Above(v, max.value) then cfg
      else if cfg.values[g.name] == v then cfg
      else
        assert bit == g.body.dirtyBit;
        var r := cfg.(values := cfg.values[g.name := v], saves := cfg.saves + 1, dirty := cfg.dirty | Bit(bit));
        assert r.saves != cfg.saves;
        r
  }

  /** `SetInteractiveMode`: change-only, raising bit 0. */
  function SetInteractiveMode(cfg: Config, enable: bool): (r: Config)
    ensures r != cfg <==> cfg.interactive != enable
    ensures r.interactive == enable
    ensures r != cfg ==> r.dirty == cfg.dirty | DirtyInteractiveMode && r.saves == cfg.saves + 1
  {
    if cfg.interactive != enable then
      cfg.(interactive := enable, saves := cfg.saves + 1, dirty := cfg.dirty | DirtyInteractiveMode)
    else cfg
  }

  predicate IsDirty(cfg: Config, flag: bv32) {
    cfg.dirty & flag != 0
  }

  function CleanDirtyFlag(cfg: Config, flag: bv32): (r: Config)
    ensures r.dirty & flag == 0
    ensures r.dirty & !flag == cfg.dirty & !flag
    ensures r.(dirty := cfg.dirty) == cfg
  {
    cfg.(dirty := cfg.dirty & !flag)
  }

  function ResetDirty(cfg: Config): (r: Config)
    ensures forall f: bv32 :: !IsDirty(r, f)
    ensures r.(dirty := cfg.dirty) == cfg
  {
    cfg.(dirty := Clean)
  }

  /** A render-setting value as the render delegate hands it over. */
  datatype Dyn = Int64(i: int) | DBool(b: bool) | DReal(x: real) | DToken(t: string) | DString(s: string) | DEmpty

  /** The `getBoolSetting` helper of `Sync`: an `int64` is read as a boolean
      (non-zero is true), a `bool` as itself; anything else yields the default. */
  function GetBoolSetting(d: Dyn, default: bool): (r: bool)
    ensures d.Int64? ==> (r <==> d.i != 0)
    ensures d.DBool? ==> r == d.b
    ensures !d.Int64? && !d.DBool? ==> r == default
  {
    match d
    case Int64(i) => i != 0
    case DBool(b) => b
    case _ => default
  }

  /** `GetRenderSetting(token, T(default))`: the stored value when it holds the
      setting's type, else the default. */
  function GetTypedSetting(d: Dyn, default: Value): (r: Value)
    ensures r.NumV? <==> default.NumV?
    ensures r.TokenV? <==> default.TokenV?
    ensures r.BoolV? <==> default.BoolV?
    ensures default.NumV? && d.DReal? ==> r == NumV(d.x)
    ensures default.TokenV? && d.DToken? ==> r == TokenV(d.t)
  {
    match (default, d)
    case (NumV(_), DReal(x)) => NumV(x)
    case (TokenV(_), DToken(t)) => TokenV(t)
    case _ => default
  }

  /** The value `Sync` reads for one generated setting: a boolean through
      `getBoolSetting`, anything else through the typed getter, always of the
      default's kind and the default itself when nothing usable is stored. */
  function SyncValue(d: Dyn, g: Generated): (r: Value)
    ensures r.BoolV? <==> g.default.BoolV?
    ensures r.NumV? <==> g.default.NumV?
    ensures r.TokenV? <==> g.default.TokenV?
    ensures d == DEmpty ==> r == g.default
    ensures g.default.BoolV? && d.Int64? ==> r == BoolV(d.i != 0)
  {
    if g.default.BoolV? then BoolV(GetBoolSetting(d, g.default.b)) else GetTypedSetting(d, g.default)
  }

  /** What a render delegate offers `Sync`: its settings version and settings. */
  datatype Delegate = Delegate(version: int, settings: map<string, Dyn>)

  function Lookup(dl: Delegate, name: string): Dyn {
    if name in dl.settings then dl.settings[name] else DEmpty
  }

  /** `houdini:interactive` (default "normal") selects interactive mode when
      it is anything but "normal". */
  function InteractiveRequested(dl: Delegate): (r: bool)
    ensures r <==> Lookup(dl, "houdini:interactive").DString? && Lookup(dl, "houdini:interactive").s != "normal"
  {
    match Lookup(dl, "houdini:interactive")
    case DString(s) => s != "normal"
    case _ => false
  }

  predicate Consistent(cfg: Config, gs: seq<Generated>) {
    forall k :: 0 <= k < |gs| ==> gs[k].name in cfg.values && (gs[k].body.Checked? ==> gs[k].body.dirtyBit < 32)
  }

  /** No generated setting of `gs` is named `n`. */
  predicate NotNamed(gs: seq<Generated>, n: string) {
    forall j :: 0 <= j < |gs| ==> gs[j].name != n
  }

  /** Setting `k` is the only one of `gs` with its name. */
  predicate NamedOnce(gs: seq<Generated>, k: nat)
    requires k < |gs|
  {
    forall j :: 0 <= j < |gs| && j != k ==> gs[j].name != gs[k].name
  }

  /** The value one setting holds after its `Set` call in `Sync`: the
      delegate's value when the setter accepts it, else the old one. */
  function SyncedValue(cfg: Config, g: Generated, dl: Delegate): (v: Value)
    requires g.name in cfg.values
    ensures !g.body.Checked? ==> v == cfg.values[g.name]
    ensures g.body.Checked? && InRange(g.body.min, g.body.max, SyncValue(Lookup(dl, g.name), g)) ==>
      v == SyncValue(Lookup(dl, g.name), g)
    ensures g.body.Checked? && !InRange(g.body.min, g.body.max, SyncValue(Lookup(dl, g.name), g)) ==>
      v == cfg.values[g.name]
  {
    var d := SyncValue(Lookup(dl, g.name), g);
    if g.body.Checked? && InRange(g.body.min, g.body.max, d) then d else cfg.values[g.name]
  }

  /** The generated loop of `Sync` over the settings: each setting's setter
      is called with the delegate's value. What each setting ends with and
      which dirty bits are raised is stated by the lemmas below. */
  function SyncSettings(cfg: Config, gs: seq<Generated>, dl: Delegate): (r: Config)
    requires Consistent(cfg, gs)
    ensures r.values.Keys == cfg.values.Keys
    ensures r.interactive == cfg.interactive && r.lastVersion == cfg.lastVersion
    ensures Consistent(r, gs)
    decreases |gs|
  {
    if gs == [] then cfg
    else
      var c1 := Set(cfg, gs[0], SyncValue(Lookup(dl, gs[0].name), gs[0]));
      assert Consistent(c1, gs[1..]) by {
        forall k | 0 <= k < |gs[1..]| ensures gs[1..][k].name in c1.values {
          assert gs[1..][k] == gs[k + 1];
        }
      }
      var r := SyncSettings(c1, gs[1..], dl);
      assert Consistent(r, gs) by {
        forall k | 0 <= k < |gs| ensures gs[k].name in r.values {
          assert gs[k].name in cfg.values;
        }
      }
      r
  }

  /** One setter call: only the setting's own value can change, to the
      argument when the setter accepts it. */
  lemma SetValues(cfg: Config, g: Generated, v: Value)
    requires g.name in cfg.values && (g.body.Checked? ==> g.body.dirtyBit < 32)
    ensures Set(cfg, g, v).values.Keys == cfg.values.Keys
    ensures forall n :: n in cfg.values && n != g.name ==> Set(cfg, g, v).values[n] == cfg.values[n]
    ensures Set(cfg, g, v).values[g.name] ==
      if g.body.Checked? && InRange(g.body.min, g.body.max, v) then v else cfg.values[g.name]
  {
  }

  /** The first setter call of the loop: the configuration stays consistent
      with the remaining settings, and only the first setting's value can
      change, to `SyncedValue`. */
  lemma FirstSet(cfg: Config, gs: seq<Generated>, dl: Delegate)
    requires Consistent(cfg, gs) && |gs| > 0
    ensures var c1 := Set(cfg, gs[0], SyncValue(Lookup(dl, gs[0].name), gs[0]));
      Consistent(c1, gs[1..]) && c1.values.Keys == cfg.values.Keys &&
      (forall n :: n in cfg.values && n != gs[0].name ==> c1.values[n] == cfg.values[n]) &&
      c1.values[gs[0].name] == SyncedValue(cfg, gs[0], dl)
  {
    var g := gs[0];
    var c1 := Set(cfg, g, SyncValue(Lookup(dl, g.name), g));
    SetValues(cfg, g, SyncValue(Lookup(dl, g.name), g));
    assert Consistent(c1, gs[1..]) by {
      forall k | 0 <= k < |gs[1..]| ensures gs[1..][k].name in c1.values {
        assert gs[1..][k] == gs[k + 1];
      }
    }
  }

  /** One step of the loop: the first setter call, then the rest. */
  lemma SyncUnfold(cfg: Config, gs: seq<Generated>, dl: Delegate)
    requires Consistent(cfg, gs) && |gs| > 0
    ensures Consistent(Set(cfg, gs[0], SyncValue(Lookup(dl, gs[0].name), gs[0])), gs[1..])
    ensures SyncSettings(cfg, gs, dl) ==
      SyncSettings(Set(cfg, gs[0], SyncValue(Lookup(dl, gs[0].name), gs[0])), gs[1..], dl)
  {
    FirstSet(cfg, gs, dl);
  }

  /** A value no setting of the loop is named after is left alone. */
  lemma {:induction false} SyncKeepsUnnamed(cfg: Config, gs: seq<Generated>, dl: Delegate, n: string)
    requires Consistent(cfg, gs) && n in cfg.values && NotNamed(gs, n)
    ensures SyncSettings(cfg, gs, dl).values[n] == cfg.values[n]
    decreases |gs|
  {
    if gs != [] {
      var c1 := Set(cfg, gs[0], SyncValue(Lookup(dl, gs[0].name), gs[0]));
      FirstSet(cfg, gs, dl);
      assert NotNamed(gs[1..], n) by {
        forall j | 0 <= j < |gs[1..]| ensures gs[1..][j].name != n {
          assert gs[1..][j] == gs[j + 1];
        }
      }
      SyncKeepsUnnamed(c1, gs[1..], dl, n);
    }
  }

  /** A setting named once in the loop ends with the delegate's value when
      its setter accepts that value, and keeps its old value otherwise. */
  lemma {:induction false} SyncSettingValue(cfg: Config, gs: seq<Generated>, dl: Delegate, k: nat)
    requires Consistent(cfg, gs) && k < |gs| && NamedOnce(gs, k)
    ensures SyncSettings(cfg, gs, dl).values[gs[k].name] == SyncedValue(cfg, gs[k], dl)
    decreases |gs|
  {
    var c1 := Set(cfg, gs[0], SyncValue(Lookup(dl, gs[0].name), gs[0]));
    FirstSet(cfg, gs, dl);
    if k == 0 {
      assert NotNamed(gs[1..], gs[0].name) by {
        forall j | 0 <= j < |gs[1..]| ensures gs[1..][j].name != gs[0].name {
          assert gs[1..][j] == gs[j + 1];
        }
      }
      SyncKeepsUnnamed(c1, gs[1..], dl, gs[0].name);
    } else {
      assert gs[1..][k - 1] == gs[k];
      assert NamedOnce(gs[1..], k - 1) by {
        forall j | 0 <= j < |gs[1..]| && j != k - 1 ensures gs[1..][j].name != gs[k].name {
          assert gs[1..][j] == gs[j + 1];
        }
      }
      assert gs[k].name != gs[0].name;
      SyncSettingValue(c1, gs[1..], dl, k - 1);
    }
  }

  /** Whether the first setter call of the loop changes its setting. */
  predicate FirstChanges(cfg: Config, gs: seq<Generated>, dl: Delegate)
    requires Consistent(cfg, gs) && |gs| > 0
  {
    var v := SyncValue(Lookup(dl, gs[0].name), gs[0]);
    gs[0].body.Checked? && InRange(gs[0].body.min, gs[0].body.max, v) && v != cfg.values[gs[0].name]
  }

  /** The dirty flags the loop raises, in call order: one per setter call
      that changes its setting. */
  function Raised(cfg: Config, gs: seq<Generated>, dl: Delegate): (fs: seq<bv32>)
    requires Consistent(cfg, gs)
    ensures |fs| <= |gs|
    decreases |gs|
  {
    if gs == [] then []
    else
      var c1 := Set(cfg, gs[0], SyncValue(Lookup(dl, gs[0].name), gs[0]));
      FirstSet(cfg, gs, dl);
      var rest := Raised(c1, gs[1..], dl);
      if FirstChanges(cfg, gs, dl) then [Bit(gs[0].body.dirtyBit)] + rest else rest
  }

  /** `d` with the flags `fs` raised one after another. */
  function RaiseAll(d: bv32, fs: seq<bv32>): bv32
    decreases |fs|
  {
    if fs == [] then d else RaiseAll(d | fs[0], fs[1..])
  }

  /** The dirty set after the loop is the one before it with exactly the
      `Raised` flags added. */
  lemma {:induction false} SyncDirtyBits(cfg: Config, gs: seq<Generated>, dl: Delegate)
    requires Consistent(cfg, gs)
    ensures SyncSettings(cfg, gs, dl).dirty == RaiseAll(cfg.dirty, Raised(cfg, gs, dl))
    decreases |gs|
  {
    if gs != [] {
      var c1 := Set(cfg, gs[0], SyncValue(Lookup(dl, gs[0].name), gs[0]));
      SyncUnfold(cfg, gs, dl);
      SyncDirtyBits(c1, gs[1..], dl);
      var rest := Raised(c1, gs[1..], dl);
      if FirstChanges(cfg, gs, dl) {
        assert ([Bit(gs[0].body.dirtyBit)] + rest)[1..] == rest;
      }
    }
  }

  /** Every raised flag is the dirty bit of a checked setting of the loop. */
  lemma {:induction false} RaisedFromChecked(cfg: Config, gs: seq<Generated>, dl: Delegate)
    requires Consistent(cfg, gs)
    ensures forall f :: f in Raised(cfg, gs, dl) ==>
      exists k :: 0 <= k < |gs| && gs[k].body.Checked? && f == Bit(gs[k].body.dirtyBit)
    decreases |gs|
  {
    if gs != [] {
      var c1 := Set(cfg, gs[0], SyncValue(Lookup(dl, gs[0].name), gs[0]));
      FirstSet(cfg, gs, dl);
      RaisedFromChecked(c1, gs[1..], dl);
      forall f | f in Raised(cfg, gs, dl)
        ensures exists k :: 0 <= k < |gs| && gs[k].body.Checked? && f == Bit(gs[k].body.dirtyBit)
      {
        if f !in Raised(c1, gs[1..], dl) {
          assert gs[0].body.Checked? && f == Bit(gs[0].body.dirtyBit);
        } else {
          var k :| 0 <= k < |gs[1..]| && gs[1..][k].body.Checked? && f == Bit(gs[1..][k].body.dirtyBit);
          assert gs[k + 1] == gs[1..][k];
        }
      }
    }
  }

  /** Raising flags never clears a bit. */
  lemma {:induction false} RaiseAllKeeps(d: bv32, fs: seq<bv32>)
    ensures RaiseAll(d, fs) | d == RaiseAll(d, fs)
    decreases |fs|
  {
    if fs != [] {
      var d1 := d | fs[0];
      RaiseAllKeeps(d1, fs[1..]);
      OrChain(RaiseAll(d1, fs[1..]), d1, d);
    }
  }

  /** Every raised flag ends up set. */
  lemma {:induction false} RaiseAllSets(d: bv32, fs: seq<bv32>, f: bv32)
    requires f in fs
    ensures RaiseAll(d, fs) & f == f
    decreases |fs|
  {
    var d1 := d | fs[0];
    if fs[0] == f {
      RaiseAllKeeps(d1, fs[1..]);
      KeepsBit(RaiseAll(d1, fs[1..]), d1, f);
    } else {
      RaiseAllSets(d1, fs[1..], f);
    }
  }

  /** Raising through two steps raises through both. */
  lemma OrChain(a: bv32, b: bv32, c: bv32)
    ensures a | b == a && b | c == b ==> a | c == a
  {
  }

  lemma KeepsBit(r: bv32, d: bv32, b: bv32)
    ensures r | d == r && d & b == b ==> r & b == b
  {
  }

  /** The loop only raises dirty bits. */
  lemma SyncOnlyRaises(cfg: Config, gs: seq<Generated>, dl: Delegate)
    requires Consistent(cfg, gs)
    ensures SyncSettings(cfg, gs, dl).dirty | cfg.dirty == SyncSettings(cfg, gs, dl).dirty
  {
    SyncDirtyBits(cfg, gs, dl);
    RaiseAllKeeps(cfg.dirty, Raised(cfg, gs, dl));
  }

  /** A checked setting named once whose setter call changes its value has
      its dirty flag in `Raised`. */
  lemma {:induction false} ChangedBitRaised(cfg: Config, gs: seq<Generated>, dl: Delegate, k: nat)
    requires Consistent(cfg, gs) && k < |gs| && NamedOnce(gs, k) && gs[k].body.Checked?
    requires SyncedValue(cfg, gs[k], dl) != cfg.values[gs[k].name]
    ensures Bit(gs[k].body.dirtyBit) in Raised(cfg, gs, dl)
    decreases |gs|
  {
    var c1 := Set(cfg, gs[0], SyncValue(Lookup(dl, gs[0].name), gs[0]));
    FirstSet(cfg, gs, dl);
    if k > 0 {
      assert gs[1..][k - 1] == gs[k];
      assert NamedOnce(gs[1..], k - 1) by {
        forall j | 0 <= j < |gs[1..]| && j != k - 1 ensures gs[1..][j].name != gs[k].name {
          assert gs[1..][j] == gs[j + 1];
        }
      }
      assert gs[k].name != gs[0].name;
      ChangedBitRaised(c1, gs[1..], dl, k - 1);
    }
  }

  /** A checked setting named once whose value changes raises its own
      dirty bit. */
  lemma SyncRaisesChangedBit(cfg: Config, gs: seq<Generated>, dl: Delegate, k: nat)
    requires Consistent(cfg, gs) && k < |gs| && NamedOnce(gs, k) && gs[k].body.Checked?
    requires SyncedValue(cfg, gs[k], dl) != cfg.values[gs[k].name]
    ensures SyncSettings(cfg, gs, dl).dirty & Bit(gs[k].body.dirtyBit) == Bit(gs[k].body.dirtyBit)
  {
    ChangedBitRaised(cfg, gs, dl, k);
    SyncDirtyBits(cfg, gs, dl);
    RaiseAllSets(cfg.dirty, Raised(cfg, gs, dl), Bit(gs[k].body.dirtyBit));
  }

  /** `Sync`: does nothing unless the delegate's settings version moved, and
      then records the new version. */
  function Sync(cfg: Config, gs: seq<Generated>, dl: Delegate): (r: Config)
    requires Consistent(cfg, gs)
    ensures cfg.lastVersion == dl.version ==> r == cfg
    ensures r.lastVersion == dl.version
    ensures Consistent(r, gs)
  {
    if cfg.lastVersion == dl.version then cfg
    else
      var c0 := SetInteractiveMode(cfg.(lastVersion := dl.version), InteractiveRequested(dl));
      SyncSettings(c0, gs, dl)
  }

  /** A second `Sync` against an unchanged delegate changes nothing. */
  lemma SyncIdempotent(cfg: Config, gs: seq<Generated>, dl: Delegate)
    requires Consistent(cfg, gs)
    ensures Sync(Sync(cfg, gs, dl), gs, dl) == Sync(cfg, gs, dl)
  {
  }

  /** `PrefData::SetDefault`: interactive mode off, every setting at its default. */
  function DefaultValues(gs: seq<Generated>): (m: map<string, Value>)
    ensures forall k :: 0 <= k < |gs| ==> gs[k].name in m
    ensures forall n :: n in m ==> exists k :: 0 <= k < |gs| && gs[k].name == n && m[n] == gs[k].default
  {
    if gs == [] then map[]
    else
      var rest := DefaultValues(gs[1..]);
      var m := rest[gs[0].name := gs[0].default];
      DefaultValuesStep(gs, rest, m);
      m
  }

  /** One step of `DefaultValues`: storing the first setting's default over
      the record of the later settings keeps both of its properties. */
  lemma DefaultValuesStep(gs: seq<Generated>, rest: map<string, Value>, m: map<string, Value>)
    requires |gs| > 0 && m == rest[gs[0].name := gs[0].default]
    requires forall k :: 0 <= k < |gs[1..]| ==> gs[1..][k].name in rest
    requires forall n :: n in rest ==> exists k :: 0 <= k < |gs[1..]| && gs[1..][k].name == n && rest[n] == gs[1..][k].default
    ensures forall k :: 0 <= k < |gs| ==> gs[k].name in m
    ensures forall n :: n in m ==> exists k :: 0 <= k < |gs| && gs[k].name == n && m[n] == gs[k].default
  {
    forall k | 1 <= k < |gs| ensures gs[k].name in m {
      assert gs[1..][k - 1] == gs[k];
    }
    forall n | n in m ensures exists k :: 0 <= k < |gs| && gs[k].name == n && m[n] == gs[k].default {
      if n != gs[0].name {
        var k :| 0 <= k < |gs[1..]| && gs[1..][k].name == n && rest[n] == gs[1..][k].default;
        assert gs[k + 1] == gs[1..][k];
      }
    }
  }

  function SetDefault(cfg: Config, gs: seq<Generated>): (r: Config)
    ensures !r.interactive
    ensures forall k :: 0 <= k < |gs| ==> gs[k].name in r.values
  {
    cfg.(interactive := false, values := DefaultValues(gs))
  }

  // ---------------------------------------------------------------------------
  // PrefData::IsValid

  /** The generated `IsValid` AS WRITTEN: `return true` followed by
      `&& x < kXMin` for every lower bound and `&& x > kXMax` for every upper
      bound, i.e. it demands that every bounded value lies OUTSIDE its range. */
  function IsValidAsWritten(values: map<string, Value>, gs: seq<Generated>): (ok: bool)
    ensures ok ==> forall k :: 0 <= k < |gs| && gs[k].name in values && gs[k].min.Some? && gs[k].max.Some? ==>
                     gs[k].max.value < gs[k].min.value
  {
    forall k :: 0 <= k < |gs| && gs[k].name in values ==>
      (gs[k].min.Some? ==> Below(values[gs[k].name], gs[k].min.value)) &&
      (gs[k].max.Some? ==> Above(values[gs[k].name], gs[k].max.value))
  }

  /** The check `IsValid` is meant to perform (it guards `Load`): every
      bounded value lies within its range. */
  function IsValidIntended(values: map<string, Value>, gs: seq<Generated>): (ok: bool)
    ensures ok ==> forall k :: 0 <= k < |gs| && gs[k].name in values && values[gs[k].name].NumV? ==>
                     (gs[k].min.Some? ==> gs[k].min.value <= values[gs[k].name].n) &&
                     (gs[k].max.Some? ==> values[gs[k].name].n <= gs[k].max.value)
    ensures (forall k :: 0 <= k < |gs| ==> gs[k].min.None? && gs[k].max.None?) ==> ok
  {
    forall k :: 0 <= k < |gs| && gs[k].name in values ==> InRange(gs[k].min, gs[k].max, values[gs[k].name])
  }

  /** As written, `IsValid` rejects every preferences record as soon as one
      setting has a non-empty range, so stored preferences are never reloaded. */
  lemma IsValidAsWrittenRejectsAll(values: map<string, Value>, gs: seq<Generated>, k: nat)
    requires k < |gs| && gs[k].name in values
    requires gs[k].min.Some? && gs[k].max.Some? && gs[k].min.value <= gs[k].max.value
    ensures !IsValidAsWritten(values, gs)
  {
  }

  /** The intended validity is an invariant of every generated setter. */
  lemma SetPreservesValidity(cfg: Config, gs: seq<Generated>, k: nat, v: Value)
    requires k < |gs| && Consistent(cfg, gs)
    requires forall a, b :: 0 <= a < |gs| && 0 <= b < |gs| && gs[a].name == gs[b].name ==> a == b
    requires forall a :: 0 <= a < |gs| && gs[a].body.Checked? ==> gs[a].body.min == gs[a].min && gs[a].body.max == gs[a].max
    requires IsValidIntended(cfg.values, gs)
    ensures IsValidIntended(Set(cfg, gs[k], v).values, gs)
  {
  }

  // ---------------------------------------------------------------------------
  // The table shipped with the renderer

  function S(name: string, ui: string, default: Value, min: Option<real>, max: Option<real>): Setting {
    Setting(name, Some(ui), default, None, min, max)
  }

  /** `render_setting_categories` (help strings and Houdini hints omitted). */
  const ShippedTable: seq<Category> := [
    Category("RenderQuality", ["Darwin"], [
      Setting("renderQuality", Some("Render Quality"), NumV(3.0), Some(["Low", "Medium", "High", "Full"]), None, None)]),
    Category("Device", [], [
      Setting("renderDevice", Some("Render Device"), NumV(1.0), Some(["CPU", "GPU"]), None, None)]),
    Category("Denoise", [], [
      S("enableDenoising", "Enable Denoising", BoolV(false), None, None)]),
    Category("Sampling", [], [
      S("maxSamples", "Max Pixel Samples", NumV(256.0), Some(1.0), Some(65536.0))]),
    Category("AdaptiveSampling", [], [
      S("minAdaptiveSamples", "Min Pixel Samples", NumV(64.0), Some(1.0), Some(65536.0)),
      S("varianceThreshold", "Variance Threshold", NumV(0.0), Some(0.0), Some(1.0))]),
    Category("Quality", [], [
      S("maxRayDepth", "Max Ray Depth", NumV(8.0), Some(1.0), Some(50.0)),
      S("maxRayDepthDiffuse", "Diffuse Ray Depth", NumV(3.0), Some(0.0), Some(50.0)),
      S("maxRayDepthGlossy", "Glossy Ray Depth", NumV(3.0), Some(0.0), Some(50.0)),
      S("maxRayDepthRefraction", "Refraction Ray Depth", NumV(3.0), Some(0.0), Some(50.0)),
      S("maxRayDepthGlossyRefraction", "Glossy Refraction Ray Depth", NumV(3.0), Some(0.0), Some(50.0)),
      S("maxRayDepthShadow", "Shadow Ray Depth", NumV(2.0), Some(0.0), Some(50.0)),
      S("raycastEpsilon", "Ray Cast Epsilon", NumV(0.00002), Some(0.000001), Some(1.0)),
      S("enableRadianceClamping", "Enable Clamp Radiance", BoolV(false), None, None),
      S("radianceClamping", "Clamp Radiance", NumV(0.0), Some(0.0), Some(1000000.0)),
      S("interactiveMaxRayDepth", "Interactive Max Ray Depth", NumV(2.0), Some(1.0), Some(50.0))]),
    Category("UsdNativeCamera", [], [
      Setting("aspectRatioConformPolicy", None, TokenV("UsdRenderTokens->expandAperture"), None, None, None),
      Setting("instantaneousShutter", None, BoolV(false), None, None, None)])
  ]

  lemma ShippedNamesNonEmpty()
    ensures NamesNonEmpty(ShippedTable)
  {
    forall i | 0 <= i < |ShippedTable|
      ensures SettingsNamed(ShippedTable[i])
    {
      forall s <- ShippedTable[i].settings
        ensures |s.name| > 0
      {
        assert s.name != [];
      }
    }
  }

  /** The first setting of the shipped table, `renderQuality`, is generated
      with the bounds [0, 3] of its four enumerated values. */
  lemma ShippedFirstSetting(platform: string)
    requires NamesNonEmpty(ShippedTable)
    ensures CountSettings(ShippedTable) > 0
    ensures var g := Generate(ShippedTable, platform)[0];
            g.name == "renderQuality" && g.min == Some(0.0) && g.max == Some(3.0)
  {
    CategoryBitOfSetting(ShippedTable, 1, platform, 0, 0);
    var s := ShippedTable[0].settings[0];
    assert s.values == Some(["Low", "Medium", "High", "Full"]);
    assert Bounds(s) == (Some(0.0), Some(3.0));
  }

  /** On the shipped table the as-written `IsValid` rejects even the default
      preferences, so `Load` always falls back to `SetDefault`. */
  lemma ShippedDefaultsRejectedAsWritten(platform: string)
    ensures NamesNonEmpty(ShippedTable)
    ensures !IsValidAsWritten(DefaultValues(Generate(ShippedTable, platform)), Generate(ShippedTable, platform))
  {
    ShippedNamesNonEmpty();
    ShippedFirstSetting(platform);
    var gs := Generate(ShippedTable, platform);
    var m := DefaultValues(gs);
    assert gs[0].name in m;
    IsValidAsWrittenRejectsAll(m, gs, 0);
  }
}
