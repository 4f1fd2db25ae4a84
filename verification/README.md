# RadeonProRender for USD: a Dafny model of its sequential core

This project models the parts of the Radeon ProRender Hydra delegate (`hdRpr`),
its material library (`rprUsd`), the MaterialX loader and the Houdini plugins
that do their work without the GPU, files or threads. Each source component is
a Dafny module in a file of its own. Each module gives the component's data as
datatypes and its operations as functions or methods, with contracts. Lemmas
relate the operations to one another.

The model covers five groups.

- **The build-time settings generator.** `generateRenderSettingFiles.py` turns
  the render-settings table into a C++ configuration class. Each category gets a
  dirty bit, and each setter is range-checked and change-only. The settings
  generator module models both the generator and the class it emits.
  `houdiniDsGenerator.py` writes the Houdini dialog script, with hidewhen and
  disablewhen clauses. `commonSettings.py` supplies the `SettingValue` helper.
- **Change trackers.** These are `HdRprConfig`, `HdRprPreferences`, the AOV
  objects with their colour-AOV denoise state machine, `HdRprApiFramebuffer`
  and `HdRprRenderBuffer`. Each one keeps its state in a record and raises a
  dirty flag only when a value actually changes.
- **Geometry index transforms.** These cover polygon splitting, curve segment
  expansion and padding, the completion of geometry subsets, face offset prefix
  sums, subset re-indexing and primvar size checks.
- **Material-graph bookkeeping.** This group has the material node registry
  and the texture commits with their de-duplication, and legacy network
  conversion with the upstream traversal. It also has the token-to-RPR lookup
  tables, the UsdPreviewSurface helper nodes, the arithmetic nodes, the
  MaterialX token remapping and element typing, and the light registry. UDIM
  path handling belongs here too.
- **Small codecs and predicates.** These are the RPR image descriptor and UDIM
  tile selection, RAT texture reading, the VOP UI names and choice lists, the
  GPU creation-flag scans, the Hybrid device allow-list, and the device
  configuration with its JSON round trip.

Calls into RPR, RIF, OpenGL, Houdini and the file system are not modelled as
such. Where their result matters, it becomes a parameter of the operation: for
example whether an RPR object was created, whether a file exists or what a
read returned. RPR SDK constants whose values are not part of the repository
are modelled by name.

`TokenMap` models `std::map<TfToken, T>` as a list kept in ascending key order.
`Sums` and `Wrappers` are shared helpers: `Option` and `Result` stand for
nullable handles, empty values, exceptions and `bool`-plus-out-parameter
returns.

A few facts about the code that shape the model:

- Setting names in the shipped settings table are flat camel-case names such
  as `maxRayDepth`, and the generator capitalises them as they are.
- `_get_houdini_hidewhen_string` lists a setting's own hidewhen and its
  category's hidewhen as separate `{ ... }` groups, and Houdini hides a
  parameter when any group holds.
- A folder's hidewhen goes only on its `groupcollapsible` block; the settings
  inside the folder receive the category's hidewhen alone.
- The generated `Sync` compares the stored version with the delegate's for
  inequality, so any change of version, including a decrease, triggers a
  re-read.

## Model

| member | source | states |
|---|---|---|
| SettingsGenerator.ToUpperAscii | pxr/imaging/plugin/hdRpr/python/generateRenderSettingFiles.py:215-216 | a lower-case ASCII letter is shifted to its upper-case counterpart; every other character is left alone |
| SettingsGenerator.CamelCaseCapitalize | pxr/imaging/plugin/hdRpr/python/generateRenderSettingFiles.py:215-216 | the title form of a setting name has the same length, an upper-cased first letter and an unchanged tail |
| SettingsGenerator.GenerateSetting | pxr/imaging/plugin/hdRpr/python/generateRenderSettingFiles.py:448-516 | a setting keeps its name, default and UI name, gets the capitalised name, the bounds of its range (the index range of its value list when it has one), an enum type named after it exactly when it has a value list with one member per value, and a range-checked, change-only setter unless it is disabled |
| SettingsGenerator.Bounds | pxr/imaging/plugin/hdRpr/python/generateRenderSettingFiles.py:461-493 | an enumerated setting is bounded by [0, number of values - 1]; any other setting keeps its declared min and max |
| SettingsGenerator.EnumMembers | pxr/imaging/plugin/hdRpr/python/generateRenderSettingFiles.py:465-468 | one enum member per listed value, each named k + title + value, in table order |
| SettingsGenerator.GenerateSettings | pxr/imaging/plugin/hdRpr/python/generateRenderSettingFiles.py:448-516 | every setting of a category yields exactly one generated entry, in order, all sharing the category's dirty bit and platform switch |
| SettingsGenerator.GenerateFrom | pxr/imaging/plugin/hdRpr/python/generateRenderSettingFiles.py:424-446 | one entry per setting of the whole table; a checked setter's dirty bit lies in the window of one bit per category starting at the offset |
| SettingsGenerator.Generate | pxr/imaging/plugin/hdRpr/python/generateRenderSettingFiles.py:424-446 | with bit 0 reserved for interactive mode, every checked setter raises a category bit between 1 and the number of categories |
| SettingsGenerator.CategoryBitOfSetting | pxr/imaging/plugin/hdRpr/python/generateRenderSettingFiles.py:437-514 | setting j of category i is generated at position (settings before i) + j with dirty bit offset + i and a no-op body exactly when its category is disabled on the platform |
| SettingsGenerator.Descriptors | pxr/imaging/plugin/hdRpr/python/generateRenderSettingFiles.py:498-499 | a render-setting descriptor is listed exactly when some setting has a UI name, and never more than one per setting |
| SettingsGenerator.Set | pxr/imaging/plugin/hdRpr/python/generateRenderSettingFiles.py:501-514 | a setter changes the configuration iff the setting is enabled on the platform, the value is within range and differs from the stored one; a change stores the value, saves once and raises the category's bit |
| SettingsGenerator.SetInteractiveMode | pxr/imaging/plugin/hdRpr/python/generateRenderSettingFiles.py:342-348 | interactive mode always ends as requested; the configuration changes iff the mode flips, and then it saves once and raises bit 0 |
| SettingsGenerator.CleanDirtyFlag | pxr/imaging/plugin/hdRpr/python/generateRenderSettingFiles.py:360-362 | the cleaned bits are all clear, every other bit and every other field is preserved |
| SettingsGenerator.ResetDirty | pxr/imaging/plugin/hdRpr/python/generateRenderSettingFiles.py:364-366 | afterwards no flag tests dirty, and nothing but the dirty bits changes |
| SettingsGenerator.GetBoolSetting | pxr/imaging/plugin/hdRpr/python/generateRenderSettingFiles.py:325-333 | a boolean setting accepts an int64 (non-zero is true) or a bool and falls back to the default for any other stored type |
| SettingsGenerator.GetTypedSetting | pxr/imaging/plugin/hdRpr/python/generateRenderSettingFiles.py:480 | a typed read always yields the default's kind; a stored value of that kind wins over the default |
| SettingsGenerator.SyncValue | pxr/imaging/plugin/hdRpr/python/generateRenderSettingFiles.py:476-481 | the synced value keeps the kind of the default; a missing render setting gives the default and an `int64` value for a boolean setting gives its truth value |
| SettingsGenerator.InteractiveRequested | pxr/imaging/plugin/hdRpr/python/generateRenderSettingFiles.py:335-336 | interactive mode is requested exactly when houdini:interactive holds a string other than "normal"; a missing or non-string value counts as "normal" |
| SettingsGenerator.SyncSettings | pxr/imaging/plugin/hdRpr/python/generateRenderSettingFiles.py:476-481 | pushing the delegate's settings through the setters keeps the set of stored settings, the interactive flag and the version, and keeps the configuration usable by every setter; what each setting ends with and which dirty bits rise are the rows below |
| SettingsGenerator.SyncedValue | pxr/imaging/plugin/hdRpr/python/generateRenderSettingFiles.py:476-514 | the value a setting holds after its setter call: the delegate's value (the default when the delegate has none) when the setting is enabled on the platform and the value is within its bounds, and the old value otherwise |
| SettingsGenerator.SyncSettingValue | pxr/imaging/plugin/hdRpr/python/generateRenderSettingFiles.py:476-514 | after the loop, a setting the loop names once holds its `SyncedValue`: the delegate's value if its setter accepts it, its old value if not |
| SettingsGenerator.SyncKeepsUnnamed | pxr/imaging/plugin/hdRpr/python/generateRenderSettingFiles.py:476-481 | a stored value no setting of the loop is named after is left unchanged |
| SettingsGenerator.SyncDirtyBits | pxr/imaging/plugin/hdRpr/python/generateRenderSettingFiles.py:506-512 | the dirty flags after the loop are those before it with exactly the `Raised` flags or-ed in: one flag per setter call that stored a new value |
| SettingsGenerator.RaisedFromChecked | pxr/imaging/plugin/hdRpr/python/generateRenderSettingFiles.py:501-514 | every raised flag is the dirty bit of a setting enabled on the platform; the no-op setters of disabled categories raise nothing |
| SettingsGenerator.SyncOnlyRaises | pxr/imaging/plugin/hdRpr/python/generateRenderSettingFiles.py:508-512 | the loop never clears a dirty bit |
| SettingsGenerator.ChangedBitRaised | pxr/imaging/plugin/hdRpr/python/generateRenderSettingFiles.py:508-512 | an enabled setting named once whose setter call changes its value contributes its dirty bit to `Raised` |
| SettingsGenerator.SyncRaisesChangedBit | pxr/imaging/plugin/hdRpr/python/generateRenderSettingFiles.py:508-512 | an enabled setting named once whose value the loop changes has its dirty bit set afterwards |
| SettingsGenerator.Sync | pxr/imaging/plugin/hdRpr/python/generateRenderSettingFiles.py:320-339 | a sync with an unchanged settings version changes nothing; afterwards the recorded version is the delegate's |
| SettingsGenerator.SyncIdempotent | pxr/imaging/plugin/hdRpr/python/generateRenderSettingFiles.py:320-324 | syncing twice against the same delegate equals syncing once |
| SettingsGenerator.DefaultValues | pxr/imaging/plugin/hdRpr/python/generateRenderSettingFiles.py:516 | the default record holds every generated setting, and each stored value is the default of a setting of that name |
| SettingsGenerator.SetDefault | pxr/imaging/plugin/hdRpr/python/generateRenderSettingFiles.py:409-413 | the defaults switch interactive mode off and give every generated setting a value |
| SettingsGenerator.IsValidAsWritten | pxr/imaging/plugin/hdRpr/python/generateRenderSettingFiles.py:483-495 | the generated check, as written, accepts a record only if every bounded setting it holds has its maximum below its minimum |
| SettingsGenerator.IsValidIntended | pxr/imaging/plugin/hdRpr/python/generateRenderSettingFiles.py:483-495 | the intended check accepts only records whose numeric values lie within their bounds, and accepts every record when no setting is bounded |
| SettingsGenerator.IsValidAsWrittenRejectsAll | pxr/imaging/plugin/hdRpr/python/generateRenderSettingFiles.py:483-495 | as generated, the validity check rejects every record once one setting has a non-empty range |
| SettingsGenerator.SetPreservesValidity | pxr/imaging/plugin/hdRpr/python/generateRenderSettingFiles.py:483-514 | with the range check the validity test is meant to perform, every setter call keeps a valid record valid |
| SettingsGenerator.ShippedFirstSetting | pxr/imaging/plugin/hdRpr/python/generateRenderSettingFiles.py:19-35 | the first shipped setting, renderQuality, gets the bounds [0, 3] of its four quality levels |
| SettingsGenerator.ShippedDefaultsRejectedAsWritten | pxr/imaging/plugin/hdRpr/python/generateRenderSettingFiles.py:483-495 | on the shipped table even the default preferences fail the generated validity check, so a saved record is never reloaded |
| HoudiniDs.Contribution | pxr/imaging/plugin/hdRpr/python/houdiniDsGenerator.py:56-63 | a non-empty condition string contributes itself, a list contributes all its items, and a falsy value contributes nothing |
| HoudiniDs.Collect | pxr/imaging/plugin/hdRpr/python/houdiniDsGenerator.py:55-63 | no conditions give no hidewhen entries |
| HoudiniDs.CollectAppend | pxr/imaging/plugin/hdRpr/python/houdiniDsGenerator.py:55-63 | conditions are gathered in order: collecting two lists one after the other is collecting their concatenation |
| HoudiniDs.Braced | pxr/imaging/plugin/hdRpr/python/houdiniDsGenerator.py:68-69 | the braced form is empty exactly when there are no conditions |
| HoudiniDs.BracedAppend | pxr/imaging/plugin/hdRpr/python/houdiniDsGenerator.py:68-69 | bracing two lists of conditions one after the other is bracing their concatenation |
| HoudiniDs.HidewhenString | pxr/imaging/plugin/hdRpr/python/houdiniDsGenerator.py:54-71 | the hidewhen clause is empty when no condition contributes, and otherwise wraps every contributed condition in braces inside `hidewhen "…"` |
| HoudiniDs.HidewhenEmptyIff | pxr/imaging/plugin/hdRpr/python/houdiniDsGenerator.py:65-71 | the hidewhen clause is empty if and only if no condition contributes |
| HoudiniDs.ValidParamName | pxr/imaging/plugin/hdRpr/python/houdiniDsGenerator.py:47-52 | a name of alphanumerics and `_` is kept; any other name is encoded |
| HoudiniDs.ValidParamNameIdempotentOnPlain | pxr/imaging/plugin/hdRpr/python/houdiniDsGenerator.py:47-52 | a plain name is a fixed point: mangling it twice still gives it back |
| HoudiniDs.DigitsOf | pxr/imaging/plugin/hdRpr/python/houdiniDsGenerator.py:123 | a number's text is a non-empty string of decimal digits |
| HoudiniDs.StaticEntries | pxr/imaging/plugin/hdRpr/python/houdiniDsGenerator.py:137-139 | a constant menu has exactly one line per value, in order, each `"key" "label"` with the space-free key and the value's UI name |
| HoudiniDs.EscapeQuotes | pxr/imaging/plugin/hdRpr/python/houdiniDsGenerator.py:147 | every quote of the escaped condition is preceded by a backslash, the text never starts with a bare quote, and a condition without quotes is kept unchanged |
| HoudiniDs.UnescapeEscapeQuotes | pxr/imaging/plugin/hdRpr/python/houdiniDsGenerator.py:147 | escaping loses nothing: reading `\"` back as a quote recovers the original condition |
| HoudiniDs.PythonEntries | pxr/imaging/plugin/hdRpr/python/houdiniDsGenerator.py:143-150 | a scripted menu has exactly one line per value, in order, each the value's `MenuLine` |
| HoudiniDs.MenuLine | pxr/imaging/plugin/hdRpr/python/houdiniDsGenerator.py:144-150 | a value without a condition gives `[ "menu_values.extend(…)" ]`; one with a condition gives the same call guarded by `if <escaped condition>:` |
| HoudiniDs.MenuLineCondition | pxr/imaging/plugin/hdRpr/python/houdiniDsGenerator.py:146-150 | a guarded menu line holds the escaped condition right after `[ "if `, and unescaping it gives the condition back |
| HoudiniDs.BuildMenu | pxr/imaging/plugin/hdRpr/python/houdiniDsGenerator.py:130-152 | the menu is a static list exactly when no value has an enable condition, with one line per value; otherwise it is a Python script of four fixed lines plus one per value |
| HoudiniDs.FindDefault | pxr/imaging/plugin/hdRpr/python/houdiniDsGenerator.py:125 | the value found is one of the values and equals the default; none is found exactly when no value equals it |
| HoudiniDs.BuildParm | pxr/imaging/plugin/hdRpr/python/houdiniDsGenerator.py:73-183 | the parm has the label and mangled name, the two control disablewhen conditions and the combined hidewhen; booleans become toggles with 1 or 0; a range exists exactly when both bounds are given and there are no values; it fails (Python's `StopIteration`) exactly for an enumerated setting whose default is not among its values |
| HoudiniDs.RenderParm | pxr/imaging/plugin/hdRpr/python/houdiniDsGenerator.py:80-106 | a parm block is `parm {`, then name, label, type, `size 1`, default and tag lines, the optional menu, hidewhen, disablewhen, range and help lines in that order, then `}` |
| HoudiniDs.RangeLineIff | pxr/imaging/plugin/hdRpr/python/houdiniDsGenerator.py:100-101 | the `range { lo! hi }` line is written exactly when the parm has a range, and it is the only difference from the same parm without one |
| HoudiniDs.DisablewhenLineIff | pxr/imaging/plugin/hdRpr/python/houdiniDsGenerator.py:95-99 | the `disablewhen` line, one `{ c } ` per condition, is written exactly when there are conditions, and it is the only difference from the same parm without them |
| HoudiniDs.HidewhenLineIff | pxr/imaging/plugin/hdRpr/python/houdiniDsGenerator.py:93-94 | the hidewhen line is written exactly when the hidewhen string is non-empty, and it is the only difference from the same parm without it |
| HoudiniDs.GenerateDsSetting | pxr/imaging/plugin/hdRpr/python/houdiniDsGenerator.py:73-183 | a setting without a UI name yields no text; one with a UI name yields the control parameter followed by its parm block, both under the combined hidewhen of the setting and its category, or fails exactly when its parm cannot be built |
| HoudiniDs.GenerateSettings | pxr/imaging/plugin/hdRpr/python/houdiniDsGenerator.py:206-207 | settings that all lack UI names yield no text; generation fails exactly when some setting fails |
| HoudiniDs.GenerateSettingsAppend | pxr/imaging/plugin/hdRpr/python/houdiniDsGenerator.py:206-207 | generating two lists of settings one after the other is generating their concatenation, the first failure winning |
| HoudiniDs.GenerateEntry | pxr/imaging/plugin/hdRpr/python/houdiniDsGenerator.py:195-210 | a setting entry is that setting's text; a folder is its `groupcollapsible` header with the folder-plus-category hidewhen, then its settings generated under the category's hidewhen alone, then `}`, and fails exactly when its settings do |
| HoudiniDs.GenerateEntries | pxr/imaging/plugin/hdRpr/python/houdiniDsGenerator.py:194-210 | no entries yield no text; generation fails exactly when some entry fails |
| HoudiniDs.GenerateEntriesAppend | pxr/imaging/plugin/hdRpr/python/houdiniDsGenerator.py:194-210 | generating two lists of entries one after the other is generating their concatenation, the first failure winning |
| HoudiniDs.FolderSettingsAsTopLevel | pxr/imaging/plugin/hdRpr/python/houdiniDsGenerator.py:206-210 | the settings inside a folder are written exactly as the same settings outside any folder, so the folder's hidewhen reaches only its own header |
| HoudiniDs.GenerateParams | pxr/imaging/plugin/hdRpr/python/houdiniDsGenerator.py:188-210 | no categories yield no text; generation fails exactly when some category's entries fail |
| HoudiniDs.GenerateHoudiniDs | pxr/imaging/plugin/hdRpr/python/houdiniDsGenerator.py:185-215 | generation fails exactly when some parameter fails; no parameter text means no file, and non-empty parameter text gives a file of the fixed header, the parameters and the closing brace |
| HoudiniDs.NoUiNamesNoFile | pxr/imaging/plugin/hdRpr/python/houdiniDsGenerator.py:185-215 | categories whose settings all lack UI names produce no file |
| HoudiniDs.NoUiNamesEntries | pxr/imaging/plugin/hdRpr/python/houdiniDsGenerator.py:185-210 | entries that are all settings without UI names produce no text |
| CommonSettings.UiName | pxr/imaging/plugin/hdRpr/python/commonSettings.py:89-90 | a set, non-empty UI name is shown; otherwise the raw key is |
| CommonSettings.RemoveSpaces | pxr/imaging/plugin/hdRpr/python/commonSettings.py:92-93 | the result has no spaces and the same count of every other character as the input; a space-free input comes back unchanged |
| CommonSettings.Key | pxr/imaging/plugin/hdRpr/python/commonSettings.py:92-93 | the key used in generated code has no spaces and keeps every other character of the raw key |
| CommonSettings.Equals | pxr/imaging/plugin/hdRpr/python/commonSettings.py:83-84 | `==` holds exactly when the raw key equals the argument, and then the space-free key is the argument without its spaces |
| CommonSettings.NotEquals | pxr/imaging/plugin/hdRpr/python/commonSettings.py:86-87 | `!=` holds exactly when the raw key differs from the argument |
| CommonSettings.KeyIdempotent | pxr/imaging/plugin/hdRpr/python/commonSettings.py:92-93 | taking the key of a key changes nothing |
| CommonSettings.RemoveSpacesIsSpaceFilter | pxr/imaging/plugin/hdRpr/python/commonSettings.py:92-93 | removing spaces from two halves and joining gives the same as removing them from the whole, so the other characters keep their order |
| HdRprConfig.Create | pxr/imaging/plugin/hdRpr/config.cpp:116-139 | the configuration starts from the loaded record when there is one and it is valid, and from the defaults otherwise, so it is always valid; nothing is saved |
| HdRprConfig.IsValid | pxr/imaging/plugin/hdRpr/config.cpp:153-156 | a record is valid exactly when its render device is CPU or GPU and its plugin is Tahoe or Hybrid; the defaults are valid |
| HdRprConfig.Update | pxr/imaging/plugin/hdRpr/config.cpp:15-21 | an unchanged value leaves the configuration as it was; a changed one is stored, raises its flag and is saved once |
| HdRprConfig.SetRenderDevice | pxr/imaging/plugin/hdRpr/config.cpp:15-21 | the device is stored and nothing else in the record changes; the configuration changes (flag raised, one save) exactly when the device differs |
| HdRprConfig.SetHybridQuality | pxr/imaging/plugin/hdRpr/config.cpp:27-33 | the quality is stored and nothing else in the record changes; the configuration changes exactly when the quality differs |
| HdRprConfig.GetHybridQuality | pxr/imaging/plugin/hdRpr/config.cpp:35-42 | a stored MEDIUM is reported as HIGH, any other value as stored, so MEDIUM is never reported |
| HdRprConfig.SetPlugin | pxr/imaging/plugin/hdRpr/config.cpp:44-50 | the plugin is stored and nothing else changes; the configuration changes exactly when the plugin differs |
| HdRprConfig.SetDenoising | pxr/imaging/plugin/hdRpr/config.cpp:56-62 | the denoising switch is stored and nothing else changes; the configuration changes exactly when it differs |
| HdRprConfig.SetMinSamples | pxr/imaging/plugin/hdRpr/config.cpp:68-74 | the minimum is stored and nothing else changes; a change raises the sampling flag |
| HdRprConfig.SetMaxSamples | pxr/imaging/plugin/hdRpr/config.cpp:80-86 | the maximum is stored and nothing else changes; a change raises the sampling flag |
| HdRprConfig.SetVariance | pxr/imaging/plugin/hdRpr/config.cpp:92-98 | the variance is stored and nothing else changes; a change raises the sampling flag |
| HdRprConfig.TruncateToInt | pxr/imaging/plugin/hdRpr/config.cpp:100-102 | the float-to-int conversion rounds toward zero: the result is within one of the value, on the side of zero |
| HdRprConfig.GetVariance | pxr/imaging/plugin/hdRpr/config.cpp:100-102 | the variance is returned as an int, so any stored variance in [0, 1) reads as 0 |
| HdRprConfig.CleanDirtyFlag | pxr/imaging/plugin/hdRpr/config.cpp:108-110 | the given flags become clean and every other flag keeps its state |
| HdRprConfig.ResetDirty | pxr/imaging/plugin/hdRpr/config.cpp:112-114 | no flag is dirty afterwards and the record is kept |
| HdRprConfig.SamplingSettersShareOneBit | pxr/imaging/plugin/hdRpr/config.cpp:68-98 | after cleaning the sampling flag, any of the three sampling setters that changes its value makes it dirty again |
| HdRprConfig.SetSameValueIsNoOp | pxr/imaging/plugin/hdRpr/config.cpp:15-98 | setting any value to what is already stored changes nothing: no flag, no save |
| HdRprConfig.SettersPreserveValidity | pxr/imaging/plugin/hdRpr/config.cpp:153-156 | setting an in-range device and plugin keeps the record valid |
| HdRprConfig.InvalidDeviceRejected | pxr/imaging/plugin/hdRpr/config.cpp:116-156 | a record with no render device is invalid, so loading it falls back to the defaults |
| HdRprPreferences.Create | pxr/imaging/plugin/hdRpr/rprApi.cpp:310-384 | the preferences start valid and with both dirty flags set; a loaded record is kept exactly when it is valid, otherwise the defaults (GPU, color AOV, Tahoe, low quality, denoising on) are used |
| HdRprPreferences.IsValid | pxr/imaging/plugin/hdRpr/rprApi.cpp:358-362 | a valid record has a CPU or GPU device and an AOV of at least NONE; the defaults are valid, and so is any record with no AOV and an in-range device |
| HdRprPreferences.SetAov | pxr/imaging/plugin/hdRpr/rprApi.cpp:219-224 | the AOV is stored, the preferences are saved once and marked dirty; the filter flag is untouched |
| HdRprPreferences.SetRenderDevice | pxr/imaging/plugin/hdRpr/rprApi.cpp:231-236 | the device is stored, the preferences are saved once and marked dirty; the filter flag is untouched |
| HdRprPreferences.SetHybridQuality | pxr/imaging/plugin/hdRpr/rprApi.cpp:243-251 | the quality ends up stored, and the preferences change (value, save and dirty flag) exactly when the quality differs from the stored one |
| HdRprPreferences.GetHybridQuality | pxr/imaging/plugin/hdRpr/rprApi.cpp:253-261 | medium quality is never reported (it reads as high); every other stored quality is reported as is |
| HdRprPreferences.SetPlugin | pxr/imaging/plugin/hdRpr/rprApi.cpp:263-271 | the plugin ends up stored, and the preferences change exactly when the plugin differs from the stored one |
| HdRprPreferences.SetDenoising | pxr/imaging/plugin/hdRpr/rprApi.cpp:278-282 | the denoising switch is stored and the filter marked dirty, with no save and the general dirty flag left alone |
| HdRprPreferences.SettersPreserveValidity | pxr/imaging/plugin/hdRpr/rprApi.cpp:231-271 | setting a device in range, then the hybrid quality and the plugin, keeps a valid preference record valid |
| SplitPolygons.FaceIndices | pxr/imaging/plugin/hdRpr/rprApi.cpp:1503-1523 | a triangle or quad is copied unchanged; any other face of n >= 3 vertices becomes the n-2 triangles over consecutive vertex triples; a face of fewer than 3 vertices contributes nothing |
| SplitPolygons.FaceCounts | pxr/imaging/plugin/hdRpr/rprApi.cpp:1503-1523 | every emitted face count is 3 or 4: one count for a kept face, one 3 per triangle of the strip over consecutive vertices otherwise, and none for a face of fewer than 3 vertices |
| SplitPolygons.Split | pxr/imaging/plugin/hdRpr/rprApi.cpp:1493-1526 | a mesh of triangles and quads passes through with its indices and counts unchanged, and every output count is an input count or 3 |
| SplitPolygons.SplitIndices | pxr/imaging/plugin/hdRpr/rprApi.cpp:1528-1555 | the index-only overload leaves the indices of a mesh of triangles and quads unchanged |
| SplitPolygons.SplitCountsAreTrianglesAndQuads | pxr/imaging/plugin/hdRpr/rprApi.cpp:1493-1526 | after splitting, every face is a triangle or a quad and the face counts add up exactly to the number of emitted indices |
| SplitPolygons.SplitIndicesAgree | pxr/imaging/plugin/hdRpr/rprApi.cpp:1493-1555 | the index-only overload produces the same indices as the overload that also produces counts |
| SplitPolygons.PushFace | pxr/imaging/plugin/hdRpr/rprApi.cpp:1503-1523 | one loop iteration appends exactly the face's indices and counts |
| SplitPolygons.SplitPolygonsLoop | pxr/imaging/plugin/hdRpr/rprApi.cpp:1493-1526 | the single pass with a running read position yields the face-by-face concatenation for every well-formed mesh |
| TokenMap.LessTotal | pxr/imaging/rprUsd/materialNodes/materialNode.h:35-40 | distinct keys are ordered one way or the other |
| TokenMap.LessTransitive | pxr/imaging/rprUsd/materialNodes/materialNode.h:35-40 | key order is transitive |
| TokenMap.Find | pxr/imaging/rprUsd/materialRegistry.cpp:509-513 | a lookup misses exactly when the key is absent, and a hit returns a value stored under that key |
| TokenMap.FindUnique | pxr/imaging/rprUsd/materialRegistry.cpp:509-513 | in a key-ordered map each key is stored once, so a lookup returns that entry's value |
| TokenMap.Insert | pxr/imaging/rprUsd/materialRegistry.cpp:338-340 | operator[] assignment stores the value under the key, adds the key if new and leaves every other key's lookup unchanged |
| TokenMap.InsertKeepsSorted | pxr/imaging/rprUsd/materialRegistry.cpp:338-340 | inserting keeps the map in ascending key order |
| TokenMap.InsertLength | pxr/imaging/rprUsd/materialRegistry.cpp:338-340 | an assignment to an existing key keeps the size; a new key adds exactly one entry |
| TokenMap.Emplace | pxr/imaging/rprUsd/materialRegistry.cpp:136-141 | emplace leaves the map untouched when the key is present; otherwise it adds the key with the value; other keys are unaffected |
| TokenMap.FirstIsLeast | pxr/imaging/rprUsd/materialRegistry.cpp:503 | begin() of an ordered map is the entry with the least key |
| Udim.RFind | pxr/imaging/rprUsd/util.cpp:30-31 | rfind reports the last position where the tag occurs, or that it occurs nowhere |
| Udim.Replace | pxr/imaging/rprUsd/util.cpp:32-33 | the replaced range is the new text; the prefix before it and the suffix after it are untouched |
| Udim.GetUdimFormatString | pxr/imaging/rprUsd/util.cpp:22-39 | a path is a UDIM set exactly when it contains <UDIM> or %(UDIM)d; the first tag present in that order has its last occurrence turned into %i; otherwise the output is untouched |
| Udim.ReinsertingTagRestoresPath | pxr/imaging/rprUsd/util.cpp:28-39 | putting the tag back in place of %i in the format string gives back the original path |
| Udim.LastOccurrence | pxr/imaging/rprUsd/util.cpp:30 | scanning from the end finds the same position as rfind |
| UsdNode.GetWrapType | pxr/imaging/rprUsd/materialNodes/usdNode.cpp:192-209 | black, clamp, mirror and repeat select a wrap mode; an unknown token or a non-token value gives no wrap mode |
| UsdNode.WrapToken | pxr/imaging/rprUsd/materialNodes/usdNode.cpp:192-209 | every wrap mode is read back from its token |
| UsdNode.ChooseWrap | pxr/imaging/rprUsd/materialNodes/usdNode.cpp:244-258 | one wrap mode per image: wrapS when set, else wrapT; the unsupported-combination error is raised exactly when the two differ |
| UsdNode.FilePath | pxr/imaging/rprUsd/materialNodes/usdNode.cpp:225-232 | the texture path is the resolved path when there is one, else the authored asset path, and empty for a non-asset value |
| UsdNode.NewUvTexture | pxr/imaging/rprUsd/materialNodes/usdNode.cpp:213-314 | a missing file parameter and an empty path fail with their own messages; otherwise the texture exists iff its image node does, commits the file with the chosen wrap mode and linear-space flag, and offers only rgba; rgba is the image under a scale node exactly when the scale is a four-vector more than 1e-5 away from one in some component and the scale node has an output, and under a bias node exactly when the bias is such a vector away from zero and the bias node has an output |
| UsdNode.NeutralTextureOutputsImage | pxr/imaging/rprUsd/materialNodes/usdNode.cpp:265-312 | with scale and bias absent or within 1e-5 of neutral in every component, the rgba output is the image node itself, whatever the arithmetic nodes would give |
| UsdNode.ScaleWithinToleranceIsNeutral | pxr/imaging/rprUsd/materialNodes/usdNode.cpp:279-283 | a scale of (1.000001, 1, 1, 0.999999) is within the 1e-5 tolerance of one, so no scale node is placed and rgba is the image node |
| UsdNode.ChannelOp | pxr/imaging/rprUsd/materialNodes/usdNode.cpp:326-338 | only r, g, b and a map to a channel-select operation |
| UsdNode.GetOutput | pxr/imaging/rprUsd/materialNodes/usdNode.cpp:316-355 | rgb is rgba; a known output is returned unchanged; a channel output is built and cached; earlier outputs and the texture commit never change |
| UsdNode.HelperNodesEmptyAsWritten | pxr/imaging/rprUsd/materialNodes/usdNode.cpp:284-346 | the scale, bias and channel-select nodes take a material node as their first argument, so under the written arithmetic output test each one whose RPR calls all succeed is rejected, although every slot is set |
| UsdNode.ChannelOutputCached | pxr/imaging/rprUsd/materialNodes/usdNode.cpp:321-346 | asking for the same channel twice returns the same node without rebuilding it |
| UsdNode.UvTextureSetInput | pxr/imaging/rprUsd/materialNodes/usdNode.cpp:357-367 | only the st input is accepted, and then exactly when `SetRprInput` knows the value's type and its RPR call succeeds |
| UsdNode.PrimvarReaderUvName | pxr/imaging/rprUsd/materialNodes/usdNode.cpp:394-401 | a non-empty varname token becomes the UV primvar name; otherwise the name in force is kept |
| UsdNode.PrimvarReaderSetInput | pxr/imaging/rprUsd/materialNodes/usdNode.cpp:409-414 | the primvar reader rejects every input |
| UsdNode.ReadTransform2d | pxr/imaging/rprUsd/materialNodes/usdNode.cpp:431-451 | rotation, scale and translation take the authored values when they hold the right type, else default to 0, (1, 1) and (0, 0) |
| UsdNode.NewTransform2d | pxr/imaging/rprUsd/materialNodes/usdNode.cpp:453-456 | the transform node is dropped as empty exactly when it moves no UV |
| UsdNode.UntypedTransformIsEmpty | pxr/imaging/rprUsd/materialNodes/usdNode.cpp:435-456 | parameters of the wrong type are ignored, so the node is empty |
| VopMaterial.ToUpper | pxr/imaging/plugin/rprHoudini/VOP_RPRMaterial.cpp:525-534 | toupper shifts exactly the lower-case letters and keeps letters letters |
| VopMaterial.Capitalize | pxr/imaging/plugin/rprHoudini/VOP_RPRMaterial.cpp:530-543 | the word pass keeps the length, turns underscores into spaces, keeps letters letters and leaves other characters alone |
| VopMaterial.CapitalizeWordStarts | pxr/imaging/plugin/rprHoudini/VOP_RPRMaterial.cpp:530-538 | a letter is upper-cased exactly when it starts a run of letters |
| VopMaterial.UpperPrefix | pxr/imaging/plugin/rprHoudini/VOP_RPRMaterial.cpp:521-527 | a leading rpr_ becomes RPR_; any other name is unchanged |
| VopMaterial.GetUIName | pxr/imaging/plugin/rprHoudini/VOP_RPRMaterial.cpp:515-545 | an explicit UI name is used as is; otherwise the name is prettified with the same length and spaces for underscores |
| VopMaterial.CapitalizeIdempotent | pxr/imaging/plugin/rprHoudini/VOP_RPRMaterial.cpp:530-543 | prettifying an already prettified name changes nothing |
| VopMaterial.UINameIdempotent | pxr/imaging/plugin/rprHoudini/VOP_RPRMaterial.cpp:515-545 | a UI name derived from a node name is a fixed point of the derivation |
| VopMaterial.GetNumChannels | pxr/imaging/plugin/rprHoudini/VOP_RPRMaterial.cpp:187-197 | colours, vectors and normals have 3 channels, 2-vectors 2, every other type 1 |
| VopMaterial.GetInputFromName | pxr/imaging/plugin/rprHoudini/VOP_RPRMaterial.cpp:356-363 | the result is the first input with that name, or -1 exactly when there is none |
| VopMaterial.ElementChoicesAsWritten | pxr/imaging/plugin/rprHoudini/VOP_RPRMaterial.cpp:416-457 | as written: no list for a non-positive size or another parameter; otherwise the list always ends in the sentinel |
| VopMaterial.ChoiceOverflowAsWritten | pxr/imaging/plugin/rprHoudini/VOP_RPRMaterial.cpp:436-457 | with room for one choice and one renderable element, the list written holds the element path in the first slot and the sentinel in a second one, one past the single slot given |
| VopMaterial.ElementChoices | pxr/imaging/plugin/rprHoudini/VOP_RPRMaterial.cpp:416-457 | corrected: the list fits in the size given, ends in its only sentinel and offers None whenever there are two slots |
| VopMaterial.ChoicesAgreeWithRoom | pxr/imaging/plugin/rprHoudini/VOP_RPRMaterial.cpp:436-457 | whenever there are at least two slots the as-written list and the corrected one agree |
| BasisCurves.LinePairs | pxr/imaging/plugin/hdRpr/basisCurves.cpp:123-126 | a line strip of n indices becomes n-1 pairs, pair i being (c[i], c[i+1]) |
| BasisCurves.IsValidPrimvarSize | pxr/imaging/plugin/hdRpr/basisCurves.cpp:50-59 | a constant primvar is valid exactly when non-empty, a uniform one when it has one value per curve, and any other when it has one value per point |
| BasisCurves.TopologyIndices | pxr/imaging/plugin/hdRpr/basisCurves.cpp:114-143 | without topology indices the curve uses 0..numPoints-1; non-periodic curves use the strip's pairs, periodic ones add the closing pair (last, first), segmented ones keep the indices, and an unsupported wrap leaves none |
| BasisCurves.TaperedIndices | pxr/imaging/plugin/hdRpr/basisCurves.cpp:269-277 | a tapered curve emits four points i0, i0, i1, i1 for every pair of consecutive vertices |
| BasisCurves.TaperedRadii | pxr/imaging/plugin/hdRpr/basisCurves.cpp:279-282 | a tapered curve emits, per segment, half the width of each of its two vertices |
| BasisCurves.Padding | pxr/imaging/plugin/hdRpr/basisCurves.cpp:291-299 | the number of copies of the last index added is below four and brings the point count to a multiple of four |
| BasisCurves.CurveOutput | pxr/imaging/plugin/hdRpr/basisCurves.cpp:263-311 | a curve of at most one vertex emits nothing; a longer one emits one segment count of at least 1, indices that start at its first vertex and end at its last, and either two radii per segment (tapered) or the single half-width of the curve or of the whole primitive |
| BasisCurves.CreateRprCurve | pxr/imaging/plugin/hdRpr/basisCurves.cpp:246-315 | at most one segment count per curve, each at least 1; nothing when no curve has two vertices, and one count per curve when every curve has |
| BasisCurves.CurveOutputSegments | pxr/imaging/plugin/hdRpr/basisCurves.cpp:246-311 | each curve of more than one vertex emits one segment count, four indices per segment and two radii per tapered segment or one radius per cylindrical curve; shorter curves emit nothing |
| BasisCurves.CreateRprCurveSegments | pxr/imaging/plugin/hdRpr/basisCurves.cpp:246-315 | over the whole batch the index count is four times the total segments and the radius count matches the taper mode, with at most one segment entry per curve |
| BasisCurves.TaperedCurveShape | pxr/imaging/plugin/hdRpr/basisCurves.cpp:265-311 | a tapered curve of nv vertices has nv-1 segments whose points are i0,i0,i1,i1 with radii of half the two widths |
| BasisCurves.CylindricalCurveShape | pxr/imaging/plugin/hdRpr/basisCurves.cpp:284-309 | a cylindrical curve keeps its line pairs in order, is padded with its last index to a multiple of four, reports points/4 segments, and carries one radius, half of the uniform or constant width |
| BasisCurves.UvWarningAlwaysFires | pxr/imaging/plugin/hdRpr/basisCurves.cpp:202-204 | as written, the unsupported-uv warning fires for every interpolation, constant included |
| BasisCurves.WarnsUnsupportedUvAsWritten | pxr/imaging/plugin/hdRpr/basisCurves.cpp:202 | the written condition holds for every interpolation |
| BasisCurves.WarnsUnsupportedUv | pxr/imaging/plugin/hdRpr/basisCurves.cpp:202-204 | the corrected condition holds exactly when a uv handed with a curve is dropped by `CurveUvs` (lines 318-324) |
| BasisCurves.CurveUvs | pxr/imaging/plugin/hdRpr/basisCurves.cpp:318-324 | uniform uvs pass through, a constant uv is repeated once per emitted curve, and any other interpolation, or no uvs, gives none |
| BasisCurves.UvWarningMatchesSupport | pxr/imaging/plugin/hdRpr/basisCurves.cpp:202-204 | the corrected warning fires exactly when `CreateRprCurve` gives the curve no uvs (lines 318-324), and is silent exactly for constant and uniform uvs |
| MeshSubsets.MarkUsedFaces | pxr/imaging/plugin/hdRpr/mesh.cpp:83-92 | after the marking loop a face below the face count is unused exactly when no subset lists it, and the unused counter equals the number of unused faces (a face listed twice is counted once) |
| MeshSubsets.AllFaces | pxr/imaging/plugin/hdRpr/mesh.cpp:85-86 | the concatenated subset indices contain exactly the faces some subset lists |
| MeshSubsets.UnusedFaces | pxr/imaging/plugin/hdRpr/mesh.cpp:101-108 | the leftover subset's indices are strictly ascending, as many as the unused count, and are exactly the unused faces |
| MeshSubsets.CompleteSubsets | pxr/imaging/plugin/hdRpr/mesh.cpp:82-110 | with no authored subsets or no unused face the subsets are unchanged; otherwise one subset with the unused faces and the mesh's own material is appended |
| MeshSubsets.CompletionCoversEveryFace | pxr/imaging/plugin/hdRpr/mesh.cpp:80-110 | after completion every face of the mesh belongs to some subset, and the added subset holds only faces no authored subset listed |
| MeshSubsets.PrefixOffsets | pxr/imaging/plugin/hdRpr/mesh.cpp:214-219 | each face's index offset is the sum of the vertex counts of all faces before it |
| MeshSubsets.PrefixOffsetsLoop | pxr/imaging/plugin/hdRpr/mesh.cpp:214-219 | the running-offset loop yields exactly those prefix sums |
| MeshSubsets.FaceSlice | pxr/imaging/plugin/hdRpr/mesh.cpp:240-245 | a face's slice of the vertex indices has as many entries as the face has vertices and is the run of indices that starts at the sum of the earlier faces' counts |
| MeshSubsets.ExtractSubset | pxr/imaging/plugin/hdRpr/mesh.cpp:228-258 | the extracted mesh has one face per subset face with that face's vertex count; each of its faces carries the same point indices as the source face it copies; its vertex indices run 0, 1, 2, … over as many points as the counts add up to |
| MeshSubsets.ExtractFaceSets | pxr/imaging/plugin/hdRpr/mesh.cpp:222-264 | among several subsets, each face set gives one mesh, in subset order, and a subset of any other type gives none; if no subset is a face set no mesh is made |
| MeshSubsets.ExtractFaceSetsAppend | pxr/imaging/plugin/hdRpr/mesh.cpp:222-264 | one more subset at the end adds its own re-indexed mesh with its material if it is a face set and nothing otherwise |
| MeshSubsets.AllFaceSetsExtracted | pxr/imaging/plugin/hdRpr/mesh.cpp:222-264 | when every subset is a face set, the k-th mesh is the k-th subset re-indexed, with that subset's material |
| MeshSubsets.BuildMeshes | pxr/imaging/plugin/hdRpr/mesh.cpp:200-266 | with no subsets, one whole mesh with the mesh's material; with exactly one subset, one whole mesh with that subset's material, whatever its faces or type; with more, only re-indexed subset meshes, one per face set |
| MeshSubsets.NonFaceSetAddsNoMesh | pxr/imaging/plugin/hdRpr/mesh.cpp:221-226 | among two or more subsets, adding a subset that is not a face set changes nothing |
| MeshSubsets.ExtractSubsetGathersFaces | pxr/imaging/plugin/hdRpr/mesh.cpp:236-256 | extracting a face list gives the points of all but its last face followed by the point indices of the last face |
| MeshSubsets.FaceVaryingIndices | pxr/imaging/plugin/hdRpr/mesh.cpp:125-129 | a face-varying primvar gets one index per face-vertex, each equal to its own position |
| PrimvarUtil.ClampSubdivision | pxr/imaging/plugin/hdRpr/primvarUtil.cpp:45-48 | the level always ends in [0, 7]; an in-range level is kept, a negative one becomes 0, a larger one 7 |
| PrimvarUtil.SetBits | pxr/imaging/plugin/hdRpr/primvarUtil.cpp:33-34 | raising a visibility flag sets all its bits and leaves every other bit of the mask alone |
| PrimvarUtil.ClearBits | pxr/imaging/plugin/hdRpr/primvarUtil.cpp:35-36 | lowering a visibility flag clears all its bits and leaves every other bit alone |
| PrimvarUtil.SetVisibilityFlag | pxr/imaging/plugin/hdRpr/primvarUtil.cpp:26-37 | a visibility primvar that is missing or not a bool leaves the mask alone; true raises the flag and false lowers it |
| PrimvarUtil.ParseGeometrySettings | pxr/imaging/plugin/hdRpr/primvarUtil.cpp:21-75 | no primvars, or only unrecognised ones, leave the settings unchanged, and without a visibility primvar the visibility mask is unchanged |
| PrimvarUtil.ApplyPrimvar | pxr/imaging/plugin/hdRpr/primvarUtil.cpp:40-74 | a subdivision level is clamped; deform samples become at least 1 even without a value; a visibility primvar changes only its flag; an unrecognised or value-less primvar changes nothing else; only visibility primvars touch the mask |
| PrimvarUtil.ParseKeepsRanges | pxr/imaging/plugin/hdRpr/primvarUtil.cpp:40-74 | after parsing a primvar list the subdivision level is in [0, 7], and the sample count is at least 1 once any deform-samples primvar was seen |
| PrimvarUtil.ParseWithoutVisibilityKeepsMask | pxr/imaging/plugin/hdRpr/primvarUtil.cpp:58-73 | a primvar list without visibility primvars leaves the visibility mask as it was |
| PrimvarUtil.CollectDescs | pxr/imaging/plugin/hdRpr/primvarUtil.cpp:95-100 | an interpolation has an entry exactly when the delegate reports some descriptor for it, and the entry is exactly that list |
| PrimvarUtil.FillPrimvarDescsPerInterpolation | pxr/imaging/plugin/hdRpr/primvarUtil.cpp:78-107 | a filled map is left alone; an empty map comes back non-empty: the delegate's non-empty lists, or the single dummy entry when the delegate reports nothing |
| PrimvarUtil.FillIsIdempotent | pxr/imaging/plugin/hdRpr/primvarUtil.cpp:102-106 | a second fill never asks the delegate again and changes nothing, even for a primitive with no primvars |
| PrimvarUtil.FindPrimvar | pxr/imaging/plugin/hdRpr/primvarUtil.cpp:124-139 | the found interpolation is the first one, in key order, whose descriptors name the primvar; nothing is found exactly when no listed interpolation names it |
| PrimvarUtil.KeyOrderIsComplete | pxr/imaging/plugin/hdRpr/primvarUtil.cpp:128 | the map iteration order visits every interpolation key |
| PrimvarUtil.IsPrimvarExists | pxr/imaging/plugin/hdRpr/primvarUtil.cpp:124-139 | the primvar exists exactly when some entry of the map names it, and the reported interpolation is one that does |
| PrimvarUtil.FindFirstRole | pxr/imaging/plugin/hdRpr/primvarUtil.cpp:109-122 | the found descriptor has the role and belongs to a listed interpolation; nothing is found exactly when no descriptor has the role |
| PrimvarUtil.FirstWithRole | pxr/imaging/plugin/hdRpr/primvarUtil.cpp:114-119 | within one list, the found descriptor is the first with the role |
| PrimvarUtil.IsValidPrimvarSize | pxr/imaging/plugin/hdRpr/primvarUtil.cpp:141-154 | varying primvars are always accepted; constant ones exactly when non-empty, uniform ones exactly with one value per face, vertex ones exactly with one value per point; face-varying, instance and unknown ones never |
| RprApiAov.SupportedFormat | pxr/imaging/plugin/hdRpr/rprApiAov.cpp:46-52 | a format with 8-bit unsigned-normalised, half or float components is kept, every other format falls back to four floats |
| RprApiAov.New | pxr/imaging/plugin/hdRpr/rprApiAov.cpp:42-76 | with the framebuffer `Create` corrected, the AOV keeps the supported format but has a resample filter exactly when the requested format is not four floats; the framebuffer has the requested size and AOV; a resolved framebuffer exists exactly off the Hybrid plugin; every dirty bit starts raised |
| RprApiAov.Resize | pxr/imaging/plugin/hdRpr/rprApiAov.cpp:124-137 | with the framebuffer `Create` corrected, the new format is stored and raises the format bit when different; a changed size raises the size bit; bits are never cleared; same format and size on both framebuffers change nothing |
| RprApiAov.Update | pxr/imaging/plugin/hdRpr/rprApiAov.cpp:139-164 | all dirty bits are cleared; a dirty format re-decides the filter (present exactly when the format is not four floats); otherwise the filter stays |
| RprApiAov.MaskPrimIds | pxr/imaging/plugin/hdRpr/rprApiAov.cpp:103-122 | for Int32 AOVs every value read back lies in [0, 2^24) and agrees with the raw value modulo 2^24 (values already in range are kept); other formats are untouched |
| RprApiAov.MaskPrimIdsIdempotent | pxr/imaging/plugin/hdRpr/rprApiAov.cpp:103-122 | masking the ids twice gives the same buffer as masking once |
| RprApiAov.EnableAIDenoise | pxr/imaging/plugin/hdRpr/rprApiAov.cpp:183-204 | already AI-denoising or a missing input changes nothing; otherwise the filter becomes AI denoise, is marked dirty and retains exactly the normal, depth and albedo inputs |
| RprApiAov.EnableEawDenoise | pxr/imaging/plugin/hdRpr/rprApiAov.cpp:206-231 | already EAW-denoising or any of the five inputs missing changes nothing; otherwise the filter becomes EAW denoise, is marked dirty and retains exactly those five inputs |
| RprApiAov.DisableDenoise | pxr/imaging/plugin/hdRpr/rprApiAov.cpp:233-244 | resampling or filterless AOVs are unchanged; otherwise the retained inputs are dropped and the filter type becomes none for four-float output and resample otherwise, marked dirty |
| RprApiAov.OnFormatChange | pxr/imaging/plugin/hdRpr/rprApiAov.cpp:288-298 | none and resample swap to follow the format, a denoise filter is kept, the size bit is always raised, and a resample need is never left as none |
| RprApiAov.ColorUpdate | pxr/imaging/plugin/hdRpr/rprApiAov.cpp:246-286 | after an update no bit and no filter change is pending, and format and retained inputs are unchanged |
| RprApiAov.ColorUpdateSettlesFilter | pxr/imaging/plugin/hdRpr/rprApiAov.cpp:251-279 | after an update that rebuilt the filter, a filter exists exactly when the filter type is not none, also when building a denoiser failed |
| RprApiAov.FormatChangeKeepsResampleInStep | pxr/imaging/plugin/hdRpr/rprApiAov.cpp:246-298 | starting settled without denoising, a format change followed by an update leaves resampling on exactly for formats other than four floats |
| RprApiAov.DepthResize | pxr/imaging/plugin/hdRpr/rprApiAov.cpp:369-381 | size and format are stored; a new format raises the format bit, a new width or height the size bit; an identical request changes nothing; bits are never cleared |
| Framebuffer.Delete | pxr/imaging/plugin/hdRpr/rprApiFramebuffer.cpp:139-147 | deleting detaches the AOV and destroys the RPR object but leaves the stored dimensions as they were |
| Framebuffer.AttachAs | pxr/imaging/plugin/hdRpr/rprApiFramebuffer.cpp:41-51 | attaching records the new AOV and changes nothing else |
| Framebuffer.CreateAsWritten | pxr/imaging/plugin/hdRpr/rprApiFramebuffer.cpp:116-137 | as written, zero dimensions return before anything is stored, so the old dimensions survive; non-zero ones are stored with a new RPR object |
| Framebuffer.ResizeThroughZeroLosesFramebuffer | pxr/imaging/plugin/hdRpr/rprApiFramebuffer.cpp:68-137 | as written, resizing a 4x4 framebuffer to 0x0 keeps width 4 without an RPR object, so resizing back to 4x4 reports no change and leaves it without one |
| Framebuffer.Create | pxr/imaging/plugin/hdRpr/rprApiFramebuffer.cpp:116-137 | as intended, the requested dimensions are always stored and the RPR object exists exactly when both are non-zero; the AOV is kept |
| Framebuffer.New | pxr/imaging/plugin/hdRpr/rprApiFramebuffer.cpp:8-17 | as intended (built on the corrected `Create`), a new framebuffer has the requested dimensions, no AOV, and an RPR object exactly when both dimensions are non-zero |
| Framebuffer.ResizeAsWritten | pxr/imaging/plugin/hdRpr/rprApiFramebuffer.cpp:68-82 | as written, equal dimensions report no change and touch nothing; a resize to non-zero dimensions stores them with a new RPR object and keeps the AOV; a resize with a zero dimension reports a change but keeps the old dimensions and AOV and leaves no RPR object |
| Framebuffer.ResizeAgreesOnNonZero | pxr/imaging/plugin/hdRpr/rprApiFramebuffer.cpp:68-82 | the written and the corrected resize give the same result whenever both requested dimensions are non-zero |
| Framebuffer.Resize | pxr/imaging/plugin/hdRpr/rprApiFramebuffer.cpp:68-82 | as intended (built on the corrected `Create`), equal dimensions report no change and touch nothing; otherwise the new dimensions are stored, the AOV is re-attached, and the RPR object exists exactly when both are non-zero |
| Framebuffer.ResizeKeepsConsistency | pxr/imaging/plugin/hdRpr/rprApiFramebuffer.cpp:68-82 | with `Create` corrected, a framebuffer that has an RPR object exactly when its dimensions are non-zero stays so under any resize |
| Framebuffer.Move | pxr/imaging/plugin/hdRpr/rprApiFramebuffer.cpp:27-39 | the move target takes the source's whole state and the source is left 0x0, detached and without an RPR object |
| Framebuffer.GetSizeAsWritten | pxr/imaging/plugin/hdRpr/rprApiFramebuffer.cpp:97-99 | as written, the size is a 32-bit product times four bytes, so it stays below 2^34 whatever the dimensions |
| Framebuffer.GetSize | pxr/imaging/plugin/hdRpr/rprApiFramebuffer.cpp:97-99 | as intended, the size is a whole number of four-float pixels, one per pixel of the framebuffer |
| Framebuffer.GetSizeAgreesWithoutOverflow | pxr/imaging/plugin/hdRpr/rprApiFramebuffer.cpp:97-99 | the two sizes agree while width × height × 4 fits in 32 bits |
| Framebuffer.GetSizeWrapsAt32768 | pxr/imaging/plugin/hdRpr/rprApiFramebuffer.cpp:97-99 | a 32768x32768 framebuffer has a size of 0 as written and 2^34 as intended |
| Framebuffer.GetDataAsWritten | pxr/imaging/plugin/hdRpr/rprApiFramebuffer.cpp:84-95 | as written, reading succeeds only for a framebuffer with pixels and an RPR object whose wrapped 32-bit size fits the destination, and then it is the RPR read's result |
| Framebuffer.GetDataAsWrittenAcceptsEmptyDestination | pxr/imaging/plugin/hdRpr/rprApiFramebuffer.cpp:89-90 | as written, a 32768x32768 framebuffer passes the destination check with a zero-byte destination, which the intended check refuses |
| Framebuffer.GetDataAgreesWithoutOverflow | pxr/imaging/plugin/hdRpr/rprApiFramebuffer.cpp:84-99 | the written and intended reads agree while width × height × 4 fits in 32 bits |
| Framebuffer.GetData | pxr/imaging/plugin/hdRpr/rprApiFramebuffer.cpp:84-95 | as intended, reading succeeds only for a framebuffer with pixels and an RPR object whose true byte size fits the destination, and then it is the RPR read's result |
| AovRegistry.AddLookup | pxr/imaging/plugin/hdRpr/aovDescriptor.cpp:69-74 | registering a name that is already mapped leaves the map as it was (the duplicate is only reported); a new name is added with its id and table |
| AovRegistry.BuildLookup | pxr/imaging/plugin/hdRpr/aovDescriptor.cpp:69-74 | every name in the table maps to the value of some registration of that name, and the first registration is always in the table with its own value |
| AovRegistry.BuildLookupDomain | pxr/imaging/plugin/hdRpr/aovDescriptor.cpp:69-112 | after the constructor's registrations, a name is known exactly when some registration carried it |
| AovRegistry.FirstMappingWins | pxr/imaging/plugin/hdRpr/aovDescriptor.cpp:69-74 | the first registration of a name is the one the map keeps, whatever later duplicates say |
| AovRegistry.GetAovDescById | pxr/imaging/plugin/hdRpr/aovDescriptor.cpp:124-136 | an id inside the chosen table (computed or not) gives that table's entry; an id at or past its size gives the invalid descriptor |
| AovRegistry.GetAovDesc | pxr/imaging/plugin/hdRpr/aovDescriptor.cpp:115-122 | an unregistered name gives the invalid descriptor; a registered one resolves through its id and table flag |
| AovRegistry.ShippedColorAndDepthFirst | pxr/imaging/plugin/hdRpr/aovDescriptor.cpp:76-81 | the shipped registrations put `color` first and `depth` fifth, with no earlier `depth` |
| AovRegistry.ColorAndDepthAreComputed | pxr/imaging/plugin/hdRpr/aovDescriptor.cpp:67-81 | Hydra's `color` name resolves to the computed colour-with-alpha AOV and `depth` to the computed NDC depth AOV |
| AovRegistry.UnknownNameIsInvalid | pxr/imaging/plugin/hdRpr/aovDescriptor.cpp:115-119 | any name the constructor does not register gives the invalid descriptor |
| RenderBuffer.AovForPrimName | pxr/imaging/plugin/hdRpr/renderBuffer.cpp:28-58 | a prim name gets an AOV name exactly when it is one of the six buffer names, and a valid format exactly then; the primId buffer stores four 8-bit channels |
| RenderBuffer.New | pxr/imaging/plugin/hdRpr/renderBuffer.cpp:17-59 | a new buffer has no mapper and no dimensions, and its AOV and format come from its prim name |
| RenderBuffer.Allocate | pxr/imaging/plugin/hdRpr/renderBuffer.cpp:66-84 | allocation succeeds exactly when the buffer has an AOV and enabling it succeeds; then the dimensions are stored, otherwise nothing changes |
| RenderBuffer.UnknownPrimNeverAllocates | pxr/imaging/plugin/hdRpr/renderBuffer.cpp:28-71 | a buffer whose prim name is not a buffer name is refused by every allocation |
| RenderBuffer.Deallocate | pxr/imaging/plugin/hdRpr/renderBuffer.cpp:86-96 | the format becomes invalid and both dimensions zero; the AOV and mapper count stay |
| RenderBuffer.GetFormat | pxr/imaging/plugin/hdRpr/renderBuffer.cpp:110-115 | a primId buffer reports 32-bit ints whatever it stores; every other buffer reports its stored format |
| RenderBuffer.Map | pxr/imaging/plugin/hdRpr/renderBuffer.cpp:121-125 | mapping raises the mapper count by one and changes nothing else |
| RenderBuffer.Unmap | pxr/imaging/plugin/hdRpr/renderBuffer.cpp:127-131 | unmapping lowers a positive count by one and leaves a zero count at zero; nothing else changes |
| RenderBuffer.MapUnmapBalance | pxr/imaging/plugin/hdRpr/renderBuffer.cpp:121-135 | n maps make an unmapped buffer mapped, and n or more unmaps make it unmapped again |
| RenderBuffer.MapTimesCount | pxr/imaging/plugin/hdRpr/renderBuffer.cpp:121-125 | n maps raise the count by n |
| RenderBuffer.UnmapTimesCount | pxr/imaging/plugin/hdRpr/renderBuffer.cpp:127-131 | n unmaps lower the count by n, stopping at zero |
| RenderBuffer.MaskPrimIds | pxr/imaging/plugin/hdRpr/renderBuffer.cpp:140-154 | every int of the width×height pixels keeps exactly its low 24 bits and the rest of the cache is untouched |
| ImageFilter.SomeGpuSplit | pxr/imaging/plugin/hdRpr/ImageFilter.cpp:57-61 | some GPU flag of a list is used exactly when one of the list without its last flag is, or the last one is |
| ImageFilter.HasGpuContext | pxr/imaging/plugin/hdRpr/ImageFilter.cpp:18-30 | a context with no creation flags, or with no GPU flag bits to test, is never a GPU context |
| ImageFilter.MaskStep | pxr/imaging/plugin/hdRpr/ImageFilter.cpp:22-27 | adding one GPU flag to the mask adds exactly the test of that flag |
| ImageFilter.HasGpuContextIffSomeGpu | pxr/imaging/plugin/hdRpr/ImageFilter.cpp:18-61 | testing the context flags against the combined GPU mask is the same as testing each GPU flag on its own |
| ImageFilter.GpuDeviceIdUsed | pxr/imaging/plugin/hdRpr/ImageFilter.cpp:32-64 | the result is the index of the lowest GPU flag present in the context flags, or -1 exactly when the context has no GPU |
| ImageFilter.NewImageFilter | pxr/imaging/plugin/hdRpr/ImageFilter.cpp:66-90 | a new filter has the given size and no filter type, and uses Metal exactly when the Metal flag is set, a GPU context exactly when Metal is not set and some GPU flag is, and the CPU otherwise |
| ImageFilter.CreateFilter | pxr/imaging/plugin/hdRpr/ImageFilter.cpp:97-114 | creating a filter records its type and keeps everything else |
| ImageFilter.Resize | pxr/imaging/plugin/hdRpr/ImageFilter.cpp:121-125 | resizing records the new dimensions and keeps the context and filter type |
| ImageFilter.AddInput | pxr/imaging/plugin/hdRpr/ImageFilter.cpp:520-523 | the input for an id becomes the given one whether or not it existed; every other input is kept and the parameters are untouched |
| ImageFilter.AddParam | pxr/imaging/plugin/hdRpr/ImageFilter.cpp:525-528 | the parameter of a name becomes the given one whether or not it existed; every other parameter is kept and the inputs are untouched |
| ImageFilter.AddOverwrites | pxr/imaging/plugin/hdRpr/ImageFilter.cpp:520-528 | the last write for a key wins, and writing a key again never grows the table |
| CoreImage.BytesPerComponent | pxr/imaging/rprUsd/coreImage.cpp:24-29 | half floats take two bytes, floats four, and only 8-bit components take one |
| CoreImage.GetRprImageDesc | pxr/imaging/rprUsd/coreImage.cpp:23-39 | the descriptor carries the given dimensions; the pitches are 32-bit values and, without wrap-around, the row pitch is width × components × component bytes |
| CoreImage.SlicePitchIsImageBytes | pxr/imaging/rprUsd/coreImage.cpp:35-36 | without wrap-around a slice pitch is exactly width × height × components × component bytes |
| CoreImage.ComponentTypeOf | pxr/imaging/rprUsd/coreImage.cpp:43-56 | unsigned bytes, half floats and floats are the only accepted pixel types, each mapped to its RPR component type |
| CoreImage.ComponentCountOf | pxr/imaging/rprUsd/coreImage.cpp:58-71 | red, RGB and RGBA are the only accepted layouts, with 1, 3 and 4 components |
| CoreImage.CreateRprImage | pxr/imaging/rprUsd/coreImage.cpp:41-82 | an image is created exactly when its pixel type and layout are supported and the context accepts it, and it keeps the texture's dimensions |
| CoreImage.AcceptedTiles | pxr/imaging/rprUsd/coreImage.cpp:124-155 | every sub-image comes from a given tile with an id in [1001, 1100] whose image could be created |
| CoreImage.Accepted | pxr/imaging/rprUsd/coreImage.cpp:124-134 | a tile is accepted exactly when its id is in [1001, 1100], its pixel type and layout are supported and the context can create its image; on its own, exactly such a tile gives one sub-image |
| CoreImage.AcceptedIndices | pxr/imaging/rprUsd/coreImage.cpp:124-134 | the positions of the tiles with an id in [1001, 1100] and a creatable image, strictly increasing, with every such tile listed |
| CoreImage.AcceptedTilesInOrder | pxr/imaging/rprUsd/coreImage.cpp:124-155 | the sub-images are exactly the accepted tiles in tile order: the k-th sub-image has the k-th accepted tile's id and created image, and no accepted tile is skipped |
| CoreImage.AcceptedTilesIff | pxr/imaging/rprUsd/coreImage.cpp:124-134 | no sub-image is produced exactly when every tile has an out-of-range id or an image that cannot be created |
| CoreImage.Create | pxr/imaging/rprUsd/coreImage.cpp:104-159 | no tiles give null; a lone tile 0 gives a plain image exactly when it can be created; otherwise the result exists exactly when some tile is accepted and the root image can be created, and then holds exactly the accepted tiles |
| CoreImage.GetBaseImage | pxr/imaging/rprUsd/coreImage.cpp:171-173 | the base image is the first sub-image, or the root image when there are none |
| CoreImage.ForEachImage | pxr/imaging/rprUsd/coreImage.cpp:175-188 | with no sub-images the root's status is returned; otherwise success means every sub-image succeeded, and a failure is the status of the first failing sub-image |
| CoreImage.FirstFailure | pxr/imaging/rprUsd/coreImage.cpp:180-186 | success from a position on means every later sub-image succeeded; otherwise the status is that of the first failing one |
| CoreImage.ForEachImageSucceedsIffAll | pxr/imaging/rprUsd/coreImage.cpp:175-188 | over sub-images, `ForEachImage` succeeds if and only if every sub-image succeeds |
| MaterialRegistry.Register | pxr/imaging/rprUsd/materialRegistry.h:184-198 | registration succeeds exactly when the id is new; then the id gets the next slot holding its descriptor and every other id keeps its slot; a duplicate changes nothing |
| MaterialRegistry.RegisterKeepsIndexed | pxr/imaging/rprUsd/materialRegistry.h:192-197 | after registration the lookup still sends distinct ids to distinct valid slots, and a newly registered id finds its own descriptor |
| MaterialRegistry.CommitTexture | pxr/imaging/rprUsd/materialRegistry.h:200-202 | the commit is queued after all earlier ones and the node table is untouched |
| MaterialRegistry.GetCStr | pxr/imaging/rprUsd/materialRegistry.h:204-206 | null exactly for the empty string, otherwise the string itself |
| MaterialRegistry.GetUniqueTextureIndex | pxr/imaging/rprUsd/materialRegistry.cpp:135-141 | a known path returns its existing index unchanged; a new path is appended with its tile id and gets the next index; the path-to-index mapping and the texture list stay inverse to each other |
| MaterialRegistry.ExistingTiles | pxr/imaging/rprUsd/materialRegistry.cpp:157-162 | the scanned tiles are exactly the ids from the starting tile to 1100 whose file exists, each once, in ascending order |
| MaterialRegistry.AllTilesFound | pxr/imaging/rprUsd/materialRegistry.cpp:157-162 | when every tile file exists, the scan from 1001 finds all 100 tiles 1001..1100 |
| MaterialRegistry.TileIndices | pxr/imaging/rprUsd/materialRegistry.cpp:156-165 | the tile scan only appends textures and keeps tile ids 0 or within 1001..1100; it returns one index per existing tile, in tile order, and the k-th index names the k-th existing tile's path |
| MaterialRegistry.UdimFormat | pxr/imaging/rprUsd/materialRegistry.cpp:156 | a path names a tile set exactly when one of the UDIM tags occurs in it |
| MaterialRegistry.CommitIndices | pxr/imaging/rprUsd/materialRegistry.cpp:147-168 | a cached commit needs no texture; a plain commit needs exactly one texture, that of its own path; a UDIM path needs one texture per existing tile, in tile order, each at the path the tile number prints into the format string; the table only grows |
| MaterialRegistry.CollectTextures | pxr/imaging/rprUsd/materialRegistry.cpp:146-169 | one index list per commit, every index naming a texture of the consistent de-duplicated table |
| MaterialRegistry.CachedCommitNeedsNothing | pxr/imaging/rprUsd/materialRegistry.cpp:149-152 | a commit the image cache already holds gets no texture indices |
| MaterialRegistry.PlainCommitNeedsOwnTexture | pxr/imaging/rprUsd/materialRegistry.cpp:166-168 | a non-UDIM commit gets exactly one index, naming the texture of its own file path, despite later commits growing the table |
| MaterialRegistry.SameFileSharesTexture | pxr/imaging/rprUsd/materialRegistry.cpp:135-141 | two plain commits of the same file are given the same single texture, so it is read once |
| MaterialRegistry.CommitResources | pxr/imaging/rprUsd/materialRegistry.cpp:116-209 | the queue is empty afterwards and the node table untouched; the texture table and the per-commit index lists are exactly what collecting the queued commits in order gives, one list per commit, over a consistent table |
| MaterialNetwork.TransferNode | pxr/imaging/rprUsd/materialRegistry.cpp:313-328 | a legacy node adds its path; a path already present keeps its first definition; a terminal node is recorded under the terminal's name unless that name is already taken; a non-terminal node leaves the terminals alone |
| MaterialNetwork.FromHd | pxr/imaging/rprUsd/materialRegistry.cpp:327-329 | a converted node keeps the legacy node's identifier as its type and its parameters, and starts with no input connections |
| MaterialNetwork.TransferNodes | pxr/imaging/rprUsd/materialRegistry.cpp:313-328 | the converted node paths are the old ones plus every legacy node's path, and nodes already present are untouched |
| MaterialNetwork.FirstDefinitionWins | pxr/imaging/rprUsd/materialRegistry.cpp:323-325 | when several legacy nodes share a path, the converted node is the first of them |
| MaterialNetwork.TransferRelationship | pxr/imaging/rprUsd/materialRegistry.cpp:332-343 | a relationship sets its destination node's input to the upstream node and output, replacing an earlier connection of that input; a missing destination leaves the network unchanged; no other node, type id or parameter changes |
| MaterialNetwork.TransferRelationshipKeepsWellFormed | pxr/imaging/rprUsd/materialRegistry.cpp:340 | every node's input connections stay a map ordered by input name |
| MaterialNetwork.TransferRelationships | pxr/imaging/rprUsd/materialRegistry.cpp:332-343 | relationships never add or remove nodes or terminals and keep the input maps ordered |
| MaterialNetwork.DanglingRelationshipsIgnored | pxr/imaging/rprUsd/materialRegistry.cpp:335-339 | relationships whose destination nodes are all missing leave the network exactly as it was |
| MaterialNetwork.ConvertLegacy | pxr/imaging/rprUsd/materialRegistry.cpp:305-348 | the converted nodes are exactly the nodes of all terminal networks, and every terminal points at a terminal node's output named after the terminal |
| MaterialNetwork.ConvertEntries | pxr/imaging/rprUsd/materialRegistry.cpp:309-347 | the per-terminal loop: node set is the union of the networks' nodes so far, input maps stay ordered, terminals name terminal nodes |
| MaterialNetwork.TransferNodesTerminals | pxr/imaging/rprUsd/materialRegistry.cpp:316-320 | transferring nodes records only terminal nodes, each under its own terminal name, and keeps the input maps ordered |
| MaterialNetwork.GetNodeOutput | pxr/imaging/rprUsd/materialRegistry.cpp:462-506 | a missing node yields nothing and changes nothing; a material node yields its named output exactly when its class has that output (line 493), and has its inputs set at most once (a visited node causes no calls); a non-empty result always comes from a material node; a node without a material object and without inputs yields nothing and changes nothing; every new SetInput call targets a node visited by this call |
| MaterialNetwork.PassThroughForwards | pxr/imaging/rprUsd/materialRegistry.cpp:495-504 | a node without a material object passes through its first input: when that input comes from material node `q`, the result and the traversal are those of a direct connection to `q`, so the value is `q`'s named output when its class has it and nothing otherwise |
| MaterialNetwork.SetInputs | pxr/imaging/rprUsd/materialRegistry.cpp:482-490 | the input loop only appends calls, never sets an input to an empty value, and calls only the node itself or nodes newly visited upstream |
| MaterialNetwork.GetTerminalOutput | pxr/imaging/rprUsd/materialRegistry.cpp:508-515 | a terminal absent from the network yields nothing; otherwise the traversal only appends calls to nodes not visited before |
| MaterialMappings.ToRpr | pxr/imaging/rprUsd/materialMappings.cpp:70-81 | a known token writes its mapped value and succeeds; an unknown token fails, leaves the output as it was, and is reported exactly when pedantic |
| MaterialMappings.PedanticOnlyReports | pxr/imaging/rprUsd/materialMappings.cpp:70-81 | the pedantic switch changes only whether an error is reported, never the result or the output |
| MaterialMappings.NodeTypeToRpr | pxr/imaging/rprUsd/materialMappings.cpp:24-82 | a material node type token is found exactly when it is in the node-type table, and then gives its RPR node type |
| MaterialMappings.NodeInputToRpr | pxr/imaging/rprUsd/materialMappings.cpp:84-190 | a material input token is found exactly when it is in the input table, and then gives its RPR input |
| MaterialMappings.InputModeToRpr | pxr/imaging/rprUsd/materialMappings.cpp:192-222 | a mode token is found exactly when it is in the mode table, and then gives its RPR mode value |
| MaterialMappings.ModeTokensAreCaseSensitive | pxr/imaging/rprUsd/materialMappings.cpp:192-222 | the mode token `PBR` maps to the PBR IOR mode, while `pbr` is unknown and reported when pedantic |
| MtlxNode.ParseBool | pxr/imaging/rprUsd/materialNodes/mtlxNode.cpp:25-33 | a value is produced exactly for the strings `true` and `false`, and it is true exactly for `true`; anything else leaves the value empty |
| MtlxNode.Tokenize | pxr/imaging/rprUsd/materialNodes/mtlxNode.cpp:53 | splitting on the delimiters never yields an empty token |
| MtlxNode.TokenizeRun | pxr/imaging/rprUsd/materialNodes/mtlxNode.cpp:53 | a run of non-delimiter characters is read into the current token |
| MtlxNode.TokenizeJoin | pxr/imaging/rprUsd/materialNodes/mtlxNode.cpp:53 | splitting delimiter-free tokens joined by a delimiter gives back exactly those tokens |
| MtlxNode.ParseVec | pxr/imaging/rprUsd/materialNodes/mtlxNode.cpp:51-69 | a vector is produced only when the string has exactly as many components as the vector's dimension, each component being the float parse of the matching token; a wrong count leaves the value empty |
| MtlxNode.ParseAll | pxr/imaging/rprUsd/materialNodes/mtlxNode.cpp:60-65 | all components parse and are kept in order, or some token fails to parse and nothing is produced |
| MtlxNode.ElementTypeOf | pxr/imaging/rprUsd/materialNodes/mtlxNode.cpp:154-179 | exactly the eleven known MaterialX type names are valid; a `string` is a token exactly when it has an enum attribute; only `string` yields a string or token type |
| MtlxNode.InputTypeOf | pxr/imaging/rprUsd/materialNodes/mtlxNode.cpp:181-187 | an input is a normal exactly when its default geometric property is `Nworld`; otherwise its type is that of its type name |
| MtlxNode.GetTokenParameterMapping | pxr/imaging/rprUsd/materialNodes/mtlxNode.cpp:96-131 | valid exactly when the input has an RPR input, every token has an RPR mode and the default value is among the tokens; then the modes are listed in token order and the default index is the last position of the default value; an unknown input leaves the default index at -1 |
| MtlxNode.RemapTokenInputAsWritten | pxr/imaging/rprUsd/materialNodes/mtlxNode.cpp:133-144 | an integer within the mapped values is accepted, and the value passed on is that integer itself rather than the mode it selects |
| MtlxNode.RemapTokenInput | pxr/imaging/rprUsd/materialNodes/mtlxNode.cpp:133-144 | accepts the same inputs as the code, and what it passes on is one of the mapped RPR mode values |
| MtlxNode.RemapAsWrittenSendsIndex | pxr/imaging/rprUsd/materialNodes/mtlxNode.cpp:133-144 | with modes [1, 2] and input 0 the written code sends 0 where the mode at position 0 is 1 |
| MtlxNode.RemapAgreesOnAcceptance | pxr/imaging/rprUsd/materialNodes/mtlxNode.cpp:133-144 | the written and corrected remaps accept the same inputs, and the corrected one sends the mode at the index the written one sends |
| ArithmeticNode.NodeName | pxr/imaging/rprUsd/materialNodes/rpr/arithmeticNode.cpp:24-30 | the registered node name is `rpr_arithmetic_` followed by the operation name, without its `RPR_MATERIAL_NODE_OP_` prefix, lower-cased character by character |
| ArithmeticNode.InputNames | pxr/imaging/rprUsd/materialNodes/rpr/arithmeticNode.cpp:34-42 | the node declares exactly one input per argument, named `color0`, `color1`, … in order |
| ArithmeticNode.ArgIndex | pxr/imaging/rprUsd/materialNodes/rpr/arithmeticNode.cpp:398-410 | only a token spelled `color` plus a digit below 4 selects an argument slot, and it selects the slot that digit names |
| ArithmeticNode.DeclaredInputsBind | pxr/imaging/rprUsd/materialNodes/rpr/arithmeticNode.cpp:34-42 | every input the node info declares is accepted by the token `SetInput`, at the slot its number names |
| ArithmeticNode.OnlyColorTokensBind | pxr/imaging/rprUsd/materialNodes/rpr/arithmeticNode.cpp:398-410 | a token binds if and only if it is one of `color0`..`color3` |
| ArithmeticNode.SetInputAt | pxr/imaging/rprUsd/materialNodes/rpr/arithmeticNode.cpp:415-428 | an index outside [0, 3] is refused and nothing changes; otherwise that argument alone takes the value and the cached output is dropped |
| ArithmeticNode.SetInput | pxr/imaging/rprUsd/materialNodes/rpr/arithmeticNode.cpp:395-413 | a token is accepted exactly when it names a slot, and then it behaves as setting that index; an unknown token changes nothing |
| ArithmeticNode.GetOutput | pxr/imaging/rprUsd/materialNodes/rpr/arithmeticNode.cpp:430-483 | as intended, with the `SetRprInput` test of line 470 corrected: a cached output is returned unchanged; with nothing cached, plain arguments are evaluated on the CPU, and any material-node argument gives an engine arithmetic node exactly when the node is created, its operation is set and every argument slot is set; otherwise the output is empty; the arguments are never touched |
| ArithmeticNode.GetOutputAsWritten | pxr/imaging/rprUsd/materialNodes/rpr/arithmeticNode.cpp:430-483 | as written: the engine node is kept only when every unset argument's zero-colour call succeeds and every set argument's `SetRprInput` call fails, because line 470 compares a `bool` with `RPR_SUCCESS` (zero); otherwise the output is empty; cached and CPU-evaluated outputs are as in the corrected version |
| ArithmeticNode.SuccessfulSetsLoseOutputAsWritten | pxr/imaging/rprUsd/materialNodes/rpr/arithmeticNode.cpp:464-476 | when every argument call succeeds and some argument is a material node, every slot is set, yet the written test rejects the node |
| ArithmeticNode.AsWrittenKeepsOnlyOnFailures | pxr/imaging/rprUsd/materialNodes/rpr/arithmeticNode.cpp:464-476 | a node the written test keeps has every set argument's call failed, so with any set argument not every slot is set |
| ArithmeticNode.Fresh | pxr/imaging/rprUsd/materialNodes/rpr/arithmeticNode.cpp:131-134 | a newly constructed node has every argument unset and nothing cached |
| ArithmeticNode.BindParameters | pxr/imaging/rprUsd/materialNodes/rpr/arithmeticNode.cpp:131-132 | binding the constructor's parameters keeps the operation and arity and caches nothing; parameters that name no slot leave the node as it was |
| ArithmeticNode.LastBindingWins | pxr/imaging/rprUsd/materialNodes/rpr/arithmeticNode.cpp:131-132 | a parameter's value ends up in its slot unless a later parameter names the same slot |
| ArithmeticNode.Untouched | pxr/imaging/rprUsd/materialNodes/rpr/arithmeticNode.cpp:131-132 | parameters naming other slots leave a slot's value unchanged |
| ArithmeticNode.Register | pxr/imaging/rprUsd/materialNodes/rpr/arithmeticNode.cpp:63-81 | a second registration of an operation is refused and changes nothing; a first one appends its description with its declared arity and points the operation at it, keeping every lookup pointing at its own description |
| ArithmeticNode.RegisterNode | pxr/imaging/rprUsd/materialNodes/rpr/arithmeticNode.cpp:63-81 | a new operation is registered in the arithmetic table and its node name in the general material registry, which keeps its earlier names and gives a new name the next slot with the node's factory and info; a refused one touches neither; every registered operation stays published in the general registry |
| ArithmeticNode.Create | pxr/imaging/rprUsd/materialNodes/rpr/arithmeticNode.cpp:83-94 | creation succeeds exactly for a registered operation, giving a node of that operation with its registered arity and nothing cached |
| ArithmeticNode.SetInputInvalidatesCache | pxr/imaging/rprUsd/materialNodes/rpr/arithmeticNode.cpp:423-424 | any accepted input drops the cached output, so the next `GetOutput` recomputes |
| LightRegistry.NotifyClients | pxr/imaging/rprUsd/lightRegistry.cpp:32-52 | exactly the path's registered clients are called, each with its own callback and the same light |
| LightRegistry.Register | pxr/imaging/rprUsd/lightRegistry.cpp:22-38 | the light is inserted or overwritten at its path, the clients are kept, and the path's clients are told about the new light |
| LightRegistry.Release | pxr/imaging/rprUsd/lightRegistry.cpp:40-53 | the path's light is gone, every other light is kept, and the path's clients are told with null |
| LightRegistry.Lookup | pxr/imaging/rprUsd/lightRegistry.cpp:76-77 | a registered path gives its light; any other gives null |
| LightRegistry.GetAsWritten | pxr/imaging/rprUsd/lightRegistry.cpp:55-78 | as written, the caller's callback goes into a copy when the path already has clients, so the registry is unchanged; only a path without clients gains a map with the caller |
| LightRegistry.Get | pxr/imaging/rprUsd/lightRegistry.cpp:55-78 | as intended, the caller is added to or updated in the path's clients, every other client and path is kept, and the lookup result is returned |
| LightRegistry.ReleaseClientAsWritten | pxr/imaging/rprUsd/lightRegistry.cpp:80-96 | as written, the client is erased from a copy: a path is dropped exactly when the client was its only client, and every kept path keeps all its clients, the released one included |
| LightRegistry.ReleaseClient | pxr/imaging/rprUsd/lightRegistry.cpp:80-96 | as intended, the client leaves every path, paths left without clients are dropped, and every other client stays |
| LightRegistry.OperationsKeepClientMapsNonEmpty | pxr/imaging/rprUsd/lightRegistry.cpp:22-96 | no operation leaves a path with an empty client map |
| LightRegistry.RegisterThenGet | pxr/imaging/rprUsd/lightRegistry.cpp:22-77 | asking right after registering yields the new light, and asking right after releasing yields null |
| LightRegistry.GetSubscribes | pxr/imaging/rprUsd/lightRegistry.cpp:32-96 | with the intended `Get`, a client that asked hears the next registration of its path, and after its release it hears nothing |
| LightRegistry.SecondClientNotSubscribedAsWritten | pxr/imaging/rprUsd/lightRegistry.cpp:58-69 | as written, a second client asking for a path already watched by one client is not told about the next registration |
| LightRegistry.ReleasedClientStillCalledAsWritten | pxr/imaging/rprUsd/lightRegistry.cpp:82-95 | as written, a released client that shared a path with another client is still called on the next registration |
| HybridCheck.NewSupportCheck | pxr/imaging/rprUsd/hybridCheck.cpp:246-299 | a failed Vulkan step leaves no flags; otherwise there is one flag per enumerated device, set exactly when that device is an allow-listed AMD part |
| HybridCheck.IsDeviceSupported | pxr/imaging/rprUsd/hybridCheck.cpp:209-244 | a device is supported exactly when its vendor is AMD (0x1002) and its id is on the allow list, so its id is 0x1002 or lies in 0x7310-0x743f |
| HybridCheck.Supported | pxr/imaging/rprUsd/hybridCheck.cpp:301-303 | an index past the end is unsupported; any other reads its device's flag |
| HybridCheck.SupportedMeansAllowListed | pxr/imaging/rprUsd/hybridCheck.cpp:209-303 | a device index is reported supported if and only if it exists, has AMD's vendor id 0x1002 and a device id on the allow-list |
| HybridCheck.AllowListExamples | pxr/imaging/rprUsd/hybridCheck.cpp:209-244 | the RX 6800 id 0x73bf is supported from AMD, the same id from another vendor is not, and an AMD id off the list is not |
| MtlxLoader.GetScale | deps/rprMtlxLoader/rprMtlxLoader.cpp:325-331 | a known unit gives its own scale, any other unit the scene's scale |
| MtlxLoader.ConversionScale | deps/rprMtlxLoader/rprMtlxLoader.cpp:333-335 | the factor times the destination unit's scale gives the source unit's scale |
| MtlxLoader.ConversionScalesCompose | deps/rprMtlxLoader/rprMtlxLoader.cpp:333-335 | converting a unit to itself is the factor 1, and converting a→b then b→c equals converting a→c |
| MtlxLoader.ToOutputType | deps/rprMtlxLoader/rprMtlxLoader.cpp:2120-2129 | a type is a surface output exactly when it is `surfaceshader` or one of the six wrappable value types, a displacement output exactly when it is `displacementshader`, and never "any" |
| MtlxLoader.AddOutput | deps/rprMtlxLoader/rprMtlxLoader.cpp:2492-2516 | an output of an unrenderable type, of a type other than the one requested, or of an already settled type changes nothing; otherwise its type becomes settled with this output as its element |
| MtlxLoader.Exists | deps/rprMtlxLoader/rprMtlxLoader.cpp:2478-2483 | a single output type exists exactly when its bit is set; `kOutputAny` exists exactly when both the surface and the displacement bits are set |
| MtlxLoader.ExistsAnyIffBoth | deps/rprMtlxLoader/rprMtlxLoader.cpp:2478-2483 | `kOutputAny` exists exactly when both the surface and the displacement outputs exist |
| MtlxLoader.Add | deps/rprMtlxLoader/rprMtlxLoader.cpp:2452-2463 | an already present type or no outputs change nothing; otherwise only element types are added and every settled slot keeps its element |
| MtlxLoader.SettledSlotKept | deps/rprMtlxLoader/rprMtlxLoader.cpp:2452-2514 | offering further outputs never unsettles a type and never replaces a settled type's element, so the first output found wins |
| MtlxLoader.MismatchedOutputsIgnored | deps/rprMtlxLoader/rprMtlxLoader.cpp:2500-2505 | when a concrete type is requested, outputs of any other type leave the elements unchanged |
| MtlxLoader.StopsAtFirstMatch | deps/rprMtlxLoader/rprMtlxLoader.cpp:2452-2463 | searching for a type not yet settled picks exactly the first output of that type |
| MtlxLoader.Disable | deps/rprMtlxLoader/rprMtlxLoader.cpp:2465-2468 | a disabled type counts as existing but has no element; other types' elements are untouched |
| MtlxLoader.EnterScope | deps/rprMtlxLoader/rprMtlxLoader.cpp:736-747 | entering sets the scope; the global scope resets the depth to -1, graph or node scopes go one deeper, an input scope keeps the depth |
| MtlxLoader.LeaveScope | deps/rprMtlxLoader/rprMtlxLoader.cpp:749-752 | leaving restores the depth and scope the guard recorded |
| MtlxLoader.ScopesRestore | deps/rprMtlxLoader/rprMtlxLoader.cpp:736-752 | leaving a scope restores the context entering it replaced, also for two nested scopes |
| MtlxLoader.MoveHandles | deps/rprMtlxLoader/rprMtlxLoader.cpp:1822-1840 | a move exports exactly as many handles as the counting pass reports, the node's own owned handle first, and leaves nothing more to export |
| MtlxLoader.CountHandles | deps/rprMtlxLoader/rprMtlxLoader.cpp:1822-1840 | a node exports at most its own handle plus one per converter |
| MtlxLoader.CountThenMove | deps/rprMtlxLoader/rprMtlxLoader.cpp:1822-1840 | moving out the handles returns as many as were counted, and a node moved once has no handle left to move |
| MtlxLoader.ConverterHandles | deps/rprMtlxLoader/rprMtlxLoader.cpp:1835-1837 | the converters contribute at most one handle each |
| MtlxLoader.NoHandlesReleased | deps/rprMtlxLoader/rprMtlxLoader.cpp:974-983 | converters whose handles were moved out export nothing on a later pass |
| DevicesConfig.PluginFromName | pxr/imaging/rprUsd/devicesConfiguration.py:119 | a stored plugin name is accepted only when it is the enum name of a plugin, and it maps back to that plugin |
| DevicesConfig.Field | pxr/imaging/rprUsd/devicesConfiguration.py:53-54 | reading a key succeeds exactly when the value is an object holding that key; otherwise it is the `KeyError` case |
| DevicesConfig.SerializeGpu | pxr/imaging/rprUsd/devicesConfiguration.py:42-49 | a GPU becomes an object with exactly the keys `is_enabled` and `gpu_info`, which deserializes back to the same GPU |
| DevicesConfig.DeserializeGpu | pxr/imaging/rprUsd/devicesConfiguration.py:51-54 | a GPU entry is read only when it has both `is_enabled` and `gpu_info` |
| DevicesConfig.GpuRoundTrip | pxr/imaging/rprUsd/devicesConfiguration.py:42-54 | reading back a serialized GPU configuration gives the same configuration |
| DevicesConfig.SerializeCpu | pxr/imaging/rprUsd/devicesConfiguration.py:73-79 | a CPU becomes an object with exactly the keys `num_active_threads` and `cpu_info`, which deserializes back to the same CPU |
| DevicesConfig.DeserializeCpu | pxr/imaging/rprUsd/devicesConfiguration.py:81-84 | a CPU entry is read only when it has both `num_active_threads` and `cpu_info` |
| DevicesConfig.CpuRoundTrip | pxr/imaging/rprUsd/devicesConfiguration.py:73-84 | reading back a serialized CPU configuration gives the same configuration |
| DevicesConfig.SerializeGpus | pxr/imaging/rprUsd/devicesConfiguration.py:114 | the GPU list is serialized entry by entry, in order |
| DevicesConfig.DeserializeGpus | pxr/imaging/rprUsd/devicesConfiguration.py:121 | a read GPU list has one configuration per entry, each the reading of that entry; any bad entry fails the whole list |
| DevicesConfig.GpusRoundTrip | pxr/imaging/rprUsd/devicesConfiguration.py:114-121 | reading back a serialized GPU list gives the same list |
| DevicesConfig.SerializePlugin | pxr/imaging/rprUsd/devicesConfiguration.py:110-115 | a plugin becomes an object with exactly the keys `plugin_type`, `cpu_config` and `gpu_configs`: a type name that reads back as the plugin's type, a CPU entry that reads back as its CPU, and one array item per GPU |
| DevicesConfig.DeserializePlugin | pxr/imaging/rprUsd/devicesConfiguration.py:117-121 | a plugin entry is read only when it has `plugin_type`, `cpu_config` and `gpu_configs` |
| DevicesConfig.PluginRoundTrip | pxr/imaging/rprUsd/devicesConfiguration.py:110-121 | reading back a serialized plugin configuration gives the same configuration |
| DevicesConfig.DeepCopy | pxr/imaging/rprUsd/devicesConfiguration.py:63-134 | the copy is equal to the original; under value semantics this mirrors `copy.deepcopy` only and says that no field is lost or changed |
| DevicesConfig.DefaultAsWritten | pxr/imaging/rprUsd/devicesConfiguration.py:104-108 | as written, the default fails (an `AttributeError` on `num_threads`) exactly when the plugin has no GPU |
| DevicesConfig.Default | pxr/imaging/rprUsd/devicesConfiguration.py:104-108 | the intended default keeps the plugin type, CPU info and the detected GPUs in order, enables only the first GPU, and gives the CPU all its threads only when there is no GPU |
| DevicesConfig.DefaultAgreesWithGpus | pxr/imaging/rprUsd/devicesConfiguration.py:104-108 | with at least one GPU the default as written succeeds and equals the intended one |
| DevicesConfig.IsComplete | pxr/imaging/rprUsd/devicesConfiguration.py:349-351 | a plugin configuration is complete exactly when its CPU has active threads or some GPU is enabled |
| DevicesConfig.DefaultCompleteness | pxr/imaging/rprUsd/devicesConfiguration.py:349-351 | a default configuration is complete exactly when the plugin has a GPU or a CPU with threads |
| DevicesConfig.IsOutdated | pxr/imaging/rprUsd/devicesConfiguration.py:142-151 | a stored configuration is current exactly when every plugin in it was detected and has the same CPU info and the same GPU infos, in order, as detected |
| DevicesConfig.DefaultsAreCurrent | pxr/imaging/rprUsd/devicesConfiguration.py:104-151 | defaults built from the detected devices are never outdated |
| RatImage.ValidCropFits | pxr/imaging/plugin/glfRatImage/ratImage.cpp:121-130 | a valid crop leaves margins smaller than the image in both directions, and the empty crop is valid exactly for a non-empty image |
| RatImage.IsValidCrop | pxr/imaging/plugin/glfRatImage/ratImage.cpp:121-130 | a valid crop has non-negative margins that leave at least one row and one column, and the empty crop is valid exactly for a non-empty image |
| RatImage.NumElements | pxr/imaging/plugin/glfRatImage/ratImage.cpp:99-119 | every storage format has one to four channels: four exactly for RGBA, three exactly for RGB, two exactly for luminance-alpha and RG, and one for the rest, unknown formats included |
| RatImage.GetFormat | pxr/imaging/plugin/glfRatImage/ratImage.cpp:140-154 | for one to four channels the format has exactly that many channels; any other count, and only such a count, gives the invalid value 1 |
| RatImage.BytesPerChannelAsWritten | pxr/imaging/plugin/glfRatImage/ratImage.cpp:86-97 | only unsigned bytes count as one byte; every other type, half floats included, counts as four |
| RatImage.BytesPerPixelAsWritten | pxr/imaging/plugin/glfRatImage/ratImage.cpp:156-158 | the written pixel size equals the corrected one for byte and float images and is twice it for half-float images |
| RatImage.HalfFloatPixelSizeAsWritten | pxr/imaging/plugin/glfRatImage/ratImage.cpp:86-158 | a half-float RGBA image is reported as 16 bytes per pixel while the reader writes 8 |
| RatImage.BytesPerChannel | pxr/imaging/plugin/glfRatImage/ratImage.cpp:288-302 | one byte exactly for unsigned bytes, two exactly for half floats, four exactly for floats |
| RatImage.BytesPerPixel | pxr/imaging/plugin/glfRatImage/ratImage.cpp:156-158 | corrects the written `GetBytesPerPixel` (`RatImage.BytesPerPixelAsWritten`): one byte per channel for unsigned bytes, two for half floats, four for floats, so a pixel is empty exactly when the image has no channels |
| RatImage.PixelSizesAgreeOffHalf | pxr/imaging/plugin/glfRatImage/ratImage.cpp:86-158 | for byte and float images the written pixel size is the correct one |
| RatImage.OpenForReading | pxr/imaging/plugin/glfRatImage/ratImage.cpp:187-233 | a file opens exactly for subimage 0 at mip 0 with at least one plane, a positive resolution, a non-zero channel count and a byte, half or float plane; the image then records that resolution, channel count and type |
| RatImage.OpenedImageHasFullCrop | pxr/imaging/plugin/glfRatImage/ratImage.cpp:121-213 | an opened image always accepts the uncropped read |
| RatImage.RasterType | pxr/imaging/plugin/glfRatImage/ratImage.cpp:288-302 | a raster has a GL type exactly when its format is 8-bit integer, half or float |
| RatImage.CopyRows | pxr/imaging/plugin/glfRatImage/ratImage.cpp:316-331 | every destination row holds the first stride bytes of one source row: row y lands on row y when the storage is flipped and on row height-1-y otherwise |
| RatImage.FlipTwice | pxr/imaging/plugin/glfRatImage/ratImage.cpp:320-331 | copying unflipped twice gives the original rows back |
| RatImage.ReadCropped | pxr/imaging/plugin/glfRatImage/ratImage.cpp:239-334 | any non-zero margin or unreadable file refuses; a success has a raster whose channel count, type and resolution match the storage and the image, and whose rows are copied (flipped unless the storage is flipped) at the storage's row stride |
| RatImage.Read | pxr/imaging/plugin/glfRatImage/ratImage.cpp:235-237 | succeeds exactly when the first raster exists and matches the storage's channel count and resolution and the image's type, with every row at least one stride long; the rows are then the raster rows cut to the stride, flipped unless the storage is flipped |
| RatImage.ReadRowsArePixelRows | pxr/imaging/plugin/glfRatImage/ratImage.cpp:235-331 | when the image's channel count is the storage format's, every row a successful read returns is the storage width times `BytesPerPixel` bytes long |
| MaterialAdapter.GetChannel | pxr/imaging/plugin/hdRpr/materialAdapter.cpp:71-87 | the six channel tokens map to their channels and read back to the same token; any other token is NONE |
| MaterialAdapter.ChannelTokensRoundTrip | pxr/imaging/plugin/hdRpr/materialAdapter.cpp:71-87 | every channel other than NONE is read back from its own token |
| MaterialAdapter.GetWrapMode | pxr/imaging/plugin/hdRpr/materialAdapter.cpp:89-108 | the wrap mode is NONE exactly when the parameter is missing, is not a token, or is none of black, clamp, mirror and repeat |
| MaterialAdapter.EmplaceAll | pxr/imaging/plugin/hdRpr/materialAdapter.cpp:279-282 | emplacing entries never changes a value already present, and afterwards exactly the old keys and the entries' keys are present |
| MaterialAdapter.FirstFallbackWins | pxr/imaging/plugin/hdRpr/materialAdapter.cpp:279-294 | a key not authored gets the value of the first fallback listed for it |
| MaterialAdapter.WithFallbacks | pxr/imaging/plugin/hdRpr/materialAdapter.cpp:276-294 | authored values are never overridden and every UsdPreviewSurface fallback key is present afterwards |
| MaterialAdapter.InvertedTexture | pxr/imaging/plugin/hdRpr/materialAdapter.cpp:400-409 | the refraction-weight texture keeps the file, channel and wraps, with each bias replaced by one minus it and each scale negated |
| MaterialAdapter.InvertedTextureComplements | pxr/imaging/plugin/hdRpr/materialAdapter.cpp:403-409 | for every texel the inverted texture yields one minus what the opacity texture yields, and inverting twice gives the texture back |
| MaterialAdapter.UseSpecular | pxr/imaging/plugin/hdRpr/materialAdapter.cpp:353-354 | an authored int workflow is read as is; anything else reads as 0 |
| MaterialAdapter.Reflection | pxr/imaging/plugin/hdRpr/materialAdapter.cpp:419-436 | PBR mode is chosen exactly for a non-zero workflow, fed by the specular texture or else the specular colour; metalness mode is fed by the albedo texture or else the albedo colour |
| MaterialAdapter.DefaultWorkflowIsMetalness | pxr/imaging/plugin/hdRpr/materialAdapter.cpp:419-436 | with the fallbacks in place an unauthored workflow reads as 0, which selects metalness mode |

## Left out

- RPR, RIF, OpenGL, OpenVDB and Houdini calls are outside the model. Where an operation depends on one, its outcome is an input: whether an RPR object, image or node was created, what a raster read returned, whether a file exists, or whether the context was created with a denoiser or for the Hybrid renderer.
- Floating-point arithmetic is not modelled. Settings, scales and radii are `real`. `ArithmeticNode`'s `EvalOperation` is a parameter. The UsdTransform2d matrix is not built: only its empty-node check is modelled.
- The texture loading in `CommitResources` runs in parallel and reads files. The model keeps the de-duplication, the UDIM scan and the clearing of the commits. A texture that fails to load is not modelled.
- Persistence is not modelled. The raw `fread`/`fwrite` of the preference records, the JSON file of the device configuration and the image caches' file-stamp keys are left out. A loaded record is a parameter.
- Python `printf`-style and float formatting, `hou.encode` for names with other characters, and Houdini's `loputils` menus are parameters or fixed strings of the dialog-script model.
- The Vulkan device enumeration of the Hybrid check is a parameter: the check starts from the list of (vendor, device) ids.
- The values of the sixteen RPR GPU creation flags, of `RPR_AOV_*`, of the uber-material modes and of `RPRMtlxLoader::OutputType` live in headers that are not part of this model. They are parameters or named constructors. `rprMtlxLoader.h` is not part of this model.
- The `HdRprApiNormalAov` override of the AOV update and the Houdini principled-shader node are not modelled.
- The Qt dialogs, the PRM template building in `VOP_RPRMaterial.cpp`, the REST material-library client, the installers and the build helpers are out of scope, as are the renderer threads and the interprocess resource watcher.
- `TokenMap` orders keys character by character. `TfToken`'s `operator<` compares token text, and the model takes that order to be lexicographic by character code.
- MaterialNetwork.GetNodeOutput: the traversal follows pass-through nodes without a cycle guard in the source, so the model carries a `fuel` bound; a network deeper than the fuel yields an empty value where the source would recurse further (or forever on a cycle).
- MeshSubsets.MarkUsedFaces: requires non-negative face indices; the source only checks the upper bound, and a negative index would read outside the array.
- MeshSubsets: a subset mesh is re-indexed for its points and point indices only; the normal and texture-coordinate rows are not copied.
- MeshSubsets.BuildMeshes: lists every mesh `Sync` asks RPR for; a `CreateMesh` that returns null, and the lookup of the material (with the fallback material) behind a material id, are not modelled.
- BasisCurves.TopologyIndices: requires a non-empty index list when one is authored; the source computes `size() - 1` on it and would underflow on an empty list.
- BasisCurves: the reserve size at basisCurves.cpp:122 parses with an unintended precedence; it only affects a capacity hint and is not modelled.
- SplitPolygons.Split: requires non-negative face counts that add up to at most the number of indices; the source does not check this and would read past the index array on such a mesh.
- SplitPolygons.SplitIndices: requires the same well-formed input as `Split`, for the same reason.
- BasisCurves.CreateRprCurve: requires curve counts that fit the index list and, for tapered widths, indices inside the widths array; the source checks only the widths' size against the points, and would read out of bounds otherwise.
- MtlxLoader.ConverterHandles: a converter owns at most one RPR node here; the colour converters that own several nodes (rprMtlxLoader.cpp:1136) are not modelled.
- MtlxLoader.ConversionScale: requires a non-zero destination scale, where the source would divide by zero.
- RatImage.ReadCropped: refuses a raster whose rows are shorter than a full row of pixels; the source would read past them. The integer overflow of large crop margins in `_IsValidCrop` is not modelled.
- CoreImage.GetRprImageDesc: the pitches wrap at 32 bits as in the source; the lemma about the slice size holds only without wrap-around.
- Framebuffer.New: built on the corrected `Create`, so a zero dimension is stored; as written, the constructor returns early and leaves the framebuffer 0x0 whatever was requested.
- Framebuffer.Resize: built on the corrected `Create`, so a resize to a zero dimension stores it; as written (`Framebuffer.ResizeAsWritten`), the old dimensions are kept, and a later resize back to them reports no change and creates no RPR object.
- RprApiAov.New: the framebuffers come from the corrected `Framebuffer.New`, so a zero requested dimension is stored; as written, they stay 0x0.
- RprApiAov.Resize: the framebuffers are resized with the corrected `Framebuffer.Resize`; as written, a resize from 4x4 to 0x0 raises `DirtySize` while the framebuffer keeps 4x4, and the resize back to 4x4 raises nothing.
- RprApiAov.New: an unsupported requested format keeps `Float32Vec4` and still receives a resample filter, as written.
- UsdNode.NewUvTexture: `scaleBuilt` and `biasBuilt` stand for the corrected arithmetic output (`ArithmeticNode.GetOutput`). As written (`ArithmeticNode.GetOutputAsWritten`), a scale or bias node whose RPR calls all succeed ends with an empty output and is dropped (`UsdNode.HelperNodesEmptyAsWritten`), so rgba is the bare image exactly when nothing fails.
- UsdNode.GetOutput: `selectBuilt` stands for the corrected arithmetic output as well. As written, a channel-select node whose RPR calls all succeed gives an empty r, g, b or a output.
- SettingsGenerator.CamelCaseCapitalize: requires a non-empty name; the Python raises `IndexError` on an empty one.
- SettingsGenerator: the generated C++ distinguishes `int`, `float` and `bool`; the model uses `real` for both numeric kinds.
- DevicesConfig: deserializing rejects a field of the wrong JSON type, where the Python would store it as it is.
- HdRprConfig.GetVariance: converts the stored variance to an integer as written; this is modelled and not claimed as a fault.
- MaterialAdapter.UseSpecular: a `useSpecular` value that is not an `int` counts as 0.
- HdRprConfig: the dirty flags start as `DirtyAll`, taken from the field initializer in `config.h`.
- CommonSettings: the `NumberedInputs` and `UINameExample` helpers are not modelled; they build help text only.
- Udim and the other string operations treat strings as sequences of characters; there is no Unicode or locale handling, and `toupper`/`isalpha` are ASCII.

## Findings

| source | as written | input that shows it | evidently intended | confidence | as-written member | corrected member |
|---|---|---|---|---|---|---|
| pxr/imaging/plugin/hdRpr/python/generateRenderSettingFiles.py:489-493 | the generated `IsValid` appends `&& x < kXMin` and `&& x > kXMax`, so it demands that every bounded value lie outside its range | the shipped defaults, e.g. renderQuality = 3 with range [0, 3] | every bounded value lies within its range | high, not executed | SettingsGenerator.ShippedDefaultsRejectedAsWritten | SettingsGenerator.SetPreservesValidity |
| pxr/imaging/plugin/hdRpr/rprApiFramebuffer.cpp:116-137 | `Create` returns on a zero dimension before storing it, so the old dimensions survive | resize 4x4 to 0x0, then back to 4x4: the second resize sees no change and no framebuffer exists | the requested dimensions are always stored | high, not executed | Framebuffer.ResizeThroughZeroLosesFramebuffer | Framebuffer.Create |
| pxr/imaging/plugin/hdRpr/rprApiFramebuffer.cpp:97-99 | `m_width * m_height * kNumChannels` is a 32-bit product and wraps before the multiply by `sizeof(float)` | a 32768x32768 framebuffer has size 0 | width * height * 4 * sizeof(float) bytes | medium, not executed | Framebuffer.GetSizeWrapsAt32768 | Framebuffer.GetSize |
| pxr/imaging/plugin/hdRpr/rprApiFramebuffer.cpp:89-90 | `GetData` compares the destination size with the wrapped `GetSize()` | a 32768x32768 framebuffer with an RPR object and a zero-byte destination passes the check and the RPR read is attempted | refuse a destination smaller than width * height * 4 * sizeof(float) bytes | medium, not executed | Framebuffer.GetDataAsWrittenAcceptsEmptyDestination | Framebuffer.GetData |
| pxr/imaging/plugin/hdRpr/basisCurves.cpp:202 | the uv warning tests `!= Constant \|\| != Uniform`, which always holds | uv interpolation Constant warns | warn only when the interpolation is neither constant nor uniform | high, not executed | BasisCurves.UvWarningAlwaysFires | BasisCurves.UvWarningMatchesSupport |
| pxr/imaging/rprUsd/materialNodes/mtlxNode.cpp:133-144 | `RemapTokenInput` range-checks the index and then returns the index itself, never the mapped value | modes [1, 2], input 0: sends 0 instead of 1 | the RPR value at the selected position | medium, not executed | MtlxNode.RemapAsWrittenSendsIndex | MtlxNode.RemapTokenInput |
| pxr/imaging/rprUsd/lightRegistry.cpp:59-69 | `Get` copies the path's client map and adds the caller to the copy | client 2 calls `Get` on a path client 1 already uses; the next `Register` notifies only client 1 | the caller joins the stored map | high, not executed | LightRegistry.SecondClientNotSubscribedAsWritten | LightRegistry.Get |
| pxr/imaging/rprUsd/lightRegistry.cpp:82-95 | `ReleaseClient` erases the client from a copy of each map | release client 1 from a path shared with client 2; the next `Register` still calls client 1 | the client leaves every stored map | high, not executed | LightRegistry.ReleasedClientStillCalledAsWritten | LightRegistry.ReleaseClient |
| pxr/imaging/plugin/rprHoudini/VOP_RPRMaterial.cpp:436-457 | with `maxChoicesSize` 1, `choiceCount - 1` wraps as `size_t`, so the element path goes into `choices[0]` and the sentinel into `choices[1]`, one past the single slot | maxChoicesSize = 1, one renderable element | at most `maxChoicesSize` entries, the last one the sentinel | high, not executed | VopMaterial.ChoiceOverflowAsWritten | VopMaterial.ElementChoices |
| pxr/imaging/rprUsd/devicesConfiguration.py:105-108 | the default reads `cpu.num_threads`, which the device-info binding exposes only as `numThreads` (wrapContextHelpers.cpp:47) | a plugin with no GPU | the CPU gets all its threads when there is no GPU | medium, not executed | DevicesConfig.DefaultAsWritten | DevicesConfig.Default |
| pxr/imaging/plugin/glfRatImage/ratImage.cpp:86-97 | the bytes-per-channel switch has no half-float case, so half floats count as 4 bytes, while `ReadCropped` copies 2 bytes per channel | a half-float RGBA image: 16 bytes per pixel reported, 8 written | 2 bytes per half-float channel | medium, not executed | RatImage.HalfFloatPixelSizeAsWritten | RatImage.BytesPerPixel |
| pxr/imaging/rprUsd/materialNodes/rpr/arithmeticNode.cpp:470 | `SetRprInput` returns `bool` (materialHelpers.h:29-55, `true` on success), but the loop compares it with `RPR_SUCCESS`, which is zero, and gives up on "failure" | an arithmetic node with a material-node argument whose every RPR call succeeds: the output stays empty; the UsdUVTexture scale, bias and channel-select nodes (usdNode.cpp:284-346) are dropped this way | keep the engine node when every argument is set | high, not executed | ArithmeticNode.SuccessfulSetsLoseOutputAsWritten | ArithmeticNode.GetOutput |
