/** The Houdini dialog-script generator (hdRpr/python/houdiniDsGenerator.py):
    every setting with a UI name becomes a control parameter plus a `parm`
    block with hidewhen and disablewhen clauses; folders become
    `groupcollapsible` blocks.  Text is produced exactly as the generator
    writes it, one `\n`-terminated line at a time. */
module HoudiniDs {
  import opened Wrappers
  import CommonSettings

  /** A hidewhen condition after any call: nothing (or a falsy value), one
      condition string, or a list of them. */
  datatype Plain = Absent | Text(s: string) | Texts(l: seq<string>)

  /** A hidewhen entry of a table: a plain value, or a callable that is given
      the whole settings table (of type `T`). */
  datatype Condition<!T> = Given(p: Plain) | Computed(f: T -> Plain)

  function Resolve<T>(c: Condition<T>, table: T): Plain {
    match c
    case Given(p) => p
    case Computed(f) => f(table)
  }

  /** The strings one resolved condition contributes: a non-empty string is
      appended, a list is extended, anything falsy is skipped. */
  function Contribution(p: Plain): (r: seq<string>)
    ensures p.Text? && p.s != "" ==> r == [p.s]
    ensures p.Texts? ==> r == p.l
    ensures p.Absent? || (p.Text? && p.s == "") ==> r == []
  {
    match p
    case Absent => []
    case Text(s) => if s == "" then [] else [s]
    case Texts(l) => l
  }

  function Collect<T>(conds: seq<Condition<T>>, table: T): (r: seq<string>)
    ensures conds == [] ==> r == []
  {
    if conds == [] then []
    else Contribution(Resolve(conds[0], table)) + Collect(conds[1..], table)
  }

  /** Conditions are gathered in order: collecting a concatenation is the
      concatenation of the collections. */
  lemma {:induction false} CollectAppend<T>(a: seq<Condition<T>>, b: seq<Condition<T>>, table: T)
    ensures Collect(a + b, table) == Collect(a, table) + Collect(b, table)
    decreases |a|
  {
    if a == [] {
      assert a + b == b;
    } else {
      assert (a + b)[1..] == a[1..] + b;
      CollectAppend(a[1..], b, table);
    }
  }

  /** `{ c } ` for every condition, in order. */
  function Braced(cs: seq<string>): (r: string)
    ensures cs == [] <==> r == []
  {
    if cs == [] then [] else "{ " + cs[0] + " } " + Braced(cs[1..])
  }

  lemma {:induction false} BracedAppend(a: seq<string>, b: seq<string>)
    ensures Braced(a + b) == Braced(a) + Braced(b)
    decreases |a|
  {
    if a == [] {
      assert a + b == b;
    } else {
      assert (a + b)[1..] == a[1..] + b;
      BracedAppend(a[1..], b);
    }
  }

  /** `_get_houdini_hidewhen_string`. */
  function HidewhenString<T>(conds: seq<Condition<T>>, table: T): (r: string)
    ensures Collect(conds, table) == [] ==> r == ""
    ensures Collect(conds, table) != [] ==>
              r == "hidewhen \"" + Braced(Collect(conds, table)) + "\""
  {
    var cs := Collect(conds, table);
    if cs == [] then "" else "hidewhen \"" + Braced(cs) + "\""
  }

  /** The hidewhen string is empty exactly when no condition contributes. */
  lemma HidewhenEmptyIff<T>(conds: seq<Condition<T>>, table: T)
    ensures HidewhenString(conds, table) == "" <==> Collect(conds, table) == []
  {
  }

  // ---------------------------------------------------------------------------
  // Parameter names

  predicate IsAlnum(c: char) {
    ('a' <= c <= 'z') || ('A' <= c <= 'Z') || ('0' <= c <= '9')
  }

  predicate IsPlainName(name: string) {
    forall i :: 0 <= i < |name| ==> IsAlnum(name[i]) || name[i] == '_'
  }

  /** `_get_valid_houdini_param_name`: a name made only of alphanumerics and
      `_` is kept; any other is passed to Houdini's `hou.encode`, which is
      outside this model and given as `encode`. */
  function ValidParamName(name: string, encode: string -> string): (r: string)
    ensures IsPlainName(name) ==> r == name
    ensures !IsPlainName(name) ==> r == encode(name)
  {
    if IsPlainName(name) then name else encode(name)
  }

  /** Plain names are fixed points of the mangling. */
  lemma ValidParamNameIdempotentOnPlain(name: string, encode: string -> string)
    requires IsPlainName(name)
    ensures ValidParamName(ValidParamName(name, encode), encode) == name
  {
  }

  // ---------------------------------------------------------------------------
  // Numbers as Python formats them

  function DigitsOf(n: nat): (r: string)
    ensures |r| > 0
    ensures forall i :: 0 <= i < |r| ==> '0' <= r[i] <= '9'
  {
    if n < 10 then [('0' as int + n) as char]
    else DigitsOf(n / 10) + [('0' as int + n % 10) as char]
  }

  function IntToString(i: int): string {
    if i < 0 then "-" + DigitsOf(-i) else DigitsOf(i)
  }

  /** A number of the table: an int, or a float with the text Python's `str`
      gives it (float formatting is outside this model). */
  datatype Num = NInt(i: int) | NFloat(text: string)

  function NumText(n: Num): string {
    match n
    case NInt(i) => IntToString(i)
    case NFloat(t) => t
  }

  /** A setting's `defaultValue`. */
  datatype Default = DBool(b: bool) | DNum(n: Num) | DStr(s: string)

  /** One setting as the generator reads it. */
  datatype DsSetting<!T> = DsSetting(
    name: string,
    uiName: Option<string>,
    default: Default,
    values: Option<seq<CommonSettings.SettingValue>>,
    minValue: Option<Num>,
    maxValue: Option<Num>,
    help: Option<string>,
    hidewhen: Condition<T>,
    houdiniType: Option<string>,
    customTags: seq<string>)

  /** The parameter's menu. */
  datatype Menu = NoMenu | StaticMenu(entries: seq<string>) | PythonMenu(lines: seq<string>)

  /** The fields of one `parm { … }` block. */
  datatype Parm = Parm(
    name: string,
    caption: string,
    htype: string,
    default: string,
    tags: seq<string>,
    menu: Menu,
    hidewhen: string,
    disablewhen: seq<string>,
    range: Option<(string, string)>,
    help: Option<string>)

  datatype DsError = DefaultNotAmongValues(setting: string)

  predicate HasCondition(v: CommonSettings.SettingValue) {
    v.enablePyCondition.Some? && v.enablePyCondition.value != ""
  }

  function Lines(ls: seq<string>): string {
    if ls == [] then "" else ls[0] + "\n" + Lines(ls[1..])
  }

  /** The lines of a constant menu: `"key" "label"` for every value, in order. */
  function StaticEntries(vs: seq<CommonSettings.SettingValue>): (r: seq<string>)
    ensures |r| == |vs|
    ensures forall i :: 0 <= i < |vs| ==>
              r[i] == "\"" + CommonSettings.Key(vs[i]) + "\" \"" + CommonSettings.UiName(vs[i]) + "\""
  {
    if vs == [] then []
    else ["\"" + CommonSettings.Key(vs[0]) + "\" \"" + CommonSettings.UiName(vs[0]) + "\""] + StaticEntries(vs[1..])
  }

  /** `"` becomes `\"` so the condition can sit inside a quoted menu line:
      every quote of the result is escaped, a text without quotes is kept,
      and nothing else is touched (`UnescapeEscapeQuotes`). */
  function EscapeQuotes(s: string): (r: string)
    ensures |r| >= |s|
    ensures (forall i :: 0 <= i < |s| ==> s[i] != '"') ==> r == s
    ensures r != [] ==> r[0] != '"'
    ensures forall i :: 0 <= i < |r| && r[i] == '"' ==> 0 < i && r[i - 1] == '\\'
  {
    if s == [] then []
    else
      var head: string := if s[0] == '"' then "\\\"" else [s[0]];
      var rest := EscapeQuotes(s[1..]);
      assert forall i :: |head| <= i < |head + rest| ==> (head + rest)[i] == rest[i - |head|];
      head + rest
  }

  /** Reading an escaped text back: `\"` is one quote, every other character
      stands for itself. */
  function Unescape(r: string): (s: string)
    ensures |s| <= |r|
  {
    if |r| >= 2 && r[0] == '\\' && r[1] == '"' then "\"" + Unescape(r[2..])
    else if r == [] then []
    else [r[0]] + Unescape(r[1..])
  }

  /** Escaping loses nothing: the original condition is read back. */
  lemma {:induction false} UnescapeEscapeQuotes(s: string)
    ensures Unescape(EscapeQuotes(s)) == s
    decreases |s|
  {
    if s != [] {
      var rest := EscapeQuotes(s[1..]);
      UnescapeEscapeQuotes(s[1..]);
      if s[0] == '"' {
        assert EscapeQuotes(s) == "\\\"" + rest;
        assert ("\\\"" + rest)[2..] == rest;
      } else {
        assert EscapeQuotes(s) == [s[0]] + rest;
        assert ([s[0]] + rest)[1..] == rest;
      }
      assert s == [s[0]] + s[1..];
    }
  }

  /** The Python expression that offers one value in a scripted menu. */
  function MenuExtend(v: CommonSettings.SettingValue): string {
    "menu_values.extend([\\\"" + CommonSettings.Key(v) + "\\\", \\\"" + CommonSettings.UiName(v) + "\\\"])"
  }

  /** One line of a scripted menu: the `menu_values.extend` of the value,
      guarded by its escaped condition when it has one. */
  function MenuLine(v: CommonSettings.SettingValue): (line: string)
    ensures !HasCondition(v) ==> line == "[ \"" + MenuExtend(v) + "\" ]"
    ensures HasCondition(v) ==>
              line == "[ \"if " + EscapeQuotes(v.enablePyCondition.value) + ": " + MenuExtend(v) + "\" ]"
  {
    if HasCondition(v) then "[ \"if " + EscapeQuotes(v.enablePyCondition.value) + ": " + MenuExtend(v) + "\" ]"
    else "[ \"" + MenuExtend(v) + "\" ]"
  }

  /** A guarded menu line carries the value's condition, escaped, right after
      `[ "if `, and unescaping that stretch gives the condition back. */
  lemma MenuLineCondition(v: CommonSettings.SettingValue)
    requires HasCondition(v)
    ensures var e := EscapeQuotes(v.enablePyCondition.value);
            var line := MenuLine(v);
            |line| >= 6 + |e| && line[..6] == "[ \"if " && Unescape(line[6..6 + |e|]) == v.enablePyCondition.value
  {
    var e := EscapeQuotes(v.enablePyCondition.value);
    var tail := ": " + MenuExtend(v) + "\" ]";
    assert MenuLine(v) == "[ \"if " + e + tail;
    assert ("[ \"if " + e + tail)[6..6 + |e|] == e;
    UnescapeEscapeQuotes(v.enablePyCondition.value);
  }

  /** The lines of a scripted menu: one `MenuLine` per value, in order. */
  function PythonEntries(vs: seq<CommonSettings.SettingValue>): (r: seq<string>)
    ensures |r| == |vs|
    ensures forall i :: 0 <= i < |vs| ==> r[i] == MenuLine(vs[i])
  {
    if vs == [] then [] else [MenuLine(vs[0])] + PythonEntries(vs[1..])
  }

  /** The menu of an enumerated setting: static `"key" "label"` pairs when no
      value carries an enable condition, else a Python script. */
  function BuildMenu(vs: seq<CommonSettings.SettingValue>): (m: Menu)
    ensures m.StaticMenu? <==> forall i :: 0 <= i < |vs| ==> !HasCondition(vs[i])
    ensures m.PythonMenu? <==> exists i :: 0 <= i < |vs| && HasCondition(vs[i])
    ensures m.StaticMenu? ==> |m.entries| == |vs|
    ensures m.PythonMenu? ==> |m.lines| == |vs| + 4
  {
    if forall i :: 0 <= i < |vs| ==> !HasCondition(vs[i]) then StaticMenu(StaticEntries(vs))
    else PythonMenu(["[ \"import platform\" ]", "[ \"menu_values = []\" ]"] + PythonEntries(vs)
                    + ["[ \"return menu_values\" ]", "language python"])
  }

  function MenuText(m: Menu): string {
    match m
    case NoMenu => ""
    case StaticMenu(es) => Lines(es)
    case PythonMenu(ls) => Lines(ls)
  }

  /** The first value whose key equals the default (Python's `next(...)`). */
  function FindDefault(vs: seq<CommonSettings.SettingValue>, d: string): (r: Option<CommonSettings.SettingValue>)
    ensures r.Some? ==> r.value in vs && CommonSettings.Equals(r.value, d)
    ensures r.None? ==> forall v <- vs :: !CommonSettings.Equals(v, d)
  {
    if vs == [] then None
    else if CommonSettings.Equals(vs[0], d) then Some(vs[0])
    else FindDefault(vs[1..], d)
  }

  /** The Python type name of a default. */
  function TypeName(d: Default): string {
    match d
    case DBool(_) => "bool"
    case DNum(NInt(_)) => "int"
    case DNum(NFloat(_)) => "float"
    case DStr(_) => "string"
  }

  /** The control parameter's name: the setting's name plus `_control`. */
  function ControlName<T>(s: DsSetting<T>, encode: string -> string): string {
    ValidParamName(s.name + "_control", encode)
  }

  /** The `parm` block `_generate_ds_setting` builds for a setting with a UI
      name; `Failure` is Python's `StopIteration` when an enumerated setting's
      default is not among its values. */
  function BuildParm<T>(s: DsSetting<T>, spareCategory: string, globalHidewhen: Condition<T>,
                        table: T, encode: string -> string): (r: Result<Parm, DsError>)
    requires s.uiName.Some?
    ensures r.Success? ==> r.value.disablewhen == [ControlName(s, encode) + " == block", ControlName(s, encode) + " == none"]
    ensures r.Success? ==> r.value.hidewhen == HidewhenString([s.hidewhen, globalHidewhen], table)
    ensures r.Success? && s.default.DBool? && s.houdiniType.None? ==>
              r.value.htype == "toggle" && r.value.default == (if s.default.b then "1" else "0")
    ensures r.Success? ==> (r.value.range.Some? <==> s.minValue.Some? && s.maxValue.Some? && s.values.None?)
    ensures r.Success? && r.value.range.Some? ==> r.value.range.value == (NumText(s.minValue.value), NumText(s.maxValue.value))
    ensures r.Success? && !s.default.DBool? && s.values.Some? ==>
              (r.value.menu.StaticMenu? <==> forall i :: 0 <= i < |s.values.value| ==> !HasCondition(s.values.value[i]))
    ensures r.Success? && (s.default.DBool? || s.values.None?) ==> r.value.menu.NoMenu?
    ensures r.Failure? <==> (!s.default.DBool? && s.values.Some? &&
                             (s.default.DNum? || FindDefault(s.values.value, s.default.s).None?))
    ensures r.Success? ==> r.value.caption == s.uiName.value && r.value.name == ValidParamName(s.name, encode)
  {
    var control := ControlName(s, encode);
    var cType := TypeName(s.default);
    var hidewhen := HidewhenString([s.hidewhen, globalHidewhen], table);
    var range := if s.minValue.Some? && s.maxValue.Some? && s.values.None?
                 then Some((NumText(s.minValue.value), NumText(s.maxValue.value))) else None;
    var base: Result<(string, string, string, Menu), DsError> :=
      match s.default
      case DBool(b) => Success(("toggle", if b then "1" else "0", cType, NoMenu))
      case DNum(n) =>
        if s.values.Some? then Failure(DefaultNotAmongValues(s.name))
        else Success((cType, NumText(n), cType, NoMenu))
      case DStr(str) =>
        if s.values.Some? then
          match FindDefault(s.values.value, str)
          case None => Failure(DefaultNotAmongValues(s.name))
          case Some(v) => Success(("string", "\"" + CommonSettings.Key(v) + "\"", "token", BuildMenu(s.values.value)))
        else Success((cType, str, cType, NoMenu));
    match base
    case Failure(e) => Failure(e)
    case Success((htype, default, usdType, menu)) =>
      Success(Parm(
        ValidParamName(s.name, encode),
        s.uiName.value,
        if s.houdiniType.Some? then s.houdiniType.value else htype,
        default,
        ["\"spare_category\" \"" + spareCategory + "\"", "\"uiscope\" \"viewport\"", "\"usdvaluetype\" \"" + usdType + "\""]
          + s.customTags,
        menu,
        hidewhen,
        [control + " == block", control + " == none"],
        range,
        s.help))
  }

  /** The fixed lines of a parm block: name, label, type, size, default and
      the parm tags. */
  function ParmHead(p: Parm): string {
    "    name \"" + p.name + "\"\n"
      + "    label \"" + p.caption + "\"\n"
      + "    type " + p.htype + "\n"
      + "    size 1\n"
      + "    default { " + p.default + " }\n"
      + TagLines(p.tags)
  }

  function TagLines(tags: seq<string>): string {
    if tags == [] then "" else "    parmtag { " + tags[0] + " }\n" + TagLines(tags[1..])
  }

  /** The optional lines of a parm block, each empty when its field is unset. */
  function MenuClause(m: Menu): string {
    if m.NoMenu? || MenuText(m) == "" then "" else "    menu {\n        " + MenuText(m) + "\n    }\n"
  }

  function HidewhenLine(hidewhen: string): string {
    if hidewhen == "" then "" else "    " + hidewhen + "\n"
  }

  function DisablewhenLine(conds: seq<string>): string {
    if conds == [] then "" else "    disablewhen \"" + Braced(conds) + "\"\n"
  }

  function RangeLine(range: Option<(string, string)>): string {
    if range.None? then "" else "    range { " + range.value.0 + "! " + range.value.1 + " }\n"
  }

  function HelpLine(help: Option<string>): string {
    if help.None? || help.value == "" then "" else "    help \"" + help.value + "\"\n"
  }

  /** The lines between `parm {` and the closing brace, in the order
      `CreateHoudiniParam` writes them. */
  function ParmBody(p: Parm): string {
    ParmHead(p) + MenuClause(p.menu) + HidewhenLine(p.hidewhen) + DisablewhenLine(p.disablewhen)
      + RangeLine(p.range) + HelpLine(p.help)
  }

  /** `CreateHoudiniParam`'s text for a parm block (always `size 1`). */
  function RenderParm(p: Parm): (r: string)
    ensures r == ParmOpen + ParmBody(p) + ParmClose
    ensures |r| >= 9 && r[..7] == ParmOpen && r[|r| - 2..] == ParmClose
  {
    var body := ParmBody(p);
    assert (ParmOpen + body + ParmClose)[..7] == ParmOpen;
    assert (ParmOpen + body + ParmClose)[|ParmOpen + body|..] == ParmClose;
    ParmOpen + body + ParmClose
  }

  const ParmOpen: string := "parm {\n"
  const ParmClose: string := "}\n"

  /** Putting `line` between `x` and `y` is inserting it at offset `|x|` into `x + y`. */
  lemma InsertAt(x: string, line: string, y: string)
    ensures |x| <= |x + y|
    ensures x + line + y == (x + y)[..|x|] + line + (x + y)[|x|..]
  {
    assert (x + y)[..|x|] == x;
    assert (x + y)[|x|..] == y;
  }

  /** A text that has `line` between `x` and `y` is the text without it, with
      `line` inserted at offset `|x|`. */
  lemma InsertLine(x: string, line: string, y: string, full: string, base: string)
    requires full == x + line + y && base == x + y
    ensures |x| <= |base| && |full| == |base| + |line|
    ensures full == base[..|x|] + line + base[|x|..]
  {
    InsertAt(x, line, y);
  }

  lemma Associates(a: string, b: string, c: string)
    ensures a + (b + c) == a + b + c
  {
  }

  /** A parm block's text as its clauses written one after the other. */
  lemma {:induction false} RenderParmClauses(p: Parm)
    ensures RenderParm(p) ==
              ParmOpen + ParmHead(p) + MenuClause(p.menu) + HidewhenLine(p.hidewhen) + DisablewhenLine(p.disablewhen)
              + RangeLine(p.range) + HelpLine(p.help) + ParmClose
  {
    var h, m, hw, d, rg, hp := ParmHead(p), MenuClause(p.menu), HidewhenLine(p.hidewhen),
                               DisablewhenLine(p.disablewhen), RangeLine(p.range), HelpLine(p.help);
    Associates(ParmOpen, h, m);
    Associates(ParmOpen, h + m, hw);
    Associates(ParmOpen, h + m + hw, d);
    Associates(ParmOpen, h + m + hw + d, rg);
    Associates(ParmOpen, h + m + hw + d + rg, hp);
  }

  /** The text of a parm block split around its range line. */
  lemma {:induction false} SplitAtRange(p: Parm)
    ensures RenderParm(p) ==
              (ParmOpen + ParmHead(p) + MenuClause(p.menu) + HidewhenLine(p.hidewhen) + DisablewhenLine(p.disablewhen))
              + RangeLine(p.range) + (HelpLine(p.help) + ParmClose)
  {
    RenderParmClauses(p);
  }

  /** The `range { lo! hi }` line is written exactly when the parm has a range,
      and writing it is the only difference from the same parm without one. */
  lemma {:induction false} RangeLineIff(p: Parm)
    ensures var base := RenderParm(p.(range := None));
            var k := |ParmOpen + ParmHead(p) + MenuClause(p.menu) + HidewhenLine(p.hidewhen) + DisablewhenLine(p.disablewhen)|;
            k <= |base|
            && (p.range.Some? <==> |RenderParm(p)| > |base|)
            && (p.range.None? ==> RenderParm(p) == base)
            && (p.range.Some? ==>
                  RenderParm(p) == base[..k] + "    range { " + p.range.value.0 + "! " + p.range.value.1 + " }\n" + base[k..])
  {
    var q := p.(range := None);
    var x := ParmOpen + ParmHead(p) + MenuClause(p.menu) + HidewhenLine(p.hidewhen) + DisablewhenLine(p.disablewhen);
    var y := HelpLine(p.help) + ParmClose;
    var line := RangeLine(p.range);
    SplitAtRange(p);
    SplitAtRange(q);
    assert RenderParm(q) == x + y;
    InsertLine(x, line, y, RenderParm(p), RenderParm(q));
    if p.range.Some? {
      var pre, a, b := RenderParm(q)[..|x|], "    range { " + p.range.value.0, "! " + p.range.value.1 + " }\n";
      assert line == a + b;
      Associates(pre, a, b);
    }
  }

  /** The text of a parm block split around its disablewhen line. */
  lemma {:induction false} SplitAtDisablewhen(p: Parm)
    ensures RenderParm(p) ==
              (ParmOpen + ParmHead(p) + MenuClause(p.menu) + HidewhenLine(p.hidewhen))
              + DisablewhenLine(p.disablewhen) + (RangeLine(p.range) + HelpLine(p.help) + ParmClose)
  {
    RenderParmClauses(p);
    Associates(RangeLine(p.range), HelpLine(p.help), ParmClose);
  }

  /** The `disablewhen` line, one `{ c } ` per condition, is written exactly
      when there are conditions, and is the only difference from the same parm
      without them. */
  lemma {:induction false} DisablewhenLineIff(p: Parm)
    ensures var base := RenderParm(p.(disablewhen := []));
            var k := |ParmOpen + ParmHead(p) + MenuClause(p.menu) + HidewhenLine(p.hidewhen)|;
            k <= |base|
            && (p.disablewhen != [] <==> |RenderParm(p)| > |base|)
            && (p.disablewhen == [] ==> RenderParm(p) == base)
            && (p.disablewhen != [] ==>
                  RenderParm(p) == base[..k] + "    disablewhen \"" + Braced(p.disablewhen) + "\"\n" + base[k..])
  {
    var q := p.(disablewhen := []);
    var x := ParmOpen + ParmHead(p) + MenuClause(p.menu) + HidewhenLine(p.hidewhen);
    var y := RangeLine(p.range) + HelpLine(p.help) + ParmClose;
    var line := DisablewhenLine(p.disablewhen);
    SplitAtDisablewhen(p);
    SplitAtDisablewhen(q);
    assert RenderParm(q) == x + y;
    InsertLine(x, line, y, RenderParm(p), RenderParm(q));
    if p.disablewhen != [] {
      var pre, a, b := RenderParm(q)[..|x|], "    disablewhen \"" + Braced(p.disablewhen), "\"\n";
      assert line == a + b;
      Associates(pre, a, b);
    }
  }

  /** The text of a parm block split around its hidewhen line. */
  lemma {:induction false} SplitAtHidewhen(p: Parm)
    ensures RenderParm(p) ==
              (ParmOpen + ParmHead(p) + MenuClause(p.menu))
              + HidewhenLine(p.hidewhen) + (DisablewhenLine(p.disablewhen) + RangeLine(p.range) + HelpLine(p.help) + ParmClose)
  {
    RenderParmClauses(p);
    Associates(DisablewhenLine(p.disablewhen), RangeLine(p.range), HelpLine(p.help));
    Associates(DisablewhenLine(p.disablewhen) + RangeLine(p.range), HelpLine(p.help), ParmClose);
  }

  /** The hidewhen line is written exactly when the hidewhen string is
      non-empty, and is the only difference from the same parm without it. */
  lemma {:induction false} HidewhenLineIff(p: Parm)
    ensures var base := RenderParm(p.(hidewhen := ""));
            var k := |ParmOpen + ParmHead(p) + MenuClause(p.menu)|;
            k <= |base|
            && (p.hidewhen != "" <==> |RenderParm(p)| > |base|)
            && (p.hidewhen == "" ==> RenderParm(p) == base)
            && (p.hidewhen != "" ==> RenderParm(p) == base[..k] + "    " + p.hidewhen + "\n" + base[k..])
  {
    var q := p.(hidewhen := "");
    var x := ParmOpen + ParmHead(p) + MenuClause(p.menu);
    var y := DisablewhenLine(p.disablewhen) + RangeLine(p.range) + HelpLine(p.help) + ParmClose;
    var line := HidewhenLine(p.hidewhen);
    SplitAtHidewhen(p);
    SplitAtHidewhen(q);
    assert RenderParm(q) == x + y;
    InsertLine(x, line, y, RenderParm(p), RenderParm(q));
    if p.hidewhen != "" {
      var pre, a, b := RenderParm(q)[..|x|], "    " + p.hidewhen, "\n";
      assert line == a + b;
      Associates(pre, a, b);
    }
  }

  /** The control parameter that precedes every parm block. */
  function ControlParamText(name: string, caption: string, controlledType: string, hidewhen: string): string {
    "\nparm {\n    name    \"" + name + "\"\n    label   \"" + caption + "\"\n    type    string\n"
    + "    default { \"none\" }\n    " + hidewhen + "\n    menujoin {\n"
    + "        [ \"import loputils\" ]\n"
    + "        [ \"return loputils.createEditPropertiesControlMenu(kwargs, '" + controlledType + "[]')\" ]\n"
    + "        language python\n    }\n}\n"
  }

  /** `_generate_ds_setting`: the empty text for a setting without a UI name,
      else the control parameter followed by the parm block, both hidden by
      the setting's and the category's hidewhen conditions. */
  function GenerateDsSetting<T>(s: DsSetting<T>, spareCategory: string, globalHidewhen: Condition<T>,
                                table: T, encode: string -> string): (r: Result<string, DsError>)
    ensures s.uiName.None? ==> r == Success("")
    ensures s.uiName.Some? ==> (r.Success? <==> BuildParm(s, spareCategory, globalHidewhen, table, encode).Success?)
    ensures r.Success? && s.uiName.Some? ==> |r.value| > 0
    ensures r.Success? && s.uiName.Some? ==>
              r.value == ControlParamText(ControlName(s, encode), s.uiName.value, TypeName(s.default),
                                          HidewhenString([s.hidewhen, globalHidewhen], table))
                         + RenderParm(BuildParm(s, spareCategory, globalHidewhen, table, encode).value)
    ensures r.Failure? ==> r.error == DefaultNotAmongValues(s.name)
  {
    if s.uiName.None? then Success("")
    else
      match BuildParm(s, spareCategory, globalHidewhen, table, encode)
      case Failure(e) => Failure(e)
      case Success(p) =>
        var controlled := TypeName(s.default);
        Success(ControlParamText(ControlName(s, encode), s.uiName.value, controlled, p.hidewhen) + RenderParm(p))
  }

  /** An entry of a category's settings list: a setting, or a folder of them. */
  datatype Entry<!T> = Single(setting: DsSetting<T>) | Folder(folder: string, hidewhen: Condition<T>, settings: seq<DsSetting<T>>)

  datatype DsCategory<!T> = DsCategory(name: string, hidewhen: Condition<T>, entries: seq<Entry<T>>)

  /** Two pieces of generated text one after the other: the first failure
      wins, else the texts are concatenated. */
  function Concat(a: Result<string, DsError>, b: Result<string, DsError>): Result<string, DsError> {
    if a.Failure? then a else if b.Failure? then b else Success(a.value + b.value)
  }

  lemma ConcatAssociates(a: Result<string, DsError>, b: Result<string, DsError>, c: Result<string, DsError>)
    ensures Concat(a, Concat(b, c)) == Concat(Concat(a, b), c)
  {
    if a.Success? && b.Success? && c.Success? {
      assert a.value + (b.value + c.value) == a.value + b.value + c.value;
    }
  }

  /** Whether generating one setting's text fails. */
  predicate SettingFails<T>(s: DsSetting<T>, cat: string, hw: Condition<T>, table: T, encode: string -> string) {
    GenerateDsSetting(s, cat, hw, table, encode).Failure?
  }

  /** The settings of a category (or folder), in order. */
  function GenerateSettings<T>(ss: seq<DsSetting<T>>, cat: string, hw: Condition<T>, table: T, encode: string -> string): (r: Result<string, DsError>)
    ensures (forall s <- ss :: s.uiName.None?) ==> r == Success("")
    ensures r.Failure? <==> exists s <- ss :: SettingFails(s, cat, hw, table, encode)
  {
    if ss == [] then Success("")
    else
      var head := GenerateDsSetting(ss[0], cat, hw, table, encode);
      if head.Failure? then Failure(head.error)
      else
        var rest := GenerateSettings(ss[1..], cat, hw, table, encode);
        assert forall s <- ss :: s == ss[0] || s in ss[1..];
        if rest.Failure? then Failure(rest.error)
        else Success(head.value + rest.value)
  }

  /** Generating two lists of settings one after the other is generating their
      concatenation. */
  lemma {:induction false} GenerateSettingsAppend<T>(a: seq<DsSetting<T>>, b: seq<DsSetting<T>>, cat: string, hw: Condition<T>,
                                                     table: T, encode: string -> string)
    ensures GenerateSettings(a + b, cat, hw, table, encode)
            == Concat(GenerateSettings(a, cat, hw, table, encode), GenerateSettings(b, cat, hw, table, encode))
    decreases |a|
  {
    if a == [] {
      assert a + b == b;
      var gb := GenerateSettings(b, cat, hw, table, encode);
      if gb.Success? { assert "" + gb.value == gb.value; }
    } else {
      assert (a + b)[0] == a[0];
      assert (a + b)[1..] == a[1..] + b;
      GenerateSettingsAppend(a[1..], b, cat, hw, table, encode);
      ConcatAssociates(GenerateDsSetting(a[0], cat, hw, table, encode),
                       GenerateSettings(a[1..], cat, hw, table, encode), GenerateSettings(b, cat, hw, table, encode));
    }
  }

  /** The opening lines of a `groupcollapsible` block: the folder name without
      spaces, its label, and the folder's own hidewhen line when it has one. */
  function FolderOpen(folder: string, hidewhen: string): string {
    "groupcollapsible {\n  name \"" + CommonSettings.RemoveSpaces(folder) + "\"\n  label \"" + folder + "\"\n"
      + (if hidewhen == "" then "" else "  " + hidewhen + "\n")
  }

  const FolderClose: string := "}\n"

  /** One entry: a setting's text, or a folder block whose hidewhen combines
      the folder's and the category's conditions while its settings receive
      the category's alone. */
  function GenerateEntry<T>(e: Entry<T>, cat: string, hw: Condition<T>, table: T, encode: string -> string): (r: Result<string, DsError>)
    ensures e.Folder? && r.Success? ==> |r.value| > 0
    ensures e.Single? ==> r == GenerateDsSetting(e.setting, cat, hw, table, encode)
    ensures e.Folder? ==> (r.Success? <==> GenerateSettings(e.settings, cat, hw, table, encode).Success?)
    ensures e.Folder? && r.Success? ==>
              r.value == FolderOpen(e.folder, HidewhenString([e.hidewhen, hw], table))
                         + GenerateSettings(e.settings, cat, hw, table, encode).value + FolderClose
  {
    match e
    case Single(s) => GenerateDsSetting(s, cat, hw, table, encode)
    case Folder(f, fhw, ss) =>
      var hidewhen := HidewhenString([fhw, hw], table);
      var body :- GenerateSettings(ss, cat, hw, table, encode);
      Success(FolderOpen(f, hidewhen) + body + FolderClose)
  }

  /** The entries of a category, in order. */
  function GenerateEntries<T>(es: seq<Entry<T>>, cat: string, hw: Condition<T>, table: T, encode: string -> string): (r: Result<string, DsError>)
    ensures es == [] ==> r == Success("")
    ensures r.Failure? <==> exists i :: 0 <= i < |es| && GenerateEntry(es[i], cat, hw, table, encode).Failure?
  {
    if es == [] then Success("")
    else
      EntriesFailShift(es, cat, hw, table, encode);
      var head :- GenerateEntry(es[0], cat, hw, table, encode);
      var rest :- GenerateEntries(es[1..], cat, hw, table, encode);
      Success(head + rest)
  }

  lemma EntriesFailShift<T>(es: seq<Entry<T>>, cat: string, hw: Condition<T>, table: T, encode: string -> string)
    requires es != []
    ensures (exists i :: 0 <= i < |es| && GenerateEntry(es[i], cat, hw, table, encode).Failure?) <==>
      GenerateEntry(es[0], cat, hw, table, encode).Failure? ||
      exists i :: 0 <= i < |es[1..]| && GenerateEntry(es[1..][i], cat, hw, table, encode).Failure?
  {
    if i :| 0 <= i < |es| && GenerateEntry(es[i], cat, hw, table, encode).Failure? {
      if i > 0 {
        assert es[1..][i - 1] == es[i];
      }
    }
    if i :| 0 <= i < |es[1..]| && GenerateEntry(es[1..][i], cat, hw, table, encode).Failure? {
      assert es[i + 1] == es[1..][i];
    }
  }

  /** Generating two lists of entries one after the other is generating their
      concatenation. */
  lemma {:induction false} GenerateEntriesAppend<T>(a: seq<Entry<T>>, b: seq<Entry<T>>, cat: string, hw: Condition<T>,
                                                    table: T, encode: string -> string)
    ensures GenerateEntries(a + b, cat, hw, table, encode)
            == Concat(GenerateEntries(a, cat, hw, table, encode), GenerateEntries(b, cat, hw, table, encode))
    decreases |a|
  {
    if a == [] {
      assert a + b == b;
      var gb := GenerateEntries(b, cat, hw, table, encode);
      if gb.Success? { assert "" + gb.value == gb.value; }
    } else {
      assert (a + b)[0] == a[0];
      assert (a + b)[1..] == a[1..] + b;
      GenerateEntriesAppend(a[1..], b, cat, hw, table, encode);
      ConcatAssociates(GenerateEntry(a[0], cat, hw, table, encode),
                       GenerateEntries(a[1..], cat, hw, table, encode), GenerateEntries(b, cat, hw, table, encode));
    }
  }

  function Singles<T>(ss: seq<DsSetting<T>>): (es: seq<Entry<T>>)
    ensures |es| == |ss|
    ensures forall i :: 0 <= i < |ss| ==> es[i] == Single(ss[i])
  {
    seq(|ss|, i requires 0 <= i < |ss| => Single(ss[i]))
  }

  /** The settings inside a folder are written exactly as the same settings
      would be outside any folder: the folder's hidewhen reaches only its
      `groupcollapsible` line. */
  lemma {:induction false} FolderSettingsAsTopLevel<T>(ss: seq<DsSetting<T>>, cat: string, hw: Condition<T>,
                                                       table: T, encode: string -> string)
    ensures GenerateEntries(Singles(ss), cat, hw, table, encode) == GenerateSettings(ss, cat, hw, table, encode)
    decreases |ss|
  {
    if ss != [] {
      assert Singles(ss)[1..] == Singles(ss[1..]);
      FolderSettingsAsTopLevel(ss[1..], cat, hw, table, encode);
    }
  }

  /** Every category's entries, in order. */
  function GenerateParams<T>(cats: seq<DsCategory<T>>, table: T, encode: string -> string): (r: Result<string, DsError>)
    ensures cats == [] ==> r == Success("")
    ensures r.Failure? <==>
              exists i :: 0 <= i < |cats| && GenerateEntries(cats[i].entries, cats[i].name, cats[i].hidewhen, table, encode).Failure?
  {
    if cats == [] then Success("")
    else
      var head :- GenerateEntries(cats[0].entries, cats[0].name, cats[0].hidewhen, table, encode);
      var rest :- GenerateParams(cats[1..], table, encode);
      assert forall i :: 1 <= i < |cats| ==> cats[i] == cats[1..][i - 1];
      Success(head + rest)
  }

  /** `generate_houdini_ds`: the text of `HdRprPlugin_<name>.ds`, or `None`
      when no parameter was produced and no file is written. */
  function GenerateHoudiniDs<T>(cats: seq<DsCategory<T>>, table: T, encode: string -> string): (r: Result<Option<string>, DsError>)
    ensures GenerateParams(cats, table, encode).Failure? <==> r.Failure?
    ensures GenerateParams(cats, table, encode) == Success("") ==> r == Success(None)
    ensures r.Success? && r.value.Some? ==> GenerateParams(cats, table, encode).value != ""
    ensures GenerateParams(cats, table, encode).Success? && GenerateParams(cats, table, encode).value != "" ==>
              r == Success(Some(DsHeader + GenerateParams(cats, table, encode).value + DsFooter))
  {
    match GenerateParams(cats, table, encode)
    case Failure(e) => Failure(e)
    case Success(params) =>
      if params == "" then Success(None) else Success(Some(DsHeader + params + DsFooter))
  }

  /** The fixed text around the generated parameters of a `.ds` file. */
  const DsHeader: string :=
    "#include \"$HFS/houdini/soho/parameters/CommonMacros.ds\"\n\n{\n    name    \"RPR\"\n    label   \"RPR\"\n"
    + "    parmtag { spare_opfilter    \"!!SHOP/PROPERTIES!!\" }\n    parmtag { spare_classtags   \"render\" }\n\n    "
  const DsFooter: string := "\n}"

  /** A category made only of settings without UI names produces no file. */
  lemma {:induction false} NoUiNamesNoFile<T>(cats: seq<DsCategory<T>>, table: T, encode: string -> string)
    requires forall c <- cats, e <- c.entries :: e.Single? && e.setting.uiName.None?
    ensures GenerateHoudiniDs(cats, table, encode) == Success(None)
    decreases |cats|
  {
    if cats != [] {
      NoUiNamesEntries(cats[0].entries, cats[0].name, cats[0].hidewhen, table, encode);
      NoUiNamesNoFile(cats[1..], table, encode);
    }
  }

  lemma {:induction false} NoUiNamesEntries<T>(es: seq<Entry<T>>, cat: string, hw: Condition<T>, table: T, encode: string -> string)
    requires forall e <- es :: e.Single? && e.setting.uiName.None?
    ensures GenerateEntries(es, cat, hw, table, encode) == Success("")
    decreases |es|
  {
    if es != [] {
      NoUiNamesEntries(es[1..], cat, hw, table, encode);
    }
  }
}
