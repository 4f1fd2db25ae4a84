/** The `SettingValue` helper of the render-settings tables
    (hdRpr/python/commonSettings.py): one entry of an enumerated setting,
    with a raw key, an optional UI name and an optional Python condition that
    decides at menu-build time whether the entry is offered. */
module CommonSettings {
  import opened Wrappers

  datatype SettingValue = SettingValue(
    key: string,
    uiName: Option<string>,
    enablePyCondition: Option<string>)

  /** `value == x`: compares the raw key (spaces included) with `x`. */
  function Equals(v: SettingValue, x: string): (ok: bool)
    ensures ok <==> v.key == x
    ensures ok ==> Key(v) == RemoveSpaces(x)
  {
    v.key == x
  }

  /** `value != x`: the exact negation of `Equals`. */
  function NotEquals(v: SettingValue, x: string): (ok: bool)
    ensures ok <==> v.key != x
  {
    !Equals(v, x)
  }

  /** The UI name when one is set and non-empty (Python truthiness), else the key. */
  function UiName(v: SettingValue): (r: string)
    ensures v.uiName.Some? && v.uiName.value != "" ==> r == v.uiName.value
    ensures v.uiName.None? || v.uiName.value == "" ==> r == v.key
  {
    if v.uiName.Some? && v.uiName.value != "" then v.uiName.value else v.key
  }

  /** `s.replace(' ', '')`: every space removed, every other character kept in order. */
  function RemoveSpaces(s: string): (r: string)
    ensures |r| <= |s|
    ensures forall i :: 0 <= i < |r| ==> r[i] != ' '
    ensures (forall i :: 0 <= i < |s| ==> s[i] != ' ') ==> r == s
    ensures forall c :: c != ' ' ==> multiset(r)[c] == multiset(s)[c]
    ensures multiset(r)[' '] == 0
  {
    if s == [] then []
    else
      assert s == [s[0]] + s[1..];
      var rest := RemoveSpaces(s[1..]);
      if s[0] == ' ' then rest else [s[0]] + rest
  }

  /** `get_key`: the key with every space removed. */
  function Key(v: SettingValue): (r: string)
    ensures forall i :: 0 <= i < |r| ==> r[i] != ' '
    ensures forall c :: c != ' ' ==> multiset(r)[c] == multiset(v.key)[c]
  {
    RemoveSpaces(v.key)
  }

  /** `get_key` is idempotent: a key that already has no spaces comes back unchanged. */
  lemma KeyIdempotent(v: SettingValue)
    ensures Key(v.(key := Key(v))) == Key(v)
  {
  }

  /** One step of `RemoveSpaces`: the first character survives unless it is
      a space. */
  lemma RemoveSpacesStep(s: string)
    requires |s| > 0
    ensures RemoveSpaces(s) == (if s[0] == ' ' then [] else [s[0]]) + RemoveSpaces(s[1..])
  {
  }

  /** Removing spaces keeps the non-space characters in their original order:
      the result is obtained from the key by deleting exactly the spaces. */
  lemma {:induction false} RemoveSpacesIsSpaceFilter(s: string, i: nat)
    requires i <= |s|
    ensures RemoveSpaces(s[..i]) + RemoveSpaces(s[i..]) == RemoveSpaces(s)
    decreases |s|
  {
    if i == 0 {
      assert s[..0] == [];
      assert s[0..] == s;
    } else {
      var t := s[1..];
      var h: string := if s[0] == ' ' then [] else [s[0]];
      assert s[..i][1..] == t[..i - 1];
      assert s[i..] == t[i - 1..];
      calc {
        RemoveSpaces(s[..i]) + RemoveSpaces(s[i..]);
        == { RemoveSpacesStep(s[..i]); }
        (h + RemoveSpaces(t[..i - 1])) + RemoveSpaces(t[i - 1..]);
        == { RemoveSpacesIsSpaceFilter(t, i - 1); }
        h + RemoveSpaces(t);
        == { RemoveSpacesStep(s); }
        RemoveSpaces(s);
      }
    }
  }
}
