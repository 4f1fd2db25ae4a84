/** Houdini VOP glue for RPR material nodes
    (plugin/rprHoudini/VOP_RPRMaterial.cpp): UI names, channel counts,
    input lookup and the element choice list. */
module VopMaterial {
  import opened Wrappers
  import MtlxNode

  predicate IsAlpha(c: char) {
    'a' <= c <= 'z' || 'A' <= c <= 'Z'
  }

  function ToUpper(c: char): (r: char)
    ensures IsAlpha(c) <==> IsAlpha(r)
    ensures 'a' <= c <= 'z' ==> 'A' <= r <= 'Z'
    ensures !('a' <= c <= 'z') ==> r == c
  {
    if 'a' <= c <= 'z' then (c as int - 32) as char else c
  }

  /** The word pass of `GetUIName`: the first letter of each run of
      letters is upper-cased and every `_` becomes a space. `inWord` says
      the previous character was a letter. */
  function Capitalize(s: string, inWord: bool): (r: string)
    ensures |r| == |s|
    ensures forall i :: 0 <= i < |s| ==> (r[i] == ' ' <==> s[i] == '_' || s[i] == ' ')
    ensures forall i :: 0 <= i < |s| ==> (IsAlpha(r[i]) <==> IsAlpha(s[i]))
    ensures forall i :: 0 <= i < |s| && !IsAlpha(s[i]) && s[i] != '_' ==> r[i] == s[i]
  {
    if |s| == 0 then []
    else
      var c := s[0];
      var out := if IsAlpha(c) && !inWord then ToUpper(c) else if c == '_' then ' ' else c;
      [out] + Capitalize(s[1..], IsAlpha(c))
  }

  /** The characters Capitalize upper-cases are exactly the word starts. */
  lemma {:induction false} CapitalizeWordStarts(s: string, inWord: bool, i: nat)
    requires i < |s| && IsAlpha(s[i])
    ensures Capitalize(s, inWord)[i] ==
      (if (i == 0 && !inWord) || (i > 0 && !IsAlpha(s[i - 1])) then ToUpper(s[i]) else s[i])
    decreases i
  {
    if i > 0 {
      CapitalizeWordStarts(s[1..], IsAlpha(s[0]), i - 1);
    }
  }

  const RprPrefix: string := "rpr_"

  /** A leading `rpr_` becomes `RPR_` before the word pass. */
  function UpperPrefix(name: string): (r: string)
    ensures |r| == |name|
    ensures |name| >= 4 && name[..4] == RprPrefix ==> r == "RPR_" + name[4..]
    ensures !(|name| >= 4 && name[..4] == RprPrefix) ==> r == name
  {
    if |name| >= 4 && name[..4] == RprPrefix then "RPR_" + name[4..] else name
  }

  /** `GetUIName`: an explicit UI name as is, otherwise the prettified
      node name. */
  function GetUIName(uiName: Option<string>, name: string): (r: string)
    ensures uiName.Some? ==> r == uiName.value
    ensures uiName.None? ==> |r| == |name| && forall i :: 0 <= i < |name| ==> (r[i] == ' ' <==> name[i] == '_' || name[i] == ' ')
  {
    if uiName.Some? then uiName.value else Capitalize(UpperPrefix(name), false)
  }

  /** Prettifying is idempotent: a UI name made from a node name maps to
      itself. */
  lemma {:induction false} CapitalizeIdempotent(s: string, inWord: bool)
    ensures Capitalize(Capitalize(s, inWord), inWord) == Capitalize(s, inWord)
    decreases |s|
  {
    if |s| > 0 {
      var r := Capitalize(s, inWord);
      assert r[1..] == Capitalize(s[1..], IsAlpha(s[0]));
      CapitalizeIdempotent(s[1..], IsAlpha(s[0]));
    }
  }

  lemma UINameIdempotent(name: string)
    ensures var ui := GetUIName(None, name);
      GetUIName(None, ui) == ui
  {
    var ui := GetUIName(None, name);
    var u := UpperPrefix(name);
    if |ui| >= 4 {
      assert ui[3] != '_';
      assert ui[..4] != RprPrefix;
    }
    CapitalizeIdempotent(u, false);
  }

  /** `GetNumChannels`: three for colours, vectors and normals, two for a
      2-vector, one otherwise. */
  function GetNumChannels(t: MtlxNode.ElementType): (n: nat)
    ensures 1 <= n <= 3
    ensures n == 3 <==> t in {MtlxNode.Color3, MtlxNode.Vector3, MtlxNode.Normal}
    ensures n == 2 <==> t == MtlxNode.Vector2
  {
    if t == MtlxNode.Color3 || t == MtlxNode.Vector3 || t == MtlxNode.Normal then 3
    else if t == MtlxNode.Vector2 then 2
    else 1
  }

  /** `getInputFromNameSubclass`: the first input with the name, or -1. */
  method GetInputFromName(inputNames: seq<string>, name: string) returns (idx: int)
    ensures -1 <= idx < |inputNames|
    ensures idx == -1 <==> name !in inputNames
    ensures idx >= 0 ==> inputNames[idx] == name && name !in inputNames[..idx]
  {
    for i := 0 to |inputNames|
      invariant name !in inputNames[..i]
    {
      if inputNames[i] == name {
        return i;
      }
    }
    assert inputNames[..|inputNames|] == inputNames;
    return -1;
  }

  /** One `PRM_Name` of a choice list: a renderable element's path, the
      `None` entry (empty token), or the terminating sentinel. */
  datatype Choice = ElementChoice(path: string) | NoneChoice | Sentinel

  const SizeModulus: int := 0x1_0000_0000_0000_0000

  /** `ElementChoiceGenFunc` as written, as the sequence of entries it
      writes from index 0. The number of paths it may list is computed in
      `size_t` as `(maxChoicesSize - 1) - 1`, which wraps to the largest
      value when `maxChoicesSize` is 1. None means the list is not touched
      (no room, or a parameter other than the two element choosers). */
  function ElementChoicesAsWritten(maxChoicesSize: int, isElementParm: bool, paths: seq<string>): (r: Option<seq<Choice>>)
    requires maxChoicesSize < SizeModulus
    ensures r.None? <==> maxChoicesSize <= 0 || !isElementParm
    ensures r.Some? ==> |r.value| > 0 && r.value[|r.value| - 1] == Sentinel
  {
    if maxChoicesSize <= 0 || !isElementParm then None
    else
      var choiceCount := maxChoicesSize - 1;
      var maxPaths := (choiceCount - 1) % SizeModulus;
      var listed := if |paths| == 0 then [] else paths[..if maxPaths < |paths| then maxPaths else |paths|];
      var entries := seq(|listed|, i requires 0 <= i < |listed| => ElementChoice(listed[i]));
      var withNone := if |entries| < choiceCount then entries + [NoneChoice] else entries;
      Some(withNone + [Sentinel])
  }

  /** With a single slot and one renderable element the list written is
      longer than the room given. */
  lemma ChoiceOverflowAsWritten()
    ensures var r := ElementChoicesAsWritten(1, true, ["/mtl/surface"]);
      r.Some? && |r.value| == 2 > 1
  {
  }

  /** The choice list as evidently intended: at most `maxChoicesSize - 2`
      paths, then `None` when there is room, then the sentinel. */
  function ElementChoices(maxChoicesSize: int, isElementParm: bool, paths: seq<string>): (r: Option<seq<Choice>>)
    ensures r.None? <==> maxChoicesSize <= 0 || !isElementParm
    ensures r.Some? ==> 0 < |r.value| <= maxChoicesSize && r.value[|r.value| - 1] == Sentinel
    ensures r.Some? ==> forall i :: 0 <= i < |r.value| - 1 ==> r.value[i] != Sentinel
    ensures r.Some? && maxChoicesSize >= 2 ==> NoneChoice in r.value
  {
    if maxChoicesSize <= 0 || !isElementParm then None
    else
      var choiceCount := maxChoicesSize - 1;
      var maxPaths := if choiceCount >= 1 then choiceCount - 1 else 0;
      var listed := paths[..if maxPaths < |paths| then maxPaths else |paths|];
      var entries := seq(|listed|, i requires 0 <= i < |listed| => ElementChoice(listed[i]));
      var withNone := if |entries| < choiceCount then entries + [NoneChoice] else entries;
      assert |withNone| <= choiceCount;
      Some(withNone + [Sentinel])
  }

  /** Whenever the written list fits, the two agree. */
  lemma ChoicesAgreeWithRoom(maxChoicesSize: int, isElementParm: bool, paths: seq<string>)
    requires 2 <= maxChoicesSize < SizeModulus
    ensures ElementChoicesAsWritten(maxChoicesSize, isElementParm, paths) == ElementChoices(maxChoicesSize, isElementParm, paths)
  {
  }
}
