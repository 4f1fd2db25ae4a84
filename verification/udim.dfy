/** `RprUsdGetUDIMFormatString` (rprUsd/util.cpp): turning a texture path
    that names a UDIM tile set into a printf-style format string. */
module Udim {
  import opened Wrappers

  const ArnoldTag: string := "<UDIM>"
  const SidefxTag: string := "%(UDIM)d"
  /** The tags in the order they are tried. */
  const UdimTags: seq<string> := [ArnoldTag, SidefxTag]
  const TileFormat: string := "%i"

  predicate OccursAt(s: string, tag: string, i: int) {
    0 <= i && i + |tag| <= |s| && s[i..i + |tag|] == tag
  }

  /** `std::string::rfind`: the last position where `tag` occurs. */
  function RFind(s: string, tag: string): (r: Option<nat>)
    ensures r.Some? ==> OccursAt(s, tag, r.value)
    ensures r.Some? ==> forall j :: r.value < j ==> !OccursAt(s, tag, j)
    ensures r.None? ==> forall j :: !OccursAt(s, tag, j)
  {
    if |tag| > |s| then None else RFindFrom(s, tag, |s| - |tag|)
  }

  /** The last occurrence at or before `i`, where nothing occurs after `i`. */
  function RFindFrom(s: string, tag: string, i: nat): (r: Option<nat>)
    requires i + |tag| <= |s|
    ensures r.Some? ==> r.value <= i && OccursAt(s, tag, r.value)
    ensures r.Some? ==> forall j :: r.value < j <= i ==> !OccursAt(s, tag, j)
    ensures r.None? ==> forall j :: j <= i ==> !OccursAt(s, tag, j)
    decreases i
  {
    if s[i..i + |tag|] == tag then Some(i)
    else if i == 0 then None
    else RFindFrom(s, tag, i - 1)
  }

  /** `s` with `n` characters at `i` replaced by `text`. */
  function Replace(s: string, i: nat, n: nat, text: string): (r: string)
    requires i + n <= |s|
    ensures |r| == |s| - n + |text|
    ensures r[..i] == s[..i] && r[i..i + |text|] == text && r[i + |text|..] == s[i + n..]
  {
    s[..i] + text + s[i + n..]
  }

  datatype Outcome = Outcome(found: bool, formatString: string)

  /** Each tag is tried in turn; the first one present has its last
      occurrence replaced by `%i`. With no tag present the call fails and the
      caller's string is left as it was. */
  function GetUdimFormatString(path: string, formatString: string): (r: Outcome)
    ensures !r.found <==> forall t, j :: t in UdimTags ==> !OccursAt(path, t, j)
    ensures !r.found ==> r.formatString == formatString
    ensures RFind(path, ArnoldTag).Some? ==>
      var i := RFind(path, ArnoldTag).value;
      r.found && r.formatString == path[..i] + TileFormat + path[i + |ArnoldTag|..]
    ensures RFind(path, ArnoldTag).None? && RFind(path, SidefxTag).Some? ==>
      var i := RFind(path, SidefxTag).value;
      r.found && r.formatString == path[..i] + TileFormat + path[i + |SidefxTag|..]
  {
    TryTags(path, formatString, UdimTags)
  }

  function TryTags(path: string, formatString: string, tags: seq<string>): (r: Outcome)
    ensures !r.found <==> forall t, j :: t in tags ==> !OccursAt(path, t, j)
    ensures !r.found ==> r.formatString == formatString
    ensures |tags| > 0 && RFind(path, tags[0]).Some? ==>
      var i := RFind(path, tags[0]).value;
      r.found && r.formatString == Replace(path, i, |tags[0]|, TileFormat)
    ensures |tags| > 0 && RFind(path, tags[0]).None? ==> r == TryTags(path, formatString, tags[1..])
  {
    if |tags| == 0 then Outcome(false, formatString)
    else
      match RFind(path, tags[0])
      case Some(i) => Outcome(true, Replace(path, i, |tags[0]|, TileFormat))
      case None =>
        var rest := TryTags(path, formatString, tags[1..]);
        assert forall t :: t in tags ==> t == tags[0] || t in tags[1..];
        rest
  }

  /** The format string is the path with the tag collapsed to `%i`: putting
      the tag back where `%i` stands gives the path again. */
  lemma {:induction false} ReinsertingTagRestoresPath(path: string, formatString: string)
    requires GetUdimFormatString(path, formatString).found
    ensures exists t, i :: (t in UdimTags && OccursAt(path, t, i) &&
      var f := GetUdimFormatString(path, formatString).formatString;
      i + |TileFormat| <= |f| && f[i..i + |TileFormat|] == TileFormat &&
      Replace(f, i, |TileFormat|, t) == path)
  {
    var f := GetUdimFormatString(path, formatString).formatString;
    var t := if RFind(path, ArnoldTag).Some? then ArnoldTag else SidefxTag;
    var i := RFind(path, t).value;
    assert f == Replace(path, i, |t|, TileFormat);
    assert Replace(f, i, |TileFormat|, t) == path by {
      assert f[..i] == path[..i];
      assert f[i + |TileFormat|..] == path[i + |t|..];
      assert path == path[..i] + path[i..i + |t|] + path[i + |t|..];
    }
    assert t in UdimTags && OccursAt(path, t, i);
  }

  /** A loop scanning from the end, as `rfind` does. */
  method LastOccurrence(s: string, tag: string) returns (r: Option<nat>)
    ensures r == RFind(s, tag)
  {
    if |tag| > |s| {
      return None;
    }
    var i := |s| - |tag|;
    while true
      invariant 0 <= i <= |s| - |tag|
      invariant RFind(s, tag) == RFindFrom(s, tag, i)
      decreases i
    {
      if s[i..i + |tag|] == tag {
        return Some(i);
      }
      if i == 0 {
        return None;
      }
      i := i - 1;
    }
  }
}
