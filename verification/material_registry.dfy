/** `RprUsdMaterialRegistry` (rprUsd/materialRegistry.h and .cpp): the
    table of registered material node kinds, and the texture commits that
    are collected during sync and loaded together by `CommitResources`. */
module MaterialRegistry {
  import opened Wrappers
  import Udim

  /** A node factory and its optional description; both are opaque here. */
  datatype NodeDesc = NodeDesc(factory: nat, info: Option<nat>)

  datatype TextureCommit = TextureCommit(filepath: string, forceLinearSpace: bool, wrapType: nat)

  datatype Registry = Registry(lookup: map<string, nat>, nodes: seq<NodeDesc>, commits: seq<TextureCommit>)

  /** The lookup sends every registered id to its own slot of `nodes`. */
  predicate Indexed(r: Registry) {
    |r.lookup| == |r.nodes| &&
    (forall id :: id in r.lookup ==> r.lookup[id] < |r.nodes|) &&
    (forall a, b :: a in r.lookup && b in r.lookup && a != b ==> r.lookup[a] != r.lookup[b])
  }

  /** `Register`: a new id gets the next slot; an id already registered is
      refused and nothing changes. */
  function Register(r: Registry, id: string, desc: NodeDesc): (out: (Registry, bool))
    ensures out.1 <==> id !in r.lookup
    ensures !out.1 ==> out.0 == r
    ensures out.1 ==> |out.0.nodes| == |r.nodes| + 1 && out.0.nodes[..|r.nodes|] == r.nodes
    ensures out.1 ==> id in out.0.lookup && out.0.lookup[id] == |r.nodes| && out.0.nodes[|r.nodes|] == desc
    ensures out.1 ==> forall other :: other != id ==> (other in out.0.lookup <==> other in r.lookup)
    ensures out.1 ==> forall other :: other in r.lookup ==> out.0.lookup[other] == r.lookup[other]
    ensures out.0.commits == r.commits
  {
    if id in r.lookup then (r, false)
    else (r.(lookup := r.lookup[id := |r.nodes|], nodes := r.nodes + [desc]), true)
  }

  /** Registration keeps every id pointing at its own descriptor. */
  lemma RegisterKeepsIndexed(r: Registry, id: string, desc: NodeDesc)
    requires Indexed(r)
    ensures Indexed(Register(r, id, desc).0)
    ensures id in Register(r, id, desc).0.lookup
    ensures Register(r, id, desc).1 ==>
      var r' := Register(r, id, desc).0;
      r'.nodes[r'.lookup[id]] == desc
  {
    if id !in r.lookup {
      assert r.lookup[id := |r.nodes|].Keys == r.lookup.Keys + {id};
    }
  }

  /** `CommitTexture` queues the commit after all earlier ones. */
  function CommitTexture(r: Registry, commit: TextureCommit): (r': Registry)
    ensures |r'.commits| == |r.commits| + 1 && r'.commits[..|r.commits|] == r.commits
    ensures r'.commits[|r.commits|] == commit
    ensures r'.lookup == r.lookup && r'.nodes == r.nodes
  {
    r.(commits := r.commits + [commit])
  }

  /** `GetCStr`: null for the empty string. */
  function GetCStr(s: string): (r: Option<string>)
    ensures r.None? <==> s == ""
    ensures r.Some? ==> r.value == s
  {
    if s == "" then None else Some(s)
  }

  const StartTile: nat := 1001
  const EndTile: nat := 1100

  datatype UniqueTexture = UniqueTexture(path: string, udimTileId: nat)

  /** The de-duplicated textures of one `CommitResources` call. */
  datatype Unique = Unique(mapping: map<string, nat>, textures: seq<UniqueTexture>)

  /** `mapping` and `textures` are inverse to each other. */
  predicate Consistent(u: Unique) {
    |u.mapping| == |u.textures| &&
    (forall p :: p in u.mapping ==> u.mapping[p] < |u.textures| && u.textures[u.mapping[p]].path == p) &&
    (forall i :: 0 <= i < |u.textures| ==> u.textures[i].path in u.mapping && u.mapping[u.textures[i].path] == i)
  }

  /** `v` is `u` with textures appended. */
  predicate Extends(u: Unique, v: Unique) {
    |u.textures| <= |v.textures| && v.textures[..|u.textures|] == u.textures
  }

  lemma ExtendsTransitive(u: Unique, v: Unique, w: Unique)
    requires Extends(u, v) && Extends(v, w)
    ensures Extends(u, w)
  {
    assert w.textures[..|u.textures|] == w.textures[..|v.textures|][..|u.textures|];
  }

  predicate IndicesBelow(indices: seq<nat>, n: nat) {
    forall k :: 0 <= k < |indices| ==> indices[k] < n
  }

  predicate TileIdsValid(u: Unique) {
    forall i :: 0 <= i < |u.textures| ==> u.textures[i].udimTileId == 0 || StartTile <= u.textures[i].udimTileId <= EndTile
  }

  /** The `getUniqueTextureIndex` helper: a known path returns its index; a
      new path is appended and gets the next index. */
  function GetUniqueTextureIndex(u: Unique, path: string, udimTileId: nat): (out: (Unique, nat))
    requires Consistent(u)
    ensures Consistent(out.0)
    ensures out.1 < |out.0.textures| && out.0.textures[out.1].path == path
    ensures path in u.mapping ==> out == (u, u.mapping[path])
    ensures path !in u.mapping ==>
      out.1 == |u.textures| && out.0.textures == u.textures + [UniqueTexture(path, udimTileId)]
  {
    if path in u.mapping then (u, u.mapping[path])
    else
      var n := |u.mapping|;
      var u' := Unique(u.mapping[path := n], u.textures + [UniqueTexture(path, udimTileId)]);
      assert u'.mapping.Keys == u.mapping.Keys + {path};
      (u', n)
  }

  /** Within a consistent table, equal paths have equal indices. */
  lemma SamePathSameIndex(u: Unique, i: nat, j: nat)
    requires Consistent(u) && i < |u.textures| && j < |u.textures|
    ensures u.textures[i].path == u.textures[j].path <==> i == j
  {
  }

  /** The tile ids from `tile` up to the last tile id whose file exists, in
      ascending order: exactly those, each once. */
  function ExistingTiles(formatString: string, tile: nat, printTile: (string, nat) -> string, fileExists: string -> bool): (ts: seq<nat>)
    ensures forall k :: 0 <= k < |ts| ==> tile <= ts[k] <= EndTile && fileExists(printTile(formatString, ts[k]))
    ensures forall t :: tile <= t <= EndTile && fileExists(printTile(formatString, t)) ==> t in ts
    ensures forall j, k :: 0 <= j < k < |ts| ==> ts[j] < ts[k]
    decreases EndTile + 1 - tile
  {
    if tile > EndTile then []
    else
      var rest := ExistingTiles(formatString, tile + 1, printTile, fileExists);
      if fileExists(printTile(formatString, tile)) then [tile] + rest else rest
  }

  /** When every tile file exists, all tiles from `tile` to the last are
      found; from the first tile that is the whole range 1001..1100. */
  lemma {:induction false} AllTilesFound(formatString: string, tile: nat, printTile: (string, nat) -> string, fileExists: string -> bool)
    requires forall t :: StartTile <= t <= EndTile ==> fileExists(printTile(formatString, t))
    requires StartTile <= tile
    ensures tile <= EndTile + 1 ==> |ExistingTiles(formatString, tile, printTile, fileExists)| == EndTile + 1 - tile
    ensures tile == StartTile ==> |ExistingTiles(formatString, tile, printTile, fileExists)| == 100
    decreases EndTile + 1 - tile
  {
    if tile <= EndTile {
      AllTilesFound(formatString, tile + 1, printTile, fileExists);
    }
  }

  /** Putting a tile's index in front of the later tiles' indices keeps
      each index naming its tile's path. */
  lemma PrependTile(u: Unique, idx: nat, rest: seq<nat>, formatString: string, tile: nat, ts: seq<nat>, printTile: (string, nat) -> string)
    requires idx < |u.textures| && u.textures[idx].path == printTile(formatString, tile)
    requires IndicesBelow(rest, |u.textures|) && |rest| == |ts|
    requires forall k :: 0 <= k < |rest| ==> u.textures[rest[k]].path == printTile(formatString, ts[k])
    ensures IndicesBelow([idx] + rest, |u.textures|)
    ensures forall k :: 0 <= k < |rest| + 1 ==> u.textures[([idx] + rest)[k]].path == printTile(formatString, ([tile] + ts)[k])
  {
    forall k | 0 <= k < |rest| + 1
      ensures u.textures[([idx] + rest)[k]].path == printTile(formatString, ([tile] + ts)[k])
    {
      if k > 0 {
        assert ([idx] + rest)[k] == rest[k - 1] && ([tile] + ts)[k] == ts[k - 1];
      }
    }
  }

  /** The existing UDIM tiles of a format string, from `tile` up to the last
      tile id: one texture index per existing tile, in tile order, naming that
      tile's path. `printTile` stands for formatting the tile id into the
      format string and `fileExists` for the file-system probe. */
  function TileIndices(u: Unique, formatString: string, tile: nat, printTile: (string, nat) -> string, fileExists: string -> bool): (out: (Unique, seq<nat>))
    requires Consistent(u) && TileIdsValid(u) && StartTile <= tile
    ensures Consistent(out.0) && TileIdsValid(out.0) && Extends(u, out.0)
    ensures IndicesBelow(out.1, |out.0.textures|)
    ensures |out.1| == |ExistingTiles(formatString, tile, printTile, fileExists)|
    ensures forall k :: 0 <= k < |out.1| ==>
              out.0.textures[out.1[k]].path == printTile(formatString, ExistingTiles(formatString, tile, printTile, fileExists)[k])
    decreases EndTile + 1 - tile
  {
    if tile > EndTile then (u, [])
    else
      var path := printTile(formatString, tile);
      if fileExists(path) then
        var (u1, idx) := GetUniqueTextureIndex(u, path, tile);
        assert Extends(u, u1);
        var (u2, rest) := TileIndices(u1, formatString, tile + 1, printTile, fileExists);
        ExtendsTransitive(u, u1, u2);
        assert idx < |u1.textures| <= |u2.textures|;
        assert u2.textures[idx] == u2.textures[..|u1.textures|][idx] == u1.textures[idx];
        PrependTile(u2, idx, rest, formatString, tile, ExistingTiles(formatString, tile + 1, printTile, fileExists), printTile);
        (u2, [idx] + rest)
      else TileIndices(u, formatString, tile + 1, printTile, fileExists)
  }

  /** The UDIM format string of a texture path, when the path names a tile
      set. The collection below is stated for any such `formatOf`;
      `CommitResources` passes `UdimFormat`. */
  function UdimFormat(path: string): (r: Udim.Outcome)
    ensures r.found <==> exists t, j :: t in Udim.UdimTags && Udim.OccursAt(path, t, j)
  {
    Udim.GetUdimFormatString(path, "")
  }

  predicate PlainPath(formatOf: string -> Udim.Outcome, path: string) {
    !formatOf(path).found
  }

  /** The textures one commit needs: none when the image cache already holds
      it, the existing tiles when its path names a UDIM set, else its own
      path. */
  function CommitIndices(u: Unique, commit: TextureCommit, cached: bool, formatOf: string -> Udim.Outcome, printTile: (string, nat) -> string, fileExists: string -> bool): (out: (Unique, seq<nat>))
    requires Consistent(u) && TileIdsValid(u)
    ensures Consistent(out.0) && TileIdsValid(out.0) && Extends(u, out.0)
    ensures IndicesBelow(out.1, |out.0.textures|)
    ensures cached ==> out == (u, [])
    ensures !cached && PlainPath(formatOf, commit.filepath) ==>
      |out.1| == 1 && out.1[0] < |out.0.textures| && out.0.textures[out.1[0]].path == commit.filepath
    ensures !cached && !PlainPath(formatOf, commit.filepath) ==>
      var tiles := ExistingTiles(formatOf(commit.filepath).formatString, StartTile, printTile, fileExists);
      |out.1| == |tiles| &&
      forall k :: 0 <= k < |out.1| ==>
        out.0.textures[out.1[k]].path == printTile(formatOf(commit.filepath).formatString, tiles[k])
  {
    if cached then (u, [])
    else
      var f := formatOf(commit.filepath);
      if f.found then TileIndices(u, f.formatString, StartTile, printTile, fileExists)
      else
        var (u1, idx) := GetUniqueTextureIndex(u, commit.filepath, 0);
        (u1, [idx])
  }

  /** The collection loop of `CommitResources` over the queued commits. */
  function CollectTextures(commits: seq<TextureCommit>, cached: TextureCommit -> bool, formatOf: string -> Udim.Outcome, printTile: (string, nat) -> string, fileExists: string -> bool): (out: (Unique, seq<seq<nat>>))
    ensures Consistent(out.0) && TileIdsValid(out.0)
    ensures |out.1| == |commits|
    ensures forall i :: 0 <= i < |out.1| ==> IndicesBelow(out.1[i], |out.0.textures|)
  {
    if |commits| == 0 then (Unique(map[], []), [])
    else
      var n := |commits| - 1;
      var (u, perCommit) := CollectTextures(commits[..n], cached, formatOf, printTile, fileExists);
      var (u', indices) := CommitIndices(u, commits[n], cached(commits[n]), formatOf, printTile, fileExists);
      ExtendedIndicesKeepTargets(u, u', perCommit);
      (u', perCommit + [indices])
  }

  /** One step of the collection loop: the last commit's indices follow the
      table the earlier commits built. */
  lemma CollectStep(commits: seq<TextureCommit>, cached: TextureCommit -> bool, formatOf: string -> Udim.Outcome, printTile: (string, nat) -> string, fileExists: string -> bool)
    requires |commits| > 0
    ensures var n := |commits| - 1;
      var front := CollectTextures(commits[..n], cached, formatOf, printTile, fileExists);
      var last := CommitIndices(front.0, commits[n], cached(commits[n]), formatOf, printTile, fileExists);
      CollectTextures(commits, cached, formatOf, printTile, fileExists) == (last.0, front.1 + [last.1])
  {
  }

  /** A commit already in the image cache needs no texture. */
  lemma {:induction false} CachedCommitNeedsNothing(commits: seq<TextureCommit>, cached: TextureCommit -> bool, formatOf: string -> Udim.Outcome, printTile: (string, nat) -> string, fileExists: string -> bool, i: nat)
    requires i < |commits| && cached(commits[i])
    ensures CollectTextures(commits, cached, formatOf, printTile, fileExists).1[i] == []
    decreases |commits|, 1
  {
    if i < |commits| - 1 {
      CachedEarlierCommit(commits, cached, formatOf, printTile, fileExists, i);
    } else {
      LastCommitIndices(commits, cached, formatOf, printTile, fileExists);
    }
  }

  /** The last commit's entry is what `CommitIndices` gives it on the table
      the earlier commits built. */
  lemma LastCommitIndices(commits: seq<TextureCommit>, cached: TextureCommit -> bool, formatOf: string -> Udim.Outcome, printTile: (string, nat) -> string, fileExists: string -> bool)
    requires |commits| > 0
    ensures var n := |commits| - 1;
      var front := CollectTextures(commits[..n], cached, formatOf, printTile, fileExists);
      var last := CommitIndices(front.0, commits[n], cached(commits[n]), formatOf, printTile, fileExists);
      var out := CollectTextures(commits, cached, formatOf, printTile, fileExists);
      out.0 == last.0 && out.1[n] == last.1
  {
    var n := |commits| - 1;
    var front := CollectTextures(commits[..n], cached, formatOf, printTile, fileExists);
    var last := CommitIndices(front.0, commits[n], cached(commits[n]), formatOf, printTile, fileExists);
    CollectStep(commits, cached, formatOf, printTile, fileExists);
    assert (front.1 + [last.1])[n] == last.1;
  }

  /** `CachedCommitNeedsNothing` for a commit before the last one. */
  lemma {:induction false} CachedEarlierCommit(commits: seq<TextureCommit>, cached: TextureCommit -> bool, formatOf: string -> Udim.Outcome, printTile: (string, nat) -> string, fileExists: string -> bool, i: nat)
    requires i < |commits| - 1 && cached(commits[i])
    ensures CollectTextures(commits, cached, formatOf, printTile, fileExists).1[i] == []
    decreases |commits|, 0
  {
    var n := |commits| - 1;
    var front := CollectTextures(commits[..n], cached, formatOf, printTile, fileExists);
    var last := CommitIndices(front.0, commits[n], cached(commits[n]), formatOf, printTile, fileExists);
    CollectStep(commits, cached, formatOf, printTile, fileExists);
    assert commits[..n][i] == commits[i];
    CachedCommitNeedsNothing(commits[..n], cached, formatOf, printTile, fileExists, i);
    assert (front.1 + [last.1])[i] == front.1[i];
  }

  /** A plain commit needs exactly the unique texture of its own path. */
  lemma {:induction false} PlainCommitNeedsOwnTexture(commits: seq<TextureCommit>, cached: TextureCommit -> bool, formatOf: string -> Udim.Outcome, printTile: (string, nat) -> string, fileExists: string -> bool, i: nat)
    requires i < |commits| && !cached(commits[i]) && PlainPath(formatOf, commits[i].filepath)
    ensures var out := CollectTextures(commits, cached, formatOf, printTile, fileExists);
      |out.1[i]| == 1 && out.1[i][0] < |out.0.textures| && out.0.textures[out.1[i][0]].path == commits[i].filepath
    decreases |commits|, 1
  {
    if i < |commits| - 1 {
      PlainEarlierCommit(commits, cached, formatOf, printTile, fileExists, i);
    } else {
      LastCommitIndices(commits, cached, formatOf, printTile, fileExists);
    }
  }

  /** `PlainCommitNeedsOwnTexture` for a commit before the last one: the
      texture table only grows, so the index still names the same path. */
  lemma {:induction false} PlainEarlierCommit(commits: seq<TextureCommit>, cached: TextureCommit -> bool, formatOf: string -> Udim.Outcome, printTile: (string, nat) -> string, fileExists: string -> bool, i: nat)
    requires i < |commits| - 1 && !cached(commits[i]) && PlainPath(formatOf, commits[i].filepath)
    ensures var out := CollectTextures(commits, cached, formatOf, printTile, fileExists);
      |out.1[i]| == 1 && out.1[i][0] < |out.0.textures| && out.0.textures[out.1[i][0]].path == commits[i].filepath
    decreases |commits|, 0
  {
    var n := |commits| - 1;
    var front := CollectTextures(commits[..n], cached, formatOf, printTile, fileExists);
    var last := CommitIndices(front.0, commits[n], cached(commits[n]), formatOf, printTile, fileExists);
    CollectStep(commits, cached, formatOf, printTile, fileExists);
    assert commits[..n][i] == commits[i];
    PlainCommitNeedsOwnTexture(commits[..n], cached, formatOf, printTile, fileExists, i);
    assert (front.1 + [last.1])[i] == front.1[i];
    ExtendedKeepsTarget(front.0, last.0, front.1[i][0]);
  }

  lemma ExtendedKeepsTarget(u: Unique, v: Unique, k: nat)
    requires Extends(u, v) && k < |u.textures|
    ensures k < |v.textures| && v.textures[k] == u.textures[k]
  {
    assert v.textures[..|u.textures|][k] == v.textures[k];
  }

  /** Indices into a table still name the same textures once it is extended. */
  lemma ExtendedIndicesKeepTargets(u: Unique, v: Unique, perCommit: seq<seq<nat>>)
    requires Extends(u, v)
    requires forall i :: 0 <= i < |perCommit| ==> IndicesBelow(perCommit[i], |u.textures|)
    ensures forall i :: 0 <= i < |perCommit| ==> IndicesBelow(perCommit[i], |v.textures|)
    ensures forall i, k :: 0 <= i < |perCommit| && 0 <= k < |perCommit[i]| && perCommit[i][k] < |u.textures| ==>
      v.textures[perCommit[i][k]] == u.textures[perCommit[i][k]]
  {
    forall i, k | 0 <= i < |perCommit| && 0 <= k < |perCommit[i]| && perCommit[i][k] < |u.textures|
      ensures v.textures[perCommit[i][k]] == u.textures[perCommit[i][k]]
    {
      assert v.textures[..|u.textures|][perCommit[i][k]] == v.textures[perCommit[i][k]];
    }
  }

  /** Two plain commits of the same file share one unique texture. */
  lemma SameFileSharesTexture(commits: seq<TextureCommit>, cached: TextureCommit -> bool, formatOf: string -> Udim.Outcome, printTile: (string, nat) -> string, fileExists: string -> bool, i: nat, j: nat)
    requires i < |commits| && j < |commits|
    requires !cached(commits[i]) && !cached(commits[j])
    requires PlainPath(formatOf, commits[i].filepath)
    requires commits[i].filepath == commits[j].filepath
    ensures CollectTextures(commits, cached, formatOf, printTile, fileExists).1[i] == CollectTextures(commits, cached, formatOf, printTile, fileExists).1[j]
  {
    var out := CollectTextures(commits, cached, formatOf, printTile, fileExists);
    PlainCommitNeedsOwnTexture(commits, cached, formatOf, printTile, fileExists, i);
    PlainCommitNeedsOwnTexture(commits, cached, formatOf, printTile, fileExists, j);
    var a, b := out.1[i][0], out.1[j][0];
    SamePathSameIndex(out.0, a, b);
    assert out.1[i] == [a] && out.1[j] == [b];
  }

  /** `CommitResources`: the per-commit texture indices, with the queue
      emptied afterwards. */
  function CommitResources(r: Registry, cached: TextureCommit -> bool, printTile: (string, nat) -> string, fileExists: string -> bool): (out: (Registry, Unique, seq<seq<nat>>))
    ensures out.0.commits == [] && out.0.lookup == r.lookup && out.0.nodes == r.nodes
    ensures out.1 == CollectTextures(r.commits, cached, UdimFormat, printTile, fileExists).0
    ensures Consistent(out.1) && TileIdsValid(out.1) && |out.2| == |r.commits|
    ensures out.2 == CollectTextures(r.commits, cached, UdimFormat, printTile, fileExists).1
  {
    var (u, perCommit) := CollectTextures(r.commits, cached, UdimFormat, printTile, fileExists);
    (r.(commits := []), u, perCommit)
  }
}
