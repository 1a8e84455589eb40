/** The fetcher's `FetchStrategy`: which tiles a view needs, in what order,
    and the (unused) triangular pre-fetch level set. */
module FetchStrategy {
  import opened Tiles
  import opened Sorting
  import Utilities

  /** The parts of a tile schema the strategy reads: the resolution
      dictionary in enumeration order and the schema's own enumeration of
      the tiles covering an extent at a level. */
  datatype Schema = Schema(resolutions: seq<Resolution>, getTileInfos: (Extent, string) -> seq<TileInfo>)

  // ---- GetPreFetchLevels ----

  /** 0, 1, 3, 6, 10, ...: the offset reached after k steps of 1, 2, 3, ... */
  function Triangle(k: nat): nat {
    if k == 0 then 0 else Triangle(k - 1) + k
  }

  /** The closed form of the offsets. */
  lemma {:induction false} TriangleClosedForm(k: nat)
    ensures 2 * Triangle(k) == k * (k + 1)
  {
    if k > 0 {
      TriangleClosedForm(k - 1);
      assert (k - 1) * k + 2 * k == k * (k + 1);
    }
  }

  /** The offsets grow with k. */
  lemma {:induction false} TriangleMonotone(a: nat, b: nat)
    requires a <= b
    ensures Triangle(a) <= Triangle(b)
    decreases b
  {
    if a < b {
      TriangleMonotone(a, b - 1);
    }
  }

  /** Levels min, min+1, min+3, min+6, ... up to and including max. */
  method GetPreFetchLevels(min: int, max: int) returns (preFetchLayers: set<int>)
    ensures forall x :: x in preFetchLayers <==> x <= max && exists k: nat :: x == min + Triangle(k)
    ensures forall x :: x in preFetchLayers ==> min <= x <= max
    ensures min > max ==> preFetchLayers == {}
    ensures min <= max ==> min in preFetchLayers
  {
    preFetchLayers := {};
    var level := min;
    var step := 1;
    while level <= max
      invariant step >= 1
      invariant level == min + Triangle(step - 1)
      invariant forall x :: x in preFetchLayers <==> exists k: nat :: k < step - 1 && x == min + Triangle(k)
      invariant forall x :: x in preFetchLayers ==> min <= x <= max
      invariant step > 1 ==> min in preFetchLayers
      decreases max - level
    {
      assert min + Triangle(0) == min;
      preFetchLayers := preFetchLayers + {level};
      level := level + step;
      step := step + 1;
    }
    forall x | x <= max && (exists k: nat :: x == min + Triangle(k))
      ensures x in preFetchLayers
    {
      var k: nat :| x == min + Triangle(k);
      if k >= step - 1 {
        TriangleMonotone(step - 1, k);
        assert false;
      }
    }
  }

  // ---- GetTilesWanted ----

  /** The resolution-dictionary lookup `schema.Resolutions[levelId]`. */
  function LookupLevel(rs: seq<Resolution>, levelId: string): (r: Option<Resolution>)
    ensures r.Some? ==> r.value in rs && r.value.levelId == levelId
    ensures r.None? <==> forall x :: x in rs ==> x.levelId != levelId
  {
    if |rs| == 0 then None
    else if rs[0].levelId == levelId then Some(rs[0])
    else LookupLevel(rs[1..], levelId)
  }

  /** The `Where`: levels at least as coarse as `unitsPerPixel`, in
      dictionary order, each as often as the dictionary lists it. */
  function CoarserOrEqual(rs: seq<Resolution>, unitsPerPixel: real): (r: seq<Resolution>)
    ensures forall x :: x in r <==> x in rs && unitsPerPixel <= x.unitsPerPixel
    ensures KeepsOccurrences(r, rs, (x: Resolution) => unitsPerPixel <= x.unitsPerPixel)
    ensures IsSubsequence(r, rs)
  {
    if |rs| == 0 then []
    else
      var rest := CoarserOrEqual(rs[1..], unitsPerPixel);
      var keep := (x: Resolution) => unitsPerPixel <= x.unitsPerPixel;
      KeepsOccurrencesStep(rs, rest, keep);
      var r := if keep(rs[0]) then [rs[0]] + rest else rest;
      KeepsOccurrencesMembers(r, rs, keep);
      if keep(rs[0]) then r
      else
        SubsequenceOfTail(rest, rs);
        r
  }

  /** The levels to visit: exactly those at least as coarse as the target,
      coarsest first. */
  function WantedLevels(rs: seq<Resolution>, unitsPerPixel: real): (levels: seq<Resolution>)
    ensures forall x :: x in levels <==> x in rs && unitsPerPixel <= x.unitsPerPixel
    ensures forall i, j :: 0 <= i < j < |levels| ==> levels[j].unitsPerPixel <= levels[i].unitsPerPixel
    ensures multiset(levels) == multiset(CoarserOrEqual(rs, unitsPerPixel))
  {
    var r := CoarserOrEqual(rs, unitsPerPixel);
    var levels := Utilities.OrderByCoarseness(r);
    assert forall x :: x in levels <==> x in r by {
      forall x ensures x in levels <==> x in r {
        assert x in levels <==> x in multiset(levels);
        assert x in r <==> x in multiset(r);
      }
    }
    levels
  }

  /** The target level is among the wanted levels and it is the finest
      of them, so its tiles come last. */
  lemma TargetLevelLast(rs: seq<Resolution>, target: Resolution)
    requires target in rs
    ensures |WantedLevels(rs, target.unitsPerPixel)| > 0
    ensures var levels := WantedLevels(rs, target.unitsPerPixel);
      levels[|levels| - 1].unitsPerPixel == target.unitsPerPixel
  {
    var levels := WantedLevels(rs, target.unitsPerPixel);
    assert target in levels;
    var i :| 0 <= i < |levels| && levels[i] == target;
    assert levels[|levels| - 1] in levels;
  }

  /** Squared distance from the tile's centre to the view's centre: the
      same order as the Euclidean distance the source computes. */
  function DistanceKey(extent: Extent, t: TileInfo): real {
    var dx := extent.CenterX() - t.extent.CenterX();
    var dy := extent.CenterY() - t.extent.CenterY();
    dx * dx + dy * dy
  }

  /** `s` is ordered by non-decreasing distance to the view's centre. */
  ghost predicate SortedByDistance(s: seq<TileInfo>, extent: Extent) {
    forall i, j :: 0 <= i < j < |s| ==> DistanceKey(extent, s[i]) <= DistanceKey(extent, s[j])
  }

  /** `SortByPriority`: the same tiles, nearest to the view's centre first. */
  function SortByPriority(tiles: seq<TileInfo>, extent: Extent): (r: seq<TileInfo>)
    ensures SortedByDistance(r, extent)
    ensures multiset(r) == multiset(tiles)
  {
    var key := (t: TileInfo) => DistanceKey(extent, t);
    var r := SortBy(tiles, key);
    assert forall i, j :: 0 <= i < j < |r| ==> key(r[i]) <= key(r[j]);
    r
  }

  /** Row and column both non-negative. */
  predicate NonNegative(t: TileInfo) {
    t.index.row >= 0 && t.index.col >= 0
  }

  /** The row/column guard inside the loop, which keeps the order. */
  function KeepNonNegative(tiles: seq<TileInfo>, extent: Extent): (r: seq<TileInfo>)
    requires SortedByDistance(tiles, extent)
    ensures forall t :: t in r <==> t in tiles && NonNegative(t)
    ensures KeepsOccurrences(r, tiles, NonNegative)
    ensures IsSubsequence(r, tiles)
    ensures SortedByDistance(r, extent)
  {
    if |tiles| == 0 then []
    else
      var rest := KeepNonNegative(tiles[1..], extent);
      KeepsOccurrencesStep(tiles, rest, NonNegative);
      var r := if NonNegative(tiles[0]) then [tiles[0]] + rest else rest;
      KeepsOccurrencesMembers(r, tiles, NonNegative);
      if NonNegative(tiles[0]) then
        NearestFirst(tiles, extent, rest);
        r
      else
        SubsequenceOfTail(rest, tiles);
        r
  }

  /** The head of a sorted list, put before a sorted selection of its
      tail, keeps the selection sorted. */
  lemma NearestFirst(tiles: seq<TileInfo>, extent: Extent, rest: seq<TileInfo>)
    requires |tiles| > 0 && SortedByDistance(tiles, extent)
    requires SortedByDistance(rest, extent) && forall t :: t in rest ==> t in tiles[1..]
    ensures SortedByDistance([tiles[0]] + rest, extent)
  {
    var r := [tiles[0]] + rest;
    forall i, j | 0 <= i < j < |r| ensures DistanceKey(extent, r[i]) <= DistanceKey(extent, r[j]) {
      assert r[j] == rest[j - 1] && rest[j - 1] in rest;
      if i == 0 {
        var k :| 0 <= k < |tiles[1..]| && tiles[1..][k] == rest[j - 1];
        assert tiles[k + 1] == rest[j - 1];
      }
    }
  }

  /** The tiles one level contributes: the schema's tiles for the view at
      that level, without negative rows or columns, nearest first. */
  function LevelTiles(schema: Schema, extent: Extent, levelId: string): (r: seq<TileInfo>)
    ensures forall t :: t in r <==> t in schema.getTileInfos(extent, levelId) && NonNegative(t)
    ensures KeepsOccurrences(r, schema.getTileInfos(extent, levelId), NonNegative)
    ensures SortedByDistance(r, extent)
  {
    var tiles := schema.getTileInfos(extent, levelId);
    var sorted := SortByPriority(tiles, extent);
    assert forall t :: t in sorted <==> t in tiles by {
      forall t ensures t in sorted <==> t in tiles {
        assert t in sorted <==> t in multiset(sorted);
        assert t in tiles <==> t in multiset(tiles);
      }
    }
    KeepNonNegative(sorted, extent)
  }

  /** `t` is a non-negative tile the schema lists for the view at some
      level at least as coarse as `unitsPerPixel`. */
  ghost predicate FromCoarserLevel(schema: Schema, extent: Extent, unitsPerPixel: real, t: TileInfo) {
    && NonNegative(t)
    && exists lv :: lv in schema.resolutions && unitsPerPixel <= lv.unitsPerPixel
                    && t in schema.getTileInfos(extent, lv.levelId)
  }

  /** The per-level results joined in level order. */
  function TilesOfLevels(schema: Schema, extent: Extent, levels: seq<Resolution>): (r: seq<TileInfo>)
    ensures forall t :: t in r <==>
      exists i :: 0 <= i < |levels| && t in LevelTiles(schema, extent, levels[i].levelId)
  {
    if |levels| == 0 then []
    else
      var rest := TilesOfLevels(schema, extent, levels[1..]);
      assert forall i :: 1 <= i < |levels| ==> levels[1..][i - 1] == levels[i];
      LevelTiles(schema, extent, levels[0].levelId) + rest
  }

  /** The walk over the wanted levels lists exactly the tiles that come
      from a level at least as coarse as the target. */
  lemma WantedTilesExactly(schema: Schema, extent: Extent, unitsPerPixel: real, t: TileInfo)
    ensures t in TilesOfLevels(schema, extent, WantedLevels(schema.resolutions, unitsPerPixel))
        <==> FromCoarserLevel(schema, extent, unitsPerPixel, t)
  {
    var levels := WantedLevels(schema.resolutions, unitsPerPixel);
    if FromCoarserLevel(schema, extent, unitsPerPixel, t) {
      var lv :| lv in schema.resolutions && unitsPerPixel <= lv.unitsPerPixel
                && t in schema.getTileInfos(extent, lv.levelId);
      assert lv in levels;
      var i :| 0 <= i < |levels| && levels[i] == lv;
      assert t in LevelTiles(schema, extent, levels[i].levelId);
    }
    if t in TilesOfLevels(schema, extent, levels) {
      var i :| 0 <= i < |levels| && t in LevelTiles(schema, extent, levels[i].levelId);
      assert levels[i] in levels;
    }
  }

  /** `GetTilesWanted`: a level id missing from the dictionary throws;
      otherwise every non-negative tile of every level at least as coarse
      as the target's, and nothing else. */
  function GetTilesWanted(schema: Schema, extent: Extent, levelId: string): (r: Result<seq<TileInfo>>)
    ensures r.Failure? <==> forall x :: x in schema.resolutions ==> x.levelId != levelId
    ensures r.Failure? ==> r.error == KeyNotFound
    ensures r.Success? ==> forall t :: t in r.value ==> NonNegative(t)
    ensures r.Success? ==> forall t :: t in r.value <==>
      FromCoarserLevel(schema, extent, LookupLevel(schema.resolutions, levelId).value.unitsPerPixel, t)
  {
    match LookupLevel(schema.resolutions, levelId)
    case None => Failure(KeyNotFound)
    case Some(target) =>
      var r := TilesOfLevels(schema, extent, WantedLevels(schema.resolutions, target.unitsPerPixel));
      assert forall t :: t in r <==> FromCoarserLevel(schema, extent, target.unitsPerPixel, t) by {
        forall t ensures t in r <==> FromCoarserLevel(schema, extent, target.unitsPerPixel, t) {
          WantedTilesExactly(schema, extent, target.unitsPerPixel, t);
        }
      }
      Success(r)
  }

  /** Joins blocks in order. */
  function Flatten(blocks: seq<seq<TileInfo>>): seq<TileInfo> {
    if |blocks| == 0 then [] else blocks[0] + Flatten(blocks[1..])
  }

  /** The output is one block per wanted level, coarsest level first and
      the target level last; each block is distance-sorted (LevelTiles). */
  lemma TilesWantedStructure(schema: Schema, extent: Extent, levelId: string)
    requires LookupLevel(schema.resolutions, levelId).Some?
    ensures var target := LookupLevel(schema.resolutions, levelId).value;
      var levels := WantedLevels(schema.resolutions, target.unitsPerPixel);
      && GetTilesWanted(schema, extent, levelId).Success?
      && GetTilesWanted(schema, extent, levelId).value
         == Flatten(seq(|levels|, b requires 0 <= b < |levels| => LevelTiles(schema, extent, levels[b].levelId)))
      && |levels| > 0
      && levels[|levels| - 1].unitsPerPixel == target.unitsPerPixel
  {
    var target := LookupLevel(schema.resolutions, levelId).value;
    var levels := WantedLevels(schema.resolutions, target.unitsPerPixel);
    TilesOfLevelsIsFlatten(schema, extent, levels);
    TargetLevelLast(schema.resolutions, target);
  }

  lemma {:induction false} TilesOfLevelsIsFlatten(schema: Schema, extent: Extent, levels: seq<Resolution>)
    ensures TilesOfLevels(schema, extent, levels)
      == Flatten(seq(|levels|, b requires 0 <= b < |levels| => LevelTiles(schema, extent, levels[b].levelId)))
  {
    var blocks := seq(|levels|, b requires 0 <= b < |levels| => LevelTiles(schema, extent, levels[b].levelId));
    if |levels| > 0 {
      TilesOfLevelsIsFlatten(schema, extent, levels[1..]);
      var rest := seq(|levels| - 1, b requires 0 <= b < |levels| - 1 => LevelTiles(schema, extent, levels[1..][b].levelId));
      assert blocks[1..] == rest;
      assert Flatten(blocks) == blocks[0] + Flatten(rest);
    }
  }
}
