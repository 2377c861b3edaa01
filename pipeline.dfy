/**
 * The per-frame save loop of the driver: every tile of a frame is rotated by
 * a fresh random draw and handed to the image store. The draws and the clock
 * readings are inputs, one of each per tile; the result lists what would be
 * written, as (path, rotated tile) pairs.
 */
module Pipeline {
  import opened Rotation
  import opened Store

  /** `store.save(randamRota(mt, tile))`: one tile, rotated, then saved. */
  method SaveRotated<T>(store: ImgStore, tile: Grid<T>, draw: nat, now: nat)
    returns (entry: (string, Grid<T>))
    requires tile.Valid()
    modifies store
    ensures store.index == old(store.index) + 1
    ensures entry == (OutPath(OutImgNamePrefix, now, old(store.index)), Rotated(draw % 4, tile))
  {
    var rotated := RandamRota(draw, tile);
    var path := store.Save(now);
    entry := (path, rotated);
  }

  /** What saving the tiles writes, in order: tile k is rotated by draw k and saved under index start + k. */
  ghost function SavedEntries<T>(tiles: seq<Grid<T>>, draws: seq<nat>, clock: seq<nat>, start: nat)
    : (r: seq<(string, Grid<T>)>)
    requires forall k :: 0 <= k < |tiles| ==> tiles[k].Valid()
    requires |draws| == |tiles| && |clock| == |tiles|
    ensures |r| == |tiles|
  {
    seq(|tiles|, k requires 0 <= k < |tiles| =>
      (OutPath(OutImgNamePrefix, clock[k], start + k), Rotated(draws[k] % 4, tiles[k])))
  }

  /** No two entries of one run of the loop share a path. */
  lemma SavedEntriesDistinctPaths<T>(tiles: seq<Grid<T>>, draws: seq<nat>, clock: seq<nat>, start: nat)
    requires forall k :: 0 <= k < |tiles| ==> tiles[k].Valid()
    requires |draws| == |tiles| && |clock| == |tiles|
    ensures var w := SavedEntries(tiles, draws, clock, start);
      forall j, k :: 0 <= j < k < |w| ==> w[j].0 != w[k].0
  {
    var w := SavedEntries(tiles, draws, clock, start);
    var paths := seq(|w|, k requires 0 <= k < |w| => w[k].0);
    SavedPathsDistinct(OutImgNamePrefix, clock, start, paths);
  }

  /**
   * The loop over a frame's tiles: the store's index advances by the number
   * of tiles, tile k is written rotated by draw k under index start + k, and
   * no two tiles share a path.
   */
  method SaveRotatedTiles<T>(store: ImgStore, tiles: seq<Grid<T>>, draws: seq<nat>, clock: seq<nat>)
    returns (written: seq<(string, Grid<T>)>)
    requires forall k :: 0 <= k < |tiles| ==> tiles[k].Valid()
    requires |draws| == |tiles| && |clock| == |tiles|
    modifies store
    ensures store.index == old(store.index) + |tiles|
    ensures written == SavedEntries(tiles, draws, clock, old(store.index))
    ensures forall j, k :: 0 <= j < k < |written| ==> written[j].0 != written[k].0
  {
    ghost var all := SavedEntries(tiles, draws, clock, store.index);
    written := [];
    var n := 0;
    while n < |tiles|
      invariant 0 <= n <= |tiles|
      invariant store.index == old(store.index) + n
      invariant written == all[..n]
    {
      var entry := SaveRotated(store, tiles[n], draws[n], clock[n]);
      assert entry == all[n];
      assert all[..n + 1] == all[..n] + [all[n]];
      written := written + [entry];
      n := n + 1;
    }
    assert written == all;
    SavedEntriesDistinctPaths(tiles, draws, clock, old(store.index));
  }
}
