/** The persistent tile-cache contract (`IPersistentCache` /
    `IAsyncTileCache`: Find, Add, Remove and their asynchronous twins) with
    its implementations as one closed datatype. Each asynchronous twin has
    the same effect as its blocking form, so one function models both. */
module TileCaches {
  import opened Tiles
  import FileCache

  datatype TileCache =
    | FileBacked(config: FileCache.Config, fs: FileCache.FileSystem) // AsyncFileCache over its directory
    | NullCache                                                      // the blocking default of WebTileProvider
    | AsyncNullCache                                                 // the default of AsyncWebTileProvider

  /** `Find`/`FindAsync`: the stored bytes, or null. */
  function Find(c: TileCache, now: int, index: TileIndex): (r: Option<Bytes>)
    ensures !c.FileBacked? ==> r.None?
    ensures c.FileBacked? ==> r == FileCache.Find(c.config, c.fs, now, index)
  {
    match c
    case FileBacked(cfg, fs) => FileCache.Find(cfg, fs, now, index)
    case NullCache => None
    case AsyncNullCache => None
  }

  /** `Add`/`AddAsync`: never throws; the null caches ignore the tile. */
  function Add(c: TileCache, now: int, index: TileIndex, tile: Bytes): (r: TileCache)
    ensures !c.FileBacked? ==> r == c
    ensures c.FileBacked? ==> r == c.(fs := FileCache.Add(c.config, c.fs, now, index, tile))
  {
    match c
    case FileBacked(cfg, fs) => FileBacked(cfg, FileCache.Add(cfg, fs, now, index, tile))
    case NullCache => c
    case AsyncNullCache => c
  }

  /** `AsyncNullCache.Remove`/`RemoveAsync` as the source writes them: they
      throw NotImplementedException. */
  function AsyncNullCacheRemoveAsWritten(index: TileIndex): (r: Result<TileCache>)
    ensures r == Failure(NotImplemented)
  {
    Failure(NotImplemented)
  }

  /** `Remove`/`RemoveAsync` with the AsyncNullCache corrected to a no-op,
      as the interface requires (removing a missing tile does not throw). */
  function Remove(c: TileCache, now: int, index: TileIndex): (r: Result<TileCache>)
    ensures r.Success?
    ensures !c.FileBacked? ==> r.value == c
    ensures c.FileBacked? ==> r.value == c.(fs := FileCache.Remove(c.config, c.fs, now, index))
  {
    match c
    case FileBacked(cfg, fs) => Success(FileBacked(cfg, FileCache.Remove(cfg, fs, now, index)))
    case NullCache => Success(c)
    case AsyncNullCache => Success(c)
  }

  /** The interface's promises: Find reports a miss as null, adding an
      existing tile does not throw, and removing a tile that is not found
      does not throw and leaves nothing to find. */
  ghost predicate HonoursCacheContract(c: TileCache, now: int, index: TileIndex,
                                       remove: (TileCache, int, TileIndex) -> Result<TileCache>) {
    Find(c, now, index).None? ==>
      remove(c, now, index).Success? && Find(remove(c, now, index).value, now, index).None?
  }

  /** The as-written AsyncNullCache breaks the contract for every index:
      nothing is ever found, yet Remove throws. */
  lemma AsyncNullCacheRemoveBreaksContract(now: int, index: TileIndex)
    ensures !HonoursCacheContract(AsyncNullCache, now, index,
                                  (c: TileCache, t: int, i: TileIndex) => AsyncNullCacheRemoveAsWritten(i))
  {
  }

  /** With the correction every implementation honours the contract. */
  lemma CacheContractHolds(c: TileCache, now: int, index: TileIndex)
    ensures HonoursCacheContract(c, now, index, Remove)
  {
    if c.FileBacked? {
      FileCache.RemoveThenFind(c.config, c.fs, now, index);
    }
  }

  /** The null caches never hold anything, even right after an Add. */
  lemma NullCachesStayEmpty(c: TileCache, now: int, index: TileIndex, tile: Bytes)
    requires c == NullCache || c == AsyncNullCache
    ensures Find(c, now, index).None?
    ensures Add(c, now, index, tile) == c
    ensures Find(Add(c, now, index, tile), now, index).None?
  {
  }
}
