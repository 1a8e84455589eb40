/** The tile providers: BruTile's WebTileProvider and the asynchronous
    AsyncWebTileProvider and AsyncFileTileProvider. A provider call is a
    pure function of the provider, the clock and the code it calls out to;
    it yields what the call returns or throws, the cache afterwards, and the
    URIs it handed to a fetch delegate. */
module TileProviders {
  import opened Tiles
  import opened TileCaches
  import FileCache

  type Uri = string

  /** `IRequest`: the default NullRequest, or a request building each tile's URI. */
  datatype Request = NullRequest | CustomRequest(getUri: TileInfo -> Uri)

  /** What a fetch delegate yields: the response bytes (null when there are
      none) or the exception it throws. */
  datatype FetchResult = Fetched(bytes: Option<Bytes>) | Raised(error: Error)

  /** The code outside this model that the providers call: the URI NullRequest
      hands out and the three HTTP helpers. */
  datatype Environment = Environment(
    nullRequestUri: Uri,
    fetchImage: Uri -> FetchResult,           // RequestHelper.FetchImage
    fetchImageAsync: Uri -> FetchResult,      // RequestHelper.FetchImageAsync
    asyncFetchImageAsync: Uri -> FetchResult) // AsyncRequestHelper.FetchImageAsync

  /** A fetch delegate given to a provider; `HelperFetch` is the default the
      provider falls back on when it is given none. */
  datatype Fetcher = HelperFetch | CustomFetch(fetch: Uri -> FetchResult)

  function RequestUri(env: Environment, request: Request, info: TileInfo): Uri {
    match request
    case NullRequest => env.nullRequestUri
    case CustomRequest(getUri) => getUri(info)
  }

  // ---- read-through caching ----

  datatype Outcome = Outcome(result: Result<Option<Bytes>>, cache: TileCache, fetched: seq<Uri>)

  /** What a provider returns for a delegate's answer: the exception, or
      the bytes (possibly null). */
  function Answer(f: FetchResult): (r: Result<Option<Bytes>>)
    ensures r.Failure? <==> f.Raised?
    ensures f.Raised? ==> r.error == f.error
    ensures f.Fetched? ==> r.value == f.bytes
  {
    match f
    case Raised(e) => Failure(e)
    case Fetched(b) => Success(b)
  }

  /** The read-through contract a provider call meets over `cache`, with
      tile URI `uri` and delegate `fetch`: on a hit, the cached bytes and no
      fetch, cache untouched; on a miss, one fetch of `uri`, its answer
      returned, and its bytes added to the cache when there are some. */
  ghost predicate IsReadThrough(cache: TileCache, now: int, index: TileIndex, uri: Uri, fetch: Uri -> FetchResult,
                                result: Result<Option<Bytes>>, after: TileCache, fetched: seq<Uri>) {
    var found := Find(cache, now, index);
    if found.Some? then
      fetched == [] && result == Success(found) && after == cache
    else
      && fetched == [uri]
      && result == Answer(fetch(uri))
      && (fetch(uri).Fetched? && fetch(uri).bytes.Some? ==> after == Add(cache, now, index, fetch(uri).bytes.value))
      && (!(fetch(uri).Fetched? && fetch(uri).bytes.Some?) ==> after == cache)
  }

  /** The step every web provider takes: a cache hit is returned without a
      fetch; on a miss the URI is fetched once, an exception propagates with
      the cache untouched, and non-null bytes are added to the cache. */
  function ReadThrough(cache: TileCache, now: int, index: TileIndex, uri: Uri,
                       fetch: Uri -> FetchResult): (o: Outcome)
    ensures o.fetched == [] <==> Find(cache, now, index).Some?
    ensures o.fetched != [] ==> o.fetched == [uri]
    ensures Find(cache, now, index).Some? ==> o.result == Success(Find(cache, now, index))
    ensures o.fetched != [] ==>
      (o.result.Failure? <==> fetch(uri).Raised?) &&
      (o.result.Failure? ==> o.result.error == fetch(uri).error) &&
      (o.result.Success? ==> o.result.value == fetch(uri).bytes)
    ensures o.cache == cache ||
      (o.result.Success? && o.result.value.Some? && o.cache == Add(cache, now, index, o.result.value.value))
    ensures IsReadThrough(cache, now, index, uri, fetch, o.result, o.cache, o.fetched)
  {
    var found := Find(cache, now, index);
    if found.Some? then Outcome(Success(found), cache, [])
    else
      match fetch(uri)
      case Raised(e) => Outcome(Failure(e), cache, [uri])
      case Fetched(None) => Outcome(Success(None), cache, [uri])
      case Fetched(Some(bytes)) => Outcome(Success(Some(bytes)), Add(cache, now, index, bytes), [uri])
  }

  /** Once a file-backed cache has served or stored a tile, asking again at
      the same moment is a hit: nothing is fetched and the same bytes come back. */
  lemma ReadThroughTwice(cfg: FileCache.Config, fs: FileCache.FileSystem, now: int, index: TileIndex,
                         uri: Uri, fetch: Uri -> FetchResult, uri2: Uri, fetch2: Uri -> FetchResult)
    requires var o := ReadThrough(FileBacked(cfg, fs), now, index, uri, fetch);
      o.result.Success? && o.result.value.Some?
    ensures var o := ReadThrough(FileBacked(cfg, fs), now, index, uri, fetch);
      var o2 := ReadThrough(o.cache, now, index, uri2, fetch2);
      o2.fetched == [] && o2.result == o.result && o2.cache == o.cache
  {
    var o := ReadThrough(FileBacked(cfg, fs), now, index, uri, fetch);
    if Find(FileBacked(cfg, fs), now, index).None? {
      assert o.cache == Add(FileBacked(cfg, fs), now, index, o.result.value.value);
      FileCache.FoundUntilExpired(cfg, fs, now, now, index, o.result.value.value);
    }
  }

  /** A null cache never stores anything, so every call fetches and returns
      exactly what the fetch delegate yields. */
  lemma NullCachesAlwaysFetch(cache: TileCache, now: int, index: TileIndex, uri: Uri, fetch: Uri -> FetchResult)
    requires cache == NullCache || cache == AsyncNullCache
    ensures var o := ReadThrough(cache, now, index, uri, fetch);
      o.fetched == [uri] && o.cache == cache &&
      o.result == Answer(fetch(uri))
  {
  }

  // ---- WebTileProvider ----

  datatype WebTileProvider = WebTileProvider(request: Request, cache: TileCache, fetchTile: Fetcher)

  /** The constructor: a missing request, cache or fetch delegate defaults to
      NullRequest, NullCache and RequestHelper.FetchImage. */
  function NewWebTileProvider(request: Option<Request>, cache: Option<TileCache>,
                              fetchTile: Option<Uri -> FetchResult>): (p: WebTileProvider)
    ensures request.Some? ==> p.request == request.value
    ensures request.None? ==> p.request == NullRequest
    ensures cache.Some? ==> p.cache == cache.value
    ensures cache.None? ==> p.cache == NullCache
    ensures fetchTile.Some? <==> p.fetchTile.CustomFetch?
    ensures fetchTile.Some? ==> p.fetchTile.fetch == fetchTile.value
  {
    WebTileProvider(
      if request.Some? then request.value else NullRequest,
      if cache.Some? then cache.value else NullCache,
      if fetchTile.Some? then CustomFetch(fetchTile.value) else HelperFetch)
  }

  function WebGetUri(env: Environment, p: WebTileProvider, info: TileInfo): Uri {
    RequestUri(env, p.request, info)
  }

  /** The blocking fetch delegate of a WebTileProvider. */
  function BlockingFetch(env: Environment, f: Fetcher): Uri -> FetchResult {
    match f
    case HelperFetch => env.fetchImage
    case CustomFetch(fetch) => fetch
  }

  /** `GetTile`: read-through over the provider's cache with its own fetch delegate. */
  function WebGetTile(env: Environment, p: WebTileProvider, now: int, info: TileInfo): (o: Outcome)
    ensures o.fetched == [] || o.fetched == [WebGetUri(env, p, info)]
    ensures o.fetched != [] && p.fetchTile.HelperFetch? ==>
      (o.result.Failure? <==> env.fetchImage(WebGetUri(env, p, info)).Raised?)
    ensures IsReadThrough(p.cache, now, info.index, WebGetUri(env, p, info), BlockingFetch(env, p.fetchTile),
                          o.result, o.cache, o.fetched)
  {
    ReadThrough(p.cache, now, info.index, WebGetUri(env, p, info), BlockingFetch(env, p.fetchTile))
  }

  /** `GetTileAsync`: the same read-through, but the fetch always goes through
      RequestHelper.FetchImageAsync. */
  function WebGetTileAsync(env: Environment, p: WebTileProvider, now: int, info: TileInfo): (o: Outcome)
    ensures o.fetched == [] || o.fetched == [WebGetUri(env, p, info)]
    ensures o.fetched != [] ==>
      (o.result.Failure? <==> env.fetchImageAsync(WebGetUri(env, p, info)).Raised?)
    ensures IsReadThrough(p.cache, now, info.index, WebGetUri(env, p, info), env.fetchImageAsync,
                          o.result, o.cache, o.fetched)
  {
    ReadThrough(p.cache, now, info.index, WebGetUri(env, p, info), env.fetchImageAsync)
  }

  /** The asynchronous path ignores the fetch delegate given to the
      constructor; the blocking path honours it. */
  lemma GetTileAsyncIgnoresFetcher(env: Environment, p: WebTileProvider, f: Uri -> FetchResult,
                                   now: int, info: TileInfo)
    ensures WebGetTileAsync(env, p.(fetchTile := CustomFetch(f)), now, info)
         == WebGetTileAsync(env, p.(fetchTile := HelperFetch), now, info)
    ensures WebGetTile(env, p.(fetchTile := CustomFetch(f)), now, info)
         == ReadThrough(p.cache, now, info.index, WebGetUri(env, p, info), f)
  {
  }

  /** A provider built with no arguments caches nothing: every GetTile
      fetches NullRequest's URI through RequestHelper.FetchImage and returns
      exactly its answer. */
  lemma DefaultWebTileProviderAlwaysFetches(env: Environment, now: int, info: TileInfo)
    ensures var o := WebGetTile(env, NewWebTileProvider(None, None, None), now, info);
      o.fetched == [env.nullRequestUri] && o.cache == NullCache &&
      o.result == Answer(env.fetchImage(env.nullRequestUri))
  {
    NullCachesAlwaysFetch(NullCache, now, info.index, env.nullRequestUri, env.fetchImage);
  }

  // ---- AsyncWebTileProvider ----

  /** `cache` is the asynchronous cache; `inner` is the WebTileProvider that
      serves the blocking calls. Given a cache, both use that one object
      (`sharesCache`); given none, they hold two separate null caches. */
  datatype AsyncWebTileProvider = AsyncWebTileProvider(
    cache: TileCache, fetchTile: Fetcher, inner: WebTileProvider, sharesCache: bool)

  /** Both caches are one object when shared, and the two null caches otherwise. */
  ghost predicate Coherent(p: AsyncWebTileProvider) {
    if p.sharesCache then p.inner.cache == p.cache
    else p.cache == AsyncNullCache && p.inner.cache == NullCache
  }

  /** A provider call together with the provider it leaves behind. */
  datatype Served = Served(result: Result<Option<Bytes>>, provider: AsyncWebTileProvider, fetched: seq<Uri>)

  /** The constructor: the cache defaults to AsyncNullCache and the fetch
      delegate to AsyncRequestHelper.FetchImageAsync; the inner provider gets
      the raw cache argument and, only when a delegate was given, a blocking
      wrapper around it (which returns what the delegate returns). */
  function NewAsyncWebTileProvider(request: Option<Request>, cache: Option<TileCache>,
                                   fetchTile: Option<Uri -> FetchResult>): (p: AsyncWebTileProvider)
    ensures Coherent(p)
    ensures cache.None? ==> p.cache == AsyncNullCache
    ensures cache.Some? ==> p.cache == cache.value
    ensures p.sharesCache <==> cache.Some?
    ensures fetchTile.None? <==> p.fetchTile.HelperFetch?
    ensures fetchTile.Some? ==> p.fetchTile == CustomFetch(fetchTile.value)
    ensures p.inner == NewWebTileProvider(request, cache, fetchTile)
  {
    AsyncWebTileProvider(
      if cache.Some? then cache.value else AsyncNullCache,
      if fetchTile.Some? then CustomFetch(fetchTile.value) else HelperFetch,
      NewWebTileProvider(request, cache, fetchTile),
      cache.Some?)
  }

  /** `GetUri`: delegated to the inner provider. */
  function AsyncWebGetUri(env: Environment, p: AsyncWebTileProvider, info: TileInfo): Uri {
    WebGetUri(env, p.inner, info)
  }

  /** The asynchronous fetch delegate of an AsyncWebTileProvider. */
  function AsyncFetch(env: Environment, f: Fetcher): Uri -> FetchResult {
    match f
    case HelperFetch => env.asyncFetchImageAsync
    case CustomFetch(fetch) => fetch
  }

  /** Everything but the two caches is the same. */
  ghost predicate SameButCache(p: AsyncWebTileProvider, q: AsyncWebTileProvider) {
    && q.fetchTile == p.fetchTile && q.sharesCache == p.sharesCache
    && q.inner.request == p.inner.request && q.inner.fetchTile == p.inner.fetchTile
  }

  /** Installs the cache an asynchronous call left behind: a shared cache
      is one object, so the change is seen through both references; the
      separate null caches do not change. */
  function WithAsyncCache(p: AsyncWebTileProvider, cache: TileCache): (q: AsyncWebTileProvider)
    requires Coherent(p)
    requires !p.sharesCache ==> cache == p.cache
    ensures Coherent(q) && SameButCache(p, q)
    ensures p.sharesCache ==> q.cache == cache && q.inner.cache == cache
    ensures !p.sharesCache ==> q == p
  {
    if p.sharesCache then p.(cache := cache, inner := p.inner.(cache := cache)) else p
  }

  /** The same for the cache a blocking call through the inner provider
      left behind. */
  function WithBlockingCache(p: AsyncWebTileProvider, cache: TileCache): (q: AsyncWebTileProvider)
    requires Coherent(p)
    requires !p.sharesCache ==> cache == p.inner.cache
    ensures Coherent(q) && SameButCache(p, q)
    ensures p.sharesCache ==> q.cache == cache && q.inner.cache == cache
    ensures !p.sharesCache ==> q == p
  {
    if p.sharesCache then p.(cache := cache, inner := p.inner.(cache := cache)) else p
  }

  /** `GetTileAsync`: FindAsync, on a miss the provider's asynchronous
      delegate at the inner provider's URI, then AddAsync of non-null bytes. */
  function AsyncWebGetTileAsync(env: Environment, p: AsyncWebTileProvider, now: int, info: TileInfo): (s: Served)
    requires Coherent(p)
    ensures Coherent(s.provider)
    ensures s.fetched == [] || s.fetched == [AsyncWebGetUri(env, p, info)]
    ensures s.fetched != [] && p.fetchTile.HelperFetch? ==>
      (s.result.Failure? <==> env.asyncFetchImageAsync(AsyncWebGetUri(env, p, info)).Raised?)
    ensures IsReadThrough(p.cache, now, info.index, AsyncWebGetUri(env, p, info), AsyncFetch(env, p.fetchTile),
                          s.result, s.provider.cache, s.fetched)
    ensures SameButCache(p, s.provider)
  {
    var o := ReadThrough(p.cache, now, info.index, AsyncWebGetUri(env, p, info), AsyncFetch(env, p.fetchTile));
    Served(o.result, WithAsyncCache(p, o.cache), o.fetched)
  }

  /** `GetTile`: the inner provider's blocking GetTile. */
  function AsyncWebGetTile(env: Environment, p: AsyncWebTileProvider, now: int, info: TileInfo): (s: Served)
    requires Coherent(p)
    ensures Coherent(s.provider)
    ensures s.fetched == [] || s.fetched == [AsyncWebGetUri(env, p, info)]
    ensures IsReadThrough(p.inner.cache, now, info.index, AsyncWebGetUri(env, p, info),
                          BlockingFetch(env, p.inner.fetchTile), s.result, s.provider.inner.cache, s.fetched)
    ensures SameButCache(p, s.provider)
  {
    var o := WebGetTile(env, p.inner, now, info);
    Served(o.result, WithBlockingCache(p, o.cache), o.fetched)
  }

  /** Without a cache argument, GetTileAsync fetches on every call and
      returns the delegate's answer; the provider does not change. */
  lemma DefaultAsyncCacheAlwaysFetches(env: Environment, request: Option<Request>,
                                       fetchTile: Option<Uri -> FetchResult>, now: int, info: TileInfo)
    ensures var p := NewAsyncWebTileProvider(request, None, fetchTile);
      var s := AsyncWebGetTileAsync(env, p, now, info);
      var answer := AsyncFetch(env, p.fetchTile)(AsyncWebGetUri(env, p, info));
      s.fetched == [RequestUri(env, if request.Some? then request.value else NullRequest, info)] &&
      s.provider == p &&
      s.result == Answer(answer)
  {
    var p := NewAsyncWebTileProvider(request, None, fetchTile);
    NullCachesAlwaysFetch(AsyncNullCache, now, info.index, AsyncWebGetUri(env, p, info), AsyncFetch(env, p.fetchTile));
  }

  /** Without a fetch delegate, the blocking GetTile of an
      AsyncWebTileProvider goes through RequestHelper.FetchImage, not
      through AsyncRequestHelper. */
  lemma BlockingPathUsesBlockingHelper(env: Environment, request: Option<Request>, cache: Option<TileCache>,
                                       now: int, info: TileInfo)
    ensures var p := NewAsyncWebTileProvider(request, cache, None);
      AsyncWebGetTile(env, p, now, info).result
        == ReadThrough(p.inner.cache, now, info.index, AsyncWebGetUri(env, p, info), env.fetchImage).result
  {
  }

  /** With a file-backed cache the two paths share it: a tile GetTileAsync
      fetched and stored is served by GetTile at once, without a fetch. */
  lemma SharedCacheServesBothPaths(env: Environment, request: Option<Request>, cfg: FileCache.Config,
                                   fs: FileCache.FileSystem, fetchTile: Option<Uri -> FetchResult>,
                                   now: int, info: TileInfo)
    requires var p := NewAsyncWebTileProvider(request, Some(FileBacked(cfg, fs)), fetchTile);
      var s := AsyncWebGetTileAsync(env, p, now, info);
      s.result.Success? && s.result.value.Some?
    ensures var p := NewAsyncWebTileProvider(request, Some(FileBacked(cfg, fs)), fetchTile);
      var s := AsyncWebGetTileAsync(env, p, now, info);
      var t := AsyncWebGetTile(env, s.provider, now, info);
      t.fetched == [] && t.result == s.result && t.provider == s.provider
  {
    var p := NewAsyncWebTileProvider(request, Some(FileBacked(cfg, fs)), fetchTile);
    var uri := AsyncWebGetUri(env, p, info);
    var o := ReadThrough(p.cache, now, info.index, uri, AsyncFetch(env, p.fetchTile));
    ReadThroughTwice(cfg, fs, now, info.index, uri, AsyncFetch(env, p.fetchTile),
                     uri, BlockingFetch(env, p.inner.fetchTile));
  }

  // ---- AsyncFileTileProvider ----

  /** A provider reading tiles from an AsyncFileCache over `config`. */
  datatype AsyncFileTileProvider = AsyncFileTileProvider(config: FileCache.Config)

  /** The constructor from a directory: it builds the file cache, which
      creates the root directory when it is missing. */
  function NewAsyncFileTileProvider(cfg: FileCache.Config, fs: FileCache.FileSystem)
    : (r: (AsyncFileTileProvider, FileCache.FileSystem))
    ensures r.0.config == cfg && cfg.directory in r.1.directories && r.1.files == fs.files
  {
    (AsyncFileTileProvider(cfg), FileCache.Create(cfg, fs))
  }

  /** `GetTile`: the cached bytes, or FileNotFoundException when the cache
      has no live file for the tile. */
  function FileGetTile(p: AsyncFileTileProvider, fs: FileCache.FileSystem, now: int, info: TileInfo)
    : (r: Result<Bytes>)
    ensures r.Success? <==> FileCache.Exists(p.config, fs, now, FileCache.FileName(p.config, info.index))
    ensures r.Success? ==> r.value == fs.files[FileCache.FileName(p.config, info.index)].data
    ensures r.Failure? ==> r.error == FileNotFound
  {
    match FileCache.Find(p.config, fs, now, info.index)
    case None => Failure(FileNotFound)
    case Some(bytes) => Success(bytes)
  }

  /** `GetTileAsync`: FindAsync's chunked read, then the same null check. */
  method FileGetTileAsync(p: AsyncFileTileProvider, fs: FileCache.FileSystem, now: int, info: TileInfo,
                          chunkSizes: seq<nat>) returns (r: Result<Bytes>)
    ensures r == FileGetTile(p, fs, now, info)
  {
    var bytes := FileCache.FindAsync(p.config, fs, now, info.index, chunkSizes);
    if bytes.None? {
      return Failure(FileNotFound);
    }
    return Success(bytes.value);
  }

  /** A file provider over the directory a web provider caches into reads the
      tile that web provider just fetched and stored. */
  lemma FileProviderReadsWebCache(env: Environment, cfg: FileCache.Config, fs: FileCache.FileSystem,
                                  p: WebTileProvider, now: int, info: TileInfo)
    requires p.cache == FileBacked(cfg, fs)
    requires var o := WebGetTile(env, p, now, info); o.result.Success? && o.result.value.Some?
    ensures var o := WebGetTile(env, p, now, info);
      o.cache.FileBacked? &&
      FileGetTile(AsyncFileTileProvider(cfg), o.cache.fs, now, info) == Success(o.result.value.value)
  {
    var o := WebGetTile(env, p, now, info);
    ReadThroughTwice(cfg, fs, now, info.index, WebGetUri(env, p, info), BlockingFetch(env, p.fetchTile),
                     WebGetUri(env, p, info), BlockingFetch(env, p.fetchTile));
  }
}
