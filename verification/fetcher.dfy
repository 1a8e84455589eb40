/** The demo `AsyncFetcher`: on each view change it computes the wanted
    tiles, filters out those in the memory cache or out of attempts, and
    launches one asynchronous fetch per remaining tile. Each
    `lock (_tilesInProgress)` block and each synchronous stretch between
    awaits is one atomic transition: starting a fetch (`DoFetchTile` up to
    the first await of `DoFetchAsync`) and completing it (the code after
    the await) are separate events. */
module AsyncFetcher {
  import opened Tiles
  import opened Retries
  import opened Sorting
  import Utilities
  import FetchStrategy

  /** What the tile source produced for one fetch. */
  datatype FetchOutcome = Fetched(data: Option<Bytes>) | Failed(error: Error)

  /** A fetched tile (`Tile<T>` with its raw data). */
  datatype Tile = Tile(info: TileInfo, data: Option<Bytes>)

  /** `DataChangedEventArgs`: error, completion flag, tile. */
  datatype DataChanged = DataChanged(error: Option<Error>, isFinal: bool, tile: Option<Tile>)

  datatype Fetcher = Fetcher(
    extent: Extent,
    resolution: real,
    tilesInProgress: set<TileIndex>,
    retries: Retries,
    isAborted: bool,
    isViewChanged: bool,
    hasListeners: bool,              // whether DataChanged has subscribers
    pending: seq<TileInfo>,          // fetches awaiting the tile source
    notifications: seq<DataChanged>) // DataChanged events raised so far

  /** The constructor, with a listener attached or not. */
  function New(hasListeners: bool): (f: Fetcher)
    ensures !f.isAborted && f.tilesInProgress == {} && f.pending == []
  {
    Fetcher(Extent(0.0, 0.0, 0.0, 0.0), 0.0, {}, Fresh, false, false, hasListeners, [], [])
  }

  /** The result of a public call: the new state and the exception, if
      one escaped (state changes made before the throw are kept). */
  datatype Step = Step(fetcher: Fetcher, error: Option<Error>)

  /** Every pending fetch is marked in progress, and no index is being
      fetched twice. */
  ghost predicate Inv(f: Fetcher) {
    && (forall i :: 0 <= i < |f.pending| ==> f.pending[i].index in f.tilesInProgress)
    && (forall i, j :: 0 <= i < j < |f.pending| ==> f.pending[i].index != f.pending[j].index)
  }

  // ---- planning ----

  /** The filter of `GetTilesMissing`: not in the memory cache and not
      out of attempts. */
  predicate StillMissing(memory: set<TileIndex>, retries: Retries, t: TileInfo) {
    t.index !in memory && !ReachedMax(retries, t.index)
  }

  /** `GetTilesMissing`: the wanted tiles, in order, that the memory cache
      does not hold and that still have attempts left, each as often as
      it is wanted. */
  function GetTilesMissing(wanted: seq<TileInfo>, memory: set<TileIndex>, retries: Retries): (r: seq<TileInfo>)
    ensures forall t :: t in r <==> t in wanted && t.index !in memory && !ReachedMax(retries, t.index)
    ensures KeepsOccurrences(r, wanted, t => StillMissing(memory, retries, t))
    ensures IsSubsequence(r, wanted)
  {
    if |wanted| == 0 then []
    else
      var rest := GetTilesMissing(wanted[1..], memory, retries);
      var keep := t => StillMissing(memory, retries, t);
      KeepsOccurrencesStep(wanted, rest, keep);
      var r := if keep(wanted[0]) then [wanted[0]] + rest else rest;
      KeepsOccurrencesMembers(r, wanted, keep);
      if keep(wanted[0]) then r
      else
        SubsequenceOfTail(rest, wanted);
        r
  }

  // ---- starting and completing single fetches ----

  /** `DoFetchTile` followed by the synchronous start of `DoFetchAsync`.
      An index already in progress or out of attempts is skipped;
      otherwise it is marked in progress, one attempt is recorded, and a
      fetch is launched unless the fetcher has been aborted (then
      `DoFetchAsync` returns at once and the index stays marked). */
  function DoFetchTile(f: Fetcher, info: TileInfo): (r: Fetcher)
    ensures info.index in f.tilesInProgress || ReachedMax(f.retries, info.index) ==> r == f
    ensures !(info.index in f.tilesInProgress || ReachedMax(f.retries, info.index)) ==>
      && r.tilesInProgress == f.tilesInProgress + {info.index}
      && Attempts(r.retries, info.index) == Attempts(f.retries, info.index) + 1
      && r.pending == (if f.isAborted then f.pending else f.pending + [info])
    ensures r == f.(tilesInProgress := r.tilesInProgress, retries := r.retries, pending := r.pending)
    ensures f.tilesInProgress <= r.tilesInProgress
    ensures forall other :: other != info.index ==> RetryCount(r.retries, other) == RetryCount(f.retries, other)
  {
    if info.index in f.tilesInProgress then f
    else if ReachedMax(f.retries, info.index) then f
    else
      PlusOneCountsAnAttempt(f.retries, info.index, info.index);
      var started := f.(tilesInProgress := f.tilesInProgress + {info.index},
                        retries := PlusOne(f.retries, info.index));
      if started.isAborted then started
      else started.(pending := started.pending + [info])
  }

  /** Index of the first pending fetch of `info`. */
  function FirstPending(pending: seq<TileInfo>, info: TileInfo): (k: nat)
    requires info in pending
    ensures k < |pending| && pending[k] == info
    ensures forall j :: 0 <= j < k ==> pending[j] != info
  {
    if pending[0] == info then 0 else 1 + FirstPending(pending[1..], info)
  }

  /** The continuation of `DoFetchAsync` once the tile source answered:
      the index leaves the in-progress set on success and on failure, and
      unless the fetcher was aborted the listeners hear of it. */
  function CompleteFetch(f: Fetcher, info: TileInfo, outcome: FetchOutcome): (r: Fetcher)
    requires info in f.pending
    ensures info.index !in r.tilesInProgress
    ensures r.tilesInProgress == f.tilesInProgress - {info.index}
    ensures |r.pending| == |f.pending| - 1
    ensures multiset(r.pending) == multiset(f.pending) - multiset{info}
    ensures var k := FirstPending(f.pending, info); r.pending == f.pending[..k] + f.pending[k + 1..]
    ensures f.isAborted || !f.hasListeners ==> r.notifications == f.notifications
    ensures !f.isAborted && f.hasListeners ==>
      r.notifications == f.notifications + [Notification(info, outcome)]
    ensures r.isAborted == f.isAborted && r.retries == f.retries
  {
    var k := FirstPending(f.pending, info);
    assert f.pending == f.pending[..k] + [info] + f.pending[k + 1..];
    var f1 := f.(tilesInProgress := f.tilesInProgress - {info.index},
                 pending := f.pending[..k] + f.pending[k + 1..]);
    if f1.hasListeners && !f1.isAborted then
      f1.(notifications := f1.notifications + [Notification(info, outcome)])
    else f1
  }

  /** The event raised for an outcome: the tile on success, the error and
      no tile on failure; never marked final. */
  function Notification(info: TileInfo, outcome: FetchOutcome): (e: DataChanged)
    ensures !e.isFinal
    ensures e.error.Some? <==> outcome.Failed?
    ensures e.tile.Some? <==> outcome.Fetched?
    ensures e.tile.Some? ==> e.tile.value.info == info
  {
    match outcome
    case Fetched(data) => DataChanged(None, false, Some(Tile(info, data)))
    case Failed(err) => DataChanged(Some(err), false, None)
  }

  /** Agreeing on which tiles are filtered out gives the same missing list. */
  lemma {:induction false} MissingAgree(wanted: seq<TileInfo>, m1: set<TileIndex>, r1: Retries,
                                        m2: set<TileIndex>, r2: Retries)
    requires forall i :: 0 <= i < |wanted| ==>
      ((wanted[i].index in m1 || ReachedMax(r1, wanted[i].index))
       <==> (wanted[i].index in m2 || ReachedMax(r2, wanted[i].index)))
    ensures GetTilesMissing(wanted, m1, r1) == GetTilesMissing(wanted, m2, r2)
  {
    if |wanted| > 0 {
      var rest := wanted[1..];
      forall i | 0 <= i < |rest|
        ensures (rest[i].index in m1 || ReachedMax(r1, rest[i].index))
                <==> (rest[i].index in m2 || ReachedMax(r2, rest[i].index))
      {
        assert rest[i] == wanted[i + 1];
      }
      MissingAgree(rest, m1, r1, m2, r2);
    }
  }

  /** The tail of a list with distinct indices has distinct indices, none
      of them the head's. */
  lemma DistinctTail(missing: seq<TileInfo>)
    requires |missing| > 0 && DistinctIndices(missing)
    ensures DistinctIndices(missing[1..])
    ensures forall i :: 1 <= i < |missing| ==> missing[i].index != missing[0].index
  {
    var rest := missing[1..];
    forall i, j | 0 <= i < j < |rest| ensures rest[i].index != rest[j].index {
      assert rest[i] == missing[i + 1] && rest[j] == missing[j + 1];
    }
  }

  /** Starting one tile leaves every other index as free as it was. */
  lemma OthersStayFree(f: Fetcher, t: TileInfo, rest: seq<TileInfo>)
    requires forall i :: 0 <= i < |rest| ==> rest[i].index != t.index
    ensures var f1 := DoFetchTile(f, t);
      GetTilesMissing(rest, f1.tilesInProgress, f1.retries) == GetTilesMissing(rest, f.tilesInProgress, f.retries)
  {
    var f1 := DoFetchTile(f, t);
    forall i | 0 <= i < |rest|
      ensures (rest[i].index in f1.tilesInProgress || ReachedMax(f1.retries, rest[i].index))
              <==> (rest[i].index in f.tilesInProgress || ReachedMax(f.retries, rest[i].index))
    {
      assert RetryCount(f1.retries, rest[i].index) == RetryCount(f.retries, rest[i].index);
    }
    MissingAgree(rest, f1.tilesInProgress, f1.retries, f.tilesInProgress, f.retries);
  }

  /** One step of DoFetchTiles on distinct indices: the first tile is
      launched exactly when it is free, and it does not change whether any
      later tile is free. */
  lemma LaunchStep(f: Fetcher, missing: seq<TileInfo>)
    requires |missing| > 0 && !f.isAborted
    ensures DistinctIndices(missing) ==>
      var f1 := DoFetchTile(f, missing[0]);
      && !f1.isAborted && DistinctIndices(missing[1..])
      && f1.pending + GetTilesMissing(missing[1..], f1.tilesInProgress, f1.retries)
         == f.pending + GetTilesMissing(missing, f.tilesInProgress, f.retries)
  {
    if DistinctIndices(missing) {
      var t, rest := missing[0], missing[1..];
      DistinctTail(missing);
      assert forall i :: 0 <= i < |rest| ==> rest[i].index != t.index by {
        forall i | 0 <= i < |rest| ensures rest[i].index != t.index {
          assert rest[i] == missing[i + 1];
        }
      }
      OthersStayFree(f, t, rest);
      var m := GetTilesMissing(rest, f.tilesInProgress, f.retries);
      if t.index !in f.tilesInProgress && !ReachedMax(f.retries, t.index) {
        AppendFirst(f.pending, [t] + m);
      }
    }
  }

  // ---- a view session ----

  /** `DoFetchTiles`: the abort flag is checked before each tile. */
  function DoFetchTiles(f: Fetcher, missing: seq<TileInfo>): (r: Fetcher)
    ensures f.isAborted ==> r == f
    ensures r == f.(tilesInProgress := r.tilesInProgress, retries := r.retries, pending := r.pending)
    ensures f.tilesInProgress <= r.tilesInProgress
    ensures forall t :: t in r.pending ==> t in f.pending || t in missing
    ensures |f.pending| <= |r.pending| && r.pending[..|f.pending|] == f.pending
    ensures !f.isAborted && DistinctIndices(missing) ==>
      r.pending == f.pending + GetTilesMissing(missing, f.tilesInProgress, f.retries)
    decreases |missing|
  {
    if |missing| == 0 then f
    else if f.isAborted then f
    else
      var f1 := DoFetchTile(f, missing[0]);
      var r := DoFetchTiles(f1, missing[1..]);
      LaunchStep(f, missing);
      assert r.pending[..|f1.pending|] == f1.pending;
      assert f1.pending[..|f.pending|] == f.pending;
      r
  }

  /** `DoFetch`: nothing without a schema; an empty resolution dictionary
      throws from GetNearestLevel; otherwise the wanted tiles are always
      recomputed (the cached list is a fresh null local), the attempt
      counters are cleared, and the missing tiles are launched. */
  function DoFetch(f: Fetcher, schema: Option<FetchStrategy.Schema>, memory: set<TileIndex>): (r: Step)
    ensures schema.None? ==> r == Step(f, None)
    ensures schema.Some? && |schema.value.resolutions| == 0 ==> r == Step(f, Some(NoTileResolutions))
    ensures schema.Some? && |schema.value.resolutions| > 0 ==>
      && r.error.None? && !r.fetcher.isViewChanged
      && r.fetcher.tilesInProgress >= f.tilesInProgress
      && (forall t :: t in r.fetcher.pending ==>
            t in f.pending || (t in SessionTiles(schema.value, f.extent, f.resolution) && t.index !in memory))
    ensures r.fetcher.isAborted == f.isAborted && r.fetcher.notifications == f.notifications
    ensures r.fetcher.extent == f.extent && r.fetcher.resolution == f.resolution
  {
    match schema
    case None => Step(f, None)
    case Some(s) =>
      if |s.resolutions| == 0 then Step(f, Some(NoTileResolutions))
      else
        var wanted := SessionTiles(s, f.extent, f.resolution);
        var f1 := f.(retries := Clear(f.retries), isViewChanged := false);
        var missing := GetTilesMissing(wanted, memory, f1.retries);
        Step(DoFetchTiles(f1, missing), None)
  }

  /** The wanted tiles for a view: GetTilesWanted at the nearest level,
      which cannot throw because the nearest level is a dictionary key. */
  function SessionTiles(s: FetchStrategy.Schema, extent: Extent, resolution: real): (wanted: seq<TileInfo>)
    requires |s.resolutions| > 0
    ensures forall t :: t in wanted ==> FetchStrategy.NonNegative(t)
    ensures FetchStrategy.GetTilesWanted(s, extent, Utilities.GetNearestLevel(s.resolutions, resolution).value)
            == Success(wanted)
  {
    var levelId := Utilities.GetNearestLevel(s.resolutions, resolution).value;
    var i :| 0 <= i < |s.resolutions| && s.resolutions[i].levelId == levelId;
    assert s.resolutions[i] in s.resolutions;
    FetchStrategy.GetTilesWanted(s, extent, levelId).value
  }

  /** `ViewChanged`: the new view replaces the old one and a session starts. */
  function ViewChanged(f: Fetcher, extent: Extent, resolution: real,
                       schema: Option<FetchStrategy.Schema>, memory: set<TileIndex>): (r: Step)
    ensures r.fetcher.extent == extent && r.fetcher.resolution == resolution
    ensures r.fetcher.isAborted == f.isAborted
    ensures schema.None? ==> r.fetcher.pending == f.pending && r.error.None?
    ensures schema.Some? && |schema.value.resolutions| == 0 ==> r.error == Some(NoTileResolutions)
    ensures schema.Some? && |schema.value.resolutions| > 0 ==>
      && r.error.None? && !r.fetcher.isViewChanged
      && (forall t :: t in r.fetcher.pending ==>
            t in f.pending || (t in SessionTiles(schema.value, extent, resolution) && t.index !in memory))
  {
    DoFetch(f.(extent := extent, resolution := resolution, isViewChanged := true), schema, memory)
  }

  /** `AbortFetch`: a one-way flag. */
  function AbortFetch(f: Fetcher): (r: Fetcher)
    ensures r.isAborted
    ensures r.pending == f.pending && r.tilesInProgress == f.tilesInProgress
  {
    f.(isAborted := true)
  }

  // ---- properties ----

  /** Every fetch a session launches is a wanted tile that is neither in the
      memory cache nor already pending. */
  lemma SessionLaunchesOnlyMissing(f: Fetcher, s: FetchStrategy.Schema, memory: set<TileIndex>, t: TileInfo)
    requires |s.resolutions| > 0
    requires t in DoFetch(f, Some(s), memory).fetcher.pending && t !in f.pending
    ensures t.index !in memory
    ensures t in SessionTiles(s, f.extent, f.resolution)
    ensures FetchStrategy.GetTilesWanted(s, f.extent, Utilities.GetNearestLevel(s.resolutions, f.resolution).value)
            == Success(SessionTiles(s, f.extent, f.resolution))
  {
  }

  /** Because the counters are cleared first, retry exhaustion never
      removes a tile from a session's missing list: only the memory cache
      does. */
  lemma SessionIgnoresEarlierAttempts(wanted: seq<TileInfo>, memory: set<TileIndex>, r: Retries)
    ensures GetTilesMissing(wanted, memory, Clear(r)) == GetTilesMissing(wanted, memory, Fresh)
    ensures forall t :: t in GetTilesMissing(wanted, memory, Clear(r)) <==> t in wanted && t.index !in memory
  {
  }

  /** A tile that is neither in progress nor exhausted is launched. */
  lemma DoFetchTileLaunches(f: Fetcher, info: TileInfo)
    requires !f.isAborted && info.index !in f.tilesInProgress && !ReachedMax(f.retries, info.index)
    ensures DoFetchTile(f, info).pending == f.pending + [info]
    ensures DoFetchTile(f, info).tilesInProgress == f.tilesInProgress + {info.index}
    ensures !DoFetchTile(f, info).isAborted
  {
  }

  /** Every tile of `missing` is free to start. */
  ghost predicate AllStartable(f: Fetcher, missing: seq<TileInfo>) {
    forall i :: 0 <= i < |missing| ==>
      missing[i].index !in f.tilesInProgress && !ReachedMax(f.retries, missing[i].index)
  }

  /** No index occurs twice. */
  ghost predicate DistinctIndices(missing: seq<TileInfo>) {
    forall i, j :: 0 <= i < j < |missing| ==> missing[i].index != missing[j].index
  }

  /** A batch that can be launched whole: the fetcher is live, every tile
      is free to start and no index occurs twice. */
  ghost predicate Launchable(f: Fetcher, missing: seq<TileInfo>) {
    !f.isAborted && AllStartable(f, missing) && DistinctIndices(missing)
  }

  /** Launching the first tile of a launchable batch: it is appended to the
      pending fetches and the rest stays launchable. */
  lemma LaunchFirst(f: Fetcher, missing: seq<TileInfo>)
    requires |missing| > 0 && Launchable(f, missing)
    ensures var f1 := DoFetchTile(f, missing[0]);
      && Launchable(f1, missing[1..])
      && DoFetchTiles(f, missing) == DoFetchTiles(f1, missing[1..])
      && f1.pending == f.pending + [missing[0]]
  {
    var f1 := DoFetchTile(f, missing[0]);
    DoFetchTileLaunches(f, missing[0]);
    var rest := missing[1..];
    forall i | 0 <= i < |rest|
      ensures rest[i].index !in f1.tilesInProgress && !ReachedMax(f1.retries, rest[i].index)
    {
      assert rest[i] == missing[i + 1];
      assert RetryCount(f1.retries, rest[i].index) == RetryCount(f.retries, rest[i].index);
    }
    forall i, j | 0 <= i < j < |rest| ensures rest[i].index != rest[j].index {
      assert rest[i] == missing[i + 1] && rest[j] == missing[j + 1];
    }
  }

  lemma AppendFirst<T>(a: seq<T>, s: seq<T>)
    requires |s| > 0
    ensures (a + [s[0]]) + s[1..] == a + s
  {
    assert s == [s[0]] + s[1..];
  }

  /** With distinct indices, none in progress and none exhausted, every
      missing tile is launched, in order. */
  lemma {:induction false} DoFetchTilesLaunchesAll(f: Fetcher, missing: seq<TileInfo>)
    requires Launchable(f, missing)
    ensures DoFetchTiles(f, missing).pending == f.pending + missing
    decreases |missing|
  {
    if |missing| > 0 {
      LaunchFirst(f, missing);
      DoFetchTilesLaunchesAll(DoFetchTile(f, missing[0]), missing[1..]);
      AppendFirst(f.pending, missing);
    }
  }

  /** Dropping tiles keeps indices distinct. */
  lemma {:induction false} MissingKeepsDistinct(wanted: seq<TileInfo>, memory: set<TileIndex>, r: Retries)
    requires DistinctIndices(wanted)
    ensures DistinctIndices(GetTilesMissing(wanted, memory, r))
  {
    if |wanted| > 0 {
      var rest := wanted[1..];
      assert DistinctIndices(rest) by {
        forall i, j | 0 <= i < j < |rest| ensures rest[i].index != rest[j].index {
          assert rest[i] == wanted[i + 1] && rest[j] == wanted[j + 1];
        }
      }
      MissingKeepsDistinct(rest, memory, r);
      var m := GetTilesMissing(rest, memory, r);
      forall t | t in m ensures t.index != wanted[0].index {
        var j :| 1 <= j < |wanted| && wanted[j] == t;
      }
    }
  }

  /** Filtering twice from fresh counters is filtering once by both sets. */
  lemma {:induction false} MissingTwice(wanted: seq<TileInfo>, m1: set<TileIndex>, m2: set<TileIndex>)
    ensures GetTilesMissing(GetTilesMissing(wanted, m1, Fresh), m2, Fresh) == GetTilesMissing(wanted, m1 + m2, Fresh)
  {
    if |wanted| > 0 {
      MissingTwice(wanted[1..], m1, m2);
    }
  }

  /** A whole session: with distinct wanted indices, exactly the wanted
      tiles that are neither in the memory cache nor still being fetched
      from an earlier view are launched, once each, in priority order. */
  lemma SessionFetchesExactlyMissing(f: Fetcher, s: FetchStrategy.Schema, memory: set<TileIndex>)
    requires |s.resolutions| > 0 && !f.isAborted
    requires DistinctIndices(SessionTiles(s, f.extent, f.resolution))
    ensures DoFetch(f, Some(s), memory).fetcher.pending
            == f.pending + GetTilesMissing(SessionTiles(s, f.extent, f.resolution), memory + f.tilesInProgress, Fresh)
  {
    var wanted := SessionTiles(s, f.extent, f.resolution);
    var f1 := f.(retries := Clear(f.retries), isViewChanged := false);
    SessionIgnoresEarlierAttempts(wanted, memory, f.retries);
    var missing := GetTilesMissing(wanted, memory, Fresh);
    MissingKeepsDistinct(wanted, memory, Fresh);
    SessionIgnoresEarlierAttempts(missing, f.tilesInProgress, f.retries);
    MissingTwice(wanted, memory, f.tilesInProgress);
  }

  /** A view change runs that session on the new view. */
  lemma ViewChangedLaunches(f: Fetcher, extent: Extent, resolution: real,
                            s: FetchStrategy.Schema, memory: set<TileIndex>)
    requires |s.resolutions| > 0 && !f.isAborted
    requires DistinctIndices(SessionTiles(s, extent, resolution))
    ensures var r := ViewChanged(f, extent, resolution, Some(s), memory);
      && r.error.None?
      && r.fetcher.pending
         == f.pending + GetTilesMissing(SessionTiles(s, extent, resolution), memory + f.tilesInProgress, Fresh)
  {
    SessionFetchesExactlyMissing(f.(extent := extent, resolution := resolution, isViewChanged := true), s, memory);
  }

  /** A tile that has used its attempts is never fetched again this session. */
  lemma ExhaustedTileNotRefetched(f: Fetcher, info: TileInfo)
    requires ReachedMax(f.retries, info.index)
    ensures DoFetchTile(f, info) == f
  {
  }

  /** Starting and completing fetches never fetches an index twice at once. */
  lemma DoFetchTileInv(f: Fetcher, info: TileInfo)
    requires Inv(f)
    ensures Inv(DoFetchTile(f, info))
  {
  }

  lemma {:induction false} DoFetchTilesInv(f: Fetcher, missing: seq<TileInfo>)
    requires Inv(f)
    ensures Inv(DoFetchTiles(f, missing))
    decreases |missing|
  {
    if |missing| > 0 && !f.isAborted {
      DoFetchTileInv(f, missing[0]);
      DoFetchTilesInv(DoFetchTile(f, missing[0]), missing[1..]);
    }
  }

  /** Dropping one entry from a list of distinct in-progress fetches
      leaves distinct fetches that are in progress without its index. */
  lemma RemoveAtKeepsInv(p: seq<TileInfo>, k: nat, inProgress: set<TileIndex>)
    requires k < |p|
    requires forall i :: 0 <= i < |p| ==> p[i].index in inProgress
    requires forall i, j :: 0 <= i < j < |p| ==> p[i].index != p[j].index
    ensures var q := p[..k] + p[k + 1..];
      && (forall i :: 0 <= i < |q| ==> q[i].index in inProgress - {p[k].index})
      && (forall i, j :: 0 <= i < j < |q| ==> q[i].index != q[j].index)
  {
    var q := p[..k] + p[k + 1..];
    forall i | 0 <= i < |q| ensures q[i] == p[if i < k then i else i + 1] { }
    forall i | 0 <= i < |q| ensures q[i].index in inProgress - {p[k].index} {
      var j := if i < k then i else i + 1;
      if j < k { assert p[j].index != p[k].index; } else { assert p[k].index != p[j].index; }
    }
    forall i, i' | 0 <= i < i' < |q| ensures q[i].index != q[i'].index {
      var j := if i < k then i else i + 1;
      var j' := if i' < k then i' else i' + 1;
      assert q[i] == p[j] && q[i'] == p[j'];
    }
  }

  lemma CompleteFetchInv(f: Fetcher, info: TileInfo, outcome: FetchOutcome)
    requires Inv(f) && info in f.pending
    ensures Inv(CompleteFetch(f, info, outcome))
  {
    RemoveAtKeepsInv(f.pending, FirstPending(f.pending, info), f.tilesInProgress);
  }

  lemma ViewChangedInv(f: Fetcher, extent: Extent, resolution: real,
                       schema: Option<FetchStrategy.Schema>, memory: set<TileIndex>)
    requires Inv(f)
    ensures Inv(ViewChanged(f, extent, resolution, schema, memory).fetcher)
  {
    var f0 := f.(extent := extent, resolution := resolution, isViewChanged := true);
    if schema.Some? && |schema.value.resolutions| > 0 {
      var wanted := SessionTiles(schema.value, extent, resolution);
      var f1 := f0.(retries := Clear(f0.retries), isViewChanged := false);
      DoFetchTilesInv(f1, GetTilesMissing(wanted, memory, f1.retries));
    }
  }

  /** After AbortFetch no new fetch is launched and no listener is told. */
  lemma AbortSilences(f: Fetcher, missing: seq<TileInfo>, info: TileInfo, outcome: FetchOutcome)
    ensures DoFetchTiles(AbortFetch(f), missing) == AbortFetch(f)
    ensures DoFetchTile(AbortFetch(f), info).pending == f.pending
    ensures info in f.pending ==>
      CompleteFetch(AbortFetch(f), info, outcome).notifications == f.notifications
  {
  }

  /** Aborting is permanent: no transition clears the flag. */
  lemma AbortIsPermanent(f: Fetcher, extent: Extent, resolution: real,
                         schema: Option<FetchStrategy.Schema>, memory: set<TileIndex>,
                         info: TileInfo, outcome: FetchOutcome)
    requires f.isAborted
    ensures ViewChanged(f, extent, resolution, schema, memory).fetcher.isAborted
    ensures DoFetchTile(f, info).isAborted
    ensures info in f.pending ==> CompleteFetch(f, info, outcome).isAborted
  {
  }
}
