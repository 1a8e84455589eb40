/** `AsyncFileCache`: tiles stored as files `directory/level/col/row.format`
    over an abstract file system (path to bytes and last-write time), with
    an integer clock `now` and a lazy expiry (0 means files never expire).
    Every operation runs inside the cache's reader/writer lock. */
module FileCache {
  import opened Tiles
  import RW = ReaderWriterLock

  // ---- path derivation ----

  const DirectorySeparator: char := '\\'
  const AltDirectorySeparator: char := '/'
  const VolumeSeparator: char := ':'

  /** `Path.IsPathRooted` on Windows: a leading separator or a drive colon. */
  predicate IsPathRooted(p: string) {
    || (|p| >= 1 && (p[0] == DirectorySeparator || p[0] == AltDirectorySeparator))
    || (|p| >= 2 && p[1] == VolumeSeparator)
  }

  /** Whether `Path.Combine` can append to `p` without a separator. */
  predicate EndsWithSeparator(p: string) {
    |p| > 0 && (p[|p| - 1] == DirectorySeparator || p[|p| - 1] == AltDirectorySeparator
                || p[|p| - 1] == VolumeSeparator)
  }

  /** `Path.Combine(a, b)`. */
  function Combine(a: string, b: string): (r: string)
    ensures |b| == 0 ==> r == a
    ensures |b| > 0 && !IsPathRooted(b) ==>
      r == (if |a| == 0 || EndsWithSeparator(a) then a + b else a + [DirectorySeparator] + b)
    ensures IsPathRooted(b) ==> r == b
  {
    if |b| == 0 then a
    else if |a| == 0 then b
    else if IsPathRooted(b) then b
    else if EndsWithSeparator(a) then a + b
    else a + [DirectorySeparator] + b
  }

  /** `string.Replace(from, to)` on single characters. */
  function Replace(s: string, from: char, to: char): (r: string)
    ensures |r| == |s|
    ensures from != to ==> forall i :: 0 <= i < |r| ==> r[i] != from
    ensures forall i :: 0 <= i < |r| && s[i] != from ==> r[i] == s[i]
    ensures forall i :: 0 <= i < |r| && s[i] == from ==> r[i] == to
  {
    seq(|s|, i requires 0 <= i < |s| => if s[i] == from then to else s[i])
  }

  predicate IsDigit(c: char) { '0' <= c <= '9' }

  function DigitChar(d: nat): (c: char)
    requires d < 10
    ensures IsDigit(c)
  {
    (('0' as int) + d) as char
  }

  /** Decimal digits of `n`, most significant first. */
  function NatToString(n: nat): (s: string)
    ensures |s| > 0
    ensures forall i :: 0 <= i < |s| ==> IsDigit(s[i])
  {
    if n < 10 then [DigitChar(n)] else NatToString(n / 10) + [DigitChar(n % 10)]
  }

  /** `int.ToString(CultureInfo.InvariantCulture)`. */
  function IntToString(i: int): (s: string)
    ensures |s| > 0
    ensures IsDigit(s[0]) || s[0] == '-'
    ensures forall k :: 1 <= k < |s| ==> IsDigit(s[k])
  {
    if i < 0 then "-" + NatToString(-i) else NatToString(i)
  }

  /** Reads decimal digits back. */
  function ParseNat(s: string): nat {
    if |s| == 0 then 0
    else
      var d := (s[|s| - 1] as int) - ('0' as int);
      ParseNat(s[..|s| - 1]) * 10 + (if 0 <= d then d else 0)
  }

  function ParseInt(s: string): int {
    if |s| > 0 && s[0] == '-' then -(ParseNat(s[1..]) as int) else ParseNat(s)
  }

  lemma {:induction false} NatToStringRoundTrip(n: nat)
    ensures ParseNat(NatToString(n)) == n
  {
    if n >= 10 {
      NatToStringRoundTrip(n / 10);
      var s := NatToString(n);
      assert s[..|s| - 1] == NatToString(n / 10);
    }
  }

  /** Printed numbers are read back unchanged, so they are unambiguous. */
  lemma IntToStringRoundTrip(i: int)
    ensures ParseInt(IntToString(i)) == i
  {
    if i < 0 {
      NatToStringRoundTrip(-i);
      assert IntToString(i)[1..] == NatToString(-i);
    } else {
      NatToStringRoundTrip(i);
    }
  }

  /** Constructor arguments of the cache. */
  datatype Config = Config(directory: string, format: string, cacheExpireTime: nat)

  /** The level directory: `:` is not allowed in a path segment. */
  function LevelSegment(level: string): string {
    Replace(level, ':', '_')
  }

  /** `GetDirectoryName`: directory / level / column. */
  function DirectoryName(cfg: Config, index: TileIndex): string {
    Combine(Combine(cfg.directory, LevelSegment(index.level)), IntToString(index.col))
  }

  /** `GetSimpleFileName`: "row.format". */
  function SimpleFileName(cfg: Config, index: TileIndex): string {
    IntToString(index.row) + "." + cfg.format
  }

  /** `GetFileName`, which is also the path Add builds. */
  function FileName(cfg: Config, index: TileIndex): string {
    Combine(DirectoryName(cfg, index), SimpleFileName(cfg, index))
  }

  /** What precedes the column number in every path of a level. */
  function LevelPrefix(cfg: Config, level: string): string {
    var p := Combine(cfg.directory, LevelSegment(level));
    if |p| == 0 || EndsWithSeparator(p) then p else p + [DirectorySeparator]
  }

  lemma NumberNotRooted(i: int, rest: string)
    requires |rest| == 0 || rest[0] != VolumeSeparator
    ensures !IsPathRooted(IntToString(i) + rest)
  {
    var s := IntToString(i) + rest;
    if |s| >= 2 && |IntToString(i)| == 1 {
      assert s[1] == rest[0];
    }
  }

  /** The part of a path after the level prefix: column, separator, "row.format". */
  function ColumnAndRow(cfg: Config, index: TileIndex): string {
    IntToString(index.col) + [DirectorySeparator] + (IntToString(index.row) + "." + cfg.format)
  }

  /** The directory of a tile is the level prefix followed by the column,
      and it never ends in a separator. */
  lemma DirectoryNameShape(cfg: Config, index: TileIndex)
    ensures DirectoryName(cfg, index) == LevelPrefix(cfg, index.level) + IntToString(index.col)
    ensures !EndsWithSeparator(DirectoryName(cfg, index))
  {
    var c := IntToString(index.col);
    NumberNotRooted(index.col, "");
    assert c + "" == c;
    var d := DirectoryName(cfg, index);
    assert d == LevelPrefix(cfg, index.level) + c;
    assert d[|d| - 1] == c[|c| - 1];
  }

  lemma RegroupJoin(a: string, b: string, c: char, e: string)
    ensures (a + b) + [c] + e == a + (b + [c] + e)
  {
  }

  /** Every path is the level prefix, the column, a separator, the row,
      a dot and the format. */
  lemma FileNameShape(cfg: Config, index: TileIndex)
    ensures FileName(cfg, index) == LevelPrefix(cfg, index.level) + ColumnAndRow(cfg, index)
  {
    DirectoryNameShape(cfg, index);
    NumberNotRooted(index.row, "." + cfg.format);
    var d := DirectoryName(cfg, index);
    var simple := IntToString(index.row) + ("." + cfg.format);
    assert SimpleFileName(cfg, index) == simple;
    assert |d| > 0 && |simple| > 0;
    assert FileName(cfg, index) == d + [DirectorySeparator] + simple;
    RegroupJoin(LevelPrefix(cfg, index.level), IntToString(index.col), DirectorySeparator, simple);
  }

  lemma SeparatorAt(x: string, y: string, c: char)
    ensures (x + [c] + y)[|x|] == c
    ensures forall i :: 0 <= i < |x| ==> (x + [c] + y)[i] == x[i]
  {
  }

  /** Cutting two strings at their first `c`. */
  lemma {:induction false} SplitAtFirst(x1: string, y1: string, x2: string, y2: string, c: char)
    requires c !in x1 && c !in x2
    requires x1 + [c] + y1 == x2 + [c] + y2
    ensures x1 == x2 && y1 == y2
  {
    var s := x1 + [c] + y1;
    SeparatorAt(x1, y1, c);
    SeparatorAt(x2, y2, c);
    if |x1| < |x2| {
      assert false;
    } else if |x2| < |x1| {
      assert false;
    }
    assert x1 == s[..|x1|] == x2;
    assert y1 == s[|x1| + 1..] == y2;
  }

  /** A formatted number holds neither a separator nor a dot. */
  lemma NumberHasNoSeparator(i: int)
    ensures DirectorySeparator !in IntToString(i) && '.' !in IntToString(i)
  {
    var s := IntToString(i);
    assert forall k :: 0 <= k < |s| ==> s[k] != DirectorySeparator && s[k] != '.';
  }

  /** The column and row are read back from the part after the prefix. */
  lemma NumbersFromTail(ca: string, ra: string, cb: string, rb: string, f: string)
    requires DirectorySeparator !in ca && DirectorySeparator !in cb && '.' !in ra && '.' !in rb
    requires ca + [DirectorySeparator] + (ra + "." + f) == cb + [DirectorySeparator] + (rb + "." + f)
    ensures ca == cb && ra == rb
  {
    SplitAtFirst(ca, ra + "." + f, cb, rb + "." + f, DirectorySeparator);
    assert ra + "." + f == ra + ['.'] + f && rb + "." + f == rb + ['.'] + f;
    SplitAtFirst(ra, f, rb, f, '.');
  }

  lemma StripPrefix(p: string, x: string, y: string)
    requires p + x == p + y
    ensures x == y
  {
    assert x == (p + x)[|p|..];
    assert y == (p + y)[|p|..];
  }

  /** Within one level, different tiles never share a file. */
  lemma FileNameInjective(cfg: Config, a: TileIndex, b: TileIndex)
    requires a.level == b.level
    requires FileName(cfg, a) == FileName(cfg, b)
    ensures a == b
  {
    FileNameShape(cfg, a);
    FileNameShape(cfg, b);
    StripPrefix(LevelPrefix(cfg, a.level), ColumnAndRow(cfg, a), ColumnAndRow(cfg, b));
    NumberHasNoSeparator(a.col);
    NumberHasNoSeparator(b.col);
    NumberHasNoSeparator(a.row);
    NumberHasNoSeparator(b.row);
    NumbersFromTail(IntToString(a.col), IntToString(a.row), IntToString(b.col), IntToString(b.row), cfg.format);
    IntToStringRoundTrip(a.col);
    IntToStringRoundTrip(b.col);
    IntToStringRoundTrip(a.row);
    IntToStringRoundTrip(b.row);
  }

  /** The colon substitution makes two level ids share a directory. */
  lemma ColonAndUnderscoreLevelsCollide(cfg: Config, col: int, row: int)
    ensures FileName(cfg, TileIndex("a:b", col, row)) == FileName(cfg, TileIndex("a_b", col, row))
  {
    assert LevelSegment("a:b") == LevelSegment("a_b");
  }

  // ---- the file store ----

  datatype FileEntry = FileEntry(data: Bytes, lastWriteTime: int)

  datatype FileSystem = FileSystem(files: map<string, FileEntry>, directories: set<string>)

  /** The constructor: creates the root directory when it is missing. */
  function Create(cfg: Config, fs: FileSystem): (r: FileSystem)
    ensures cfg.directory in r.directories && r.files == fs.files
    ensures fs.directories <= r.directories
  {
    if cfg.directory in fs.directories then fs
    else fs.(directories := fs.directories + {cfg.directory})
  }

  /** `Exists`: the file is there and has not outlived the expiry. */
  predicate Exists(cfg: Config, fs: FileSystem, now: int, path: string) {
    && path in fs.files
    && (cfg.cacheExpireTime == 0 || now - fs.files[path].lastWriteTime <= cfg.cacheExpireTime)
  }

  /** `Add`/`AddAsync` inside the write lock: a live file is left alone;
      otherwise the directories are created and the whole payload is
      written, replacing any expired file and its timestamp. */
  function Add(cfg: Config, fs: FileSystem, now: int, index: TileIndex, tile: Bytes): (r: FileSystem)
    ensures Exists(cfg, fs, now, FileName(cfg, index)) ==> r == fs
    ensures !Exists(cfg, fs, now, FileName(cfg, index)) ==>
      && FileName(cfg, index) in r.files
      && r.files[FileName(cfg, index)] == FileEntry(tile, now)
      && DirectoryName(cfg, index) in r.directories
    ensures forall p :: p != FileName(cfg, index) ==>
      (p in r.files <==> p in fs.files) && (p in fs.files ==> r.files[p] == fs.files[p])
    ensures fs.directories <= r.directories
  {
    var directoryName := DirectoryName(cfg, index);
    var path := Combine(directoryName, SimpleFileName(cfg, index));
    if Exists(cfg, fs, now, path) then fs
    else
      var fs1 := if directoryName in fs.directories then fs
                 else fs.(directories := fs.directories + {directoryName});
      fs1.(files := fs1.files[path := FileEntry(tile, now)])
  }

  /** `Remove`/`RemoveAsync` inside the write lock: only a live file is
      deleted; absent and expired files are left as they are, silently. */
  function Remove(cfg: Config, fs: FileSystem, now: int, index: TileIndex): (r: FileSystem)
    ensures Exists(cfg, fs, now, FileName(cfg, index)) ==> FileName(cfg, index) !in r.files
    ensures !Exists(cfg, fs, now, FileName(cfg, index)) ==> r == fs
    ensures forall p :: p != FileName(cfg, index) ==>
      (p in r.files <==> p in fs.files) && (p in fs.files ==> r.files[p] == fs.files[p])
    ensures r.directories == fs.directories
  {
    var path := FileName(cfg, index);
    if Exists(cfg, fs, now, path) then fs.(files := fs.files - {path}) else fs
  }

  /** `Find` inside the read lock: the stored bytes of a live file, else
      null. The store is not changed (the function returns none). */
  function Find(cfg: Config, fs: FileSystem, now: int, index: TileIndex): (r: Option<Bytes>)
    ensures r.Some? <==> Exists(cfg, fs, now, FileName(cfg, index))
    ensures r.Some? ==> r.value == fs.files[FileName(cfg, index)].data
  {
    var path := FileName(cfg, index);
    if !Exists(cfg, fs, now, path) then None else Some(fs.files[path].data)
  }

  // ---- consequences of the lazy expiry ----

  /** Add is "first write wins" while the file lives: a second Add with
      other bytes keeps the first payload. */
  lemma SecondAddKeepsFirst(cfg: Config, fs: FileSystem, now: int, index: TileIndex, t1: Bytes, t2: Bytes)
    requires !Exists(cfg, fs, now, FileName(cfg, index))
    ensures Find(cfg, Add(cfg, Add(cfg, fs, now, index, t1), now, index, t2), now, index) == Some(t1)
  {
  }

  /** A stored file is found until it expires, then reported missing. */
  lemma FoundUntilExpired(cfg: Config, fs: FileSystem, now: int, later: int, index: TileIndex, tile: Bytes)
    requires !Exists(cfg, fs, now, FileName(cfg, index))
    ensures Find(cfg, Add(cfg, fs, now, index, tile), later, index)
         == (if cfg.cacheExpireTime == 0 || later - now <= cfg.cacheExpireTime then Some(tile) else None)
  {
  }

  /** An expired file stays on disk through Find and Remove, and the next
      Add overwrites it with a fresh timestamp. */
  lemma ExpiredFileLifecycle(cfg: Config, fs: FileSystem, now: int, index: TileIndex, tile: Bytes)
    requires FileName(cfg, index) in fs.files && !Exists(cfg, fs, now, FileName(cfg, index))
    ensures Find(cfg, fs, now, index) == None
    ensures Remove(cfg, fs, now, index) == fs
    ensures Add(cfg, fs, now, index, tile).files[FileName(cfg, index)] == FileEntry(tile, now)
  {
  }

  /** Remove then Find misses; Remove of an absent tile is a no-op. */
  lemma RemoveThenFind(cfg: Config, fs: FileSystem, now: int, index: TileIndex)
    ensures Find(cfg, Remove(cfg, fs, now, index), now, index) == None
    ensures FileName(cfg, index) !in fs.files ==> Remove(cfg, fs, now, index) == fs
  {
  }

  // ---- locking discipline ----

  /** One cache call, blocking or asynchronous: both forms take the same
      lock in the same mode and make the same change. */
  datatype CacheOp = AddOp(index: TileIndex, tile: Bytes) | RemoveOp(index: TileIndex) | FindOp(index: TileIndex)

  /** Add and Remove take the writer lock; Find the reader lock. */
  predicate NeedsWriter(op: CacheOp) { !op.FindOp? }

  /** The store after the call and what Find returned. */
  datatype Effect = Effect(fs: FileSystem, found: Option<Bytes>)

  /** The body of the `using (releaser)` block. */
  function Apply(cfg: Config, fs: FileSystem, now: int, op: CacheOp): Effect {
    match op
    case AddOp(index, tile) => Effect(Add(cfg, fs, now, index, tile), None)
    case RemoveOp(index) => Effect(Remove(cfg, fs, now, index), None)
    case FindOp(index) => Effect(fs, Find(cfg, fs, now, index))
  }

  /** Taking the lock in the mode the operation needs. */
  function Acquire(lock: RW.LockState, w: RW.Waiter, op: CacheOp): RW.Acquire {
    if NeedsWriter(op) then RW.WriterLock(lock, w) else RW.ReaderLock(lock)
  }

  /** A cache call either finishes (lock taken, body run, lock released
      by the releaser's Dispose) or is parked on the lock's queue. */
  datatype CallState = Finished(lock: RW.LockState, effect: Effect) | Parked(lock: RW.LockState)

  /** The lock is held on behalf of caller `w` in the mode `op` needs: as
      the (or a) writer for Add and Remove, as one of the readers for Find. */
  predicate Handed(lock: RW.LockState, w: RW.Waiter, op: CacheOp) {
    if NeedsWriter(op) then w in lock.writersHolding else lock.readersHolding > 0
  }

  /** A parked call continues once the lock has been handed to it: the body
      runs and the `using` block disposes the call's releaser. */
  function Resume(cfg: Config, lock: RW.LockState, fs: FileSystem, now: int, w: RW.Waiter, op: CacheOp): (r: CallState)
    requires Handed(lock, w, op)
    ensures r.Finished? && r.effect == Apply(cfg, fs, now, op)
    ensures r.lock == RW.Dispose(lock, RW.Releaser(true, NeedsWriter(op)), w)
  {
    Finished(RW.Dispose(lock, RW.Releaser(true, NeedsWriter(op)), w), Apply(cfg, fs, now, op))
  }

  /** `Add`, `Remove`, `Find` and their asynchronous forms: take the lock,
      run the body, release. A call that gets the lock at once holds it and
      finishes exactly as a resumed call would; otherwise it is parked. */
  function RunLocked(cfg: Config, lock: RW.LockState, fs: FileSystem, now: int, w: RW.Waiter, op: CacheOp): (r: CallState)
    ensures r.Parked? ==> r.lock == Acquire(lock, w, op).state
    ensures r.Finished? <==> Acquire(lock, w, op).releaser.Some?
    ensures r.Finished? ==>
      && Handed(Acquire(lock, w, op).state, w, op)
      && r == Resume(cfg, Acquire(lock, w, op).state, fs, now, w, op)
      && r.effect == Apply(cfg, fs, now, op)
  {
    var acquired := Acquire(lock, w, op);
    match acquired.releaser
    case None => Parked(acquired.state)
    case Some(releaser) => Finished(RW.Dispose(acquired.state, releaser, w), Apply(cfg, fs, now, op))
  }

  /** A resumed call keeps the lock consistent and leaves it: a reader
      lowers the count of readers inside; a writer is no longer inside, and
      at most the next queued writer is. */
  lemma ResumeKeepsInv(cfg: Config, lock: RW.LockState, fs: FileSystem, now: int, w: RW.Waiter, op: CacheOp)
    requires RW.Inv(lock) && Handed(lock, w, op)
    ensures var r := Resume(cfg, lock, fs, now, w, op);
      && RW.Inv(r.lock)
      && (!NeedsWriter(op) ==> r.lock.readersHolding == lock.readersHolding - 1)
      && (NeedsWriter(op) && |lock.waitingWriters| > 0 ==>
            r.lock.writersHolding == multiset{lock.waitingWriters[0]})
      && (NeedsWriter(op) && |lock.waitingWriters| == 0 ==> r.lock.writersHolding == multiset{})
  {
    if NeedsWriter(op) {
      RW.WriterReleaseInv(lock, w);
    } else {
      RW.ReaderReleaseInv(lock);
    }
  }

  /** Add and Remove run while their caller is the only lock holder; Find
      runs while no writer holds it; a call that finishes at once leaves
      the lock as it found it. */
  lemma CallsRunUnderLock(cfg: Config, lock: RW.LockState, fs: FileSystem, now: int, w: RW.Waiter, op: CacheOp)
    requires RW.Inv(lock)
    ensures var held := Acquire(lock, w, op);
      held.releaser.Some? ==>
        && (NeedsWriter(op) ==> held.state.writersHolding == multiset{w} && held.state.readersHolding == 0)
        && (!NeedsWriter(op) ==> held.state.writersHolding == multiset{} && held.state.readersHolding > 0)
        && RW.Inv(held.state)
    ensures RunLocked(cfg, lock, fs, now, w, op).Finished? ==>
      RunLocked(cfg, lock, fs, now, w, op).lock.status == lock.status
      && RW.Inv(RunLocked(cfg, lock, fs, now, w, op).lock)
    ensures RunLocked(cfg, lock, fs, now, w, op).Finished? <==>
      (if NeedsWriter(op) then lock.status == 0 else lock.status >= 0 && |lock.waitingWriters| == 0)
  {
    var held := Acquire(lock, w, op);
    if NeedsWriter(op) {
      RW.WriterLockInv(lock, w);
      if held.releaser.Some? {
        RW.WriterReleaseInv(held.state, w);
      }
    } else {
      RW.ReaderLockInv(lock);
      if held.releaser.Some? {
        RW.ReaderReleaseInv(held.state);
      }
    }
  }

  // ---- ReadFromFileAsync ----

  /** How many bytes the i-th `ReadAsync(buffer, offset, count)` delivers:
      none when none were asked for, otherwise between 1 and `count` (the
      file's length does not change while the reader lock is held). */
  function Delivered(chunkSizes: seq<nat>, i: nat, count: nat): (n: nat)
    ensures n <= count
    ensures count > 0 ==> n >= 1
  {
    if count == 0 then 0
    else
      var want := if i < |chunkSizes| then chunkSizes[i] else count;
      if want < 1 then 1 else if want > count then count else want
  }

  /** `ReadFromFileAsync`: fills a buffer of the file's length chunk by
      chunk, keeping `offset == length - count`. */
  method ReadFromFileAsync(content: Bytes, chunkSizes: seq<nat>) returns (buffer: Bytes)
    ensures buffer == content
  {
    buffer := seq(|content|, _ => 0 as byte);
    var offset := 0;
    var count := |buffer|;
    var i := 0;
    while true
      invariant |buffer| == |content|
      invariant 0 <= count <= |content| && offset == |content| - count
      invariant buffer[..offset] == content[..offset]
      decreases count
    {
      var read := Delivered(chunkSizes, i, count);
      buffer := buffer[..offset] + content[offset..offset + read] + buffer[offset + read..];
      count := count - read;
      if count <= 0 {
        break;
      }
      offset := |buffer| - count;
      i := i + 1;
    }
  }

  /** `FindAsync`'s body: the same answer as Find, read chunk by chunk. */
  method FindAsync(cfg: Config, fs: FileSystem, now: int, index: TileIndex, chunkSizes: seq<nat>)
    returns (r: Option<Bytes>)
    ensures r == Find(cfg, fs, now, index)
  {
    var path := FileName(cfg, index);
    if !Exists(cfg, fs, now, path) {
      return None;
    }
    var bytes := ReadFromFileAsync(fs.files[path].data, chunkSizes);
    return Some(bytes);
  }
}
