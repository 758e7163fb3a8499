/** ReadClusterWithOffset and WriteClusterWithOffset over the block cache (cluster.c): a flat byte array for each cluster. */
module ClusterIo {
  import opened Words
  import opened ChunkMath
  import opened FatTables
  import opened LruStates
  import opened LruProtocol
  import opened LruCaches

  /** n bytes from `off` on. */
  function Part(a: seq<byte>, off: nat, n: nat): (r: seq<byte>)
    requires off + n <= |a|
    ensures |r| == n
  {
    a[off..off + n]
  }

  lemma PartNone(a: seq<byte>, off: nat)
    requires off <= |a|
    ensures Part(a, off, 0) == []
  {
  }

  lemma PartMore(a: seq<byte>, off: nat, done: nat, n: nat)
    requires off + done + n <= |a|
    ensures Part(a, off, done) + Part(a, off + done, n) == Part(a, off, done + n)
  {
  }

  // ---- blocks in a row ------------------------------------------------------

  function Contents(logical: map<Key, Block>, key: Key): Block {
    if key in logical then logical[key] else seq(IO_BLOCK_SIZE, _ => 0)
  }

  /** The n blocks from `first` on, end to end. */
  ghost function Blocks(logical: map<Key, Block>, volnum: ulong, first: nat, n: nat): (r: seq<byte>)
    requires first + n <= TWO_TO_THE_32
    ensures |r| == n * IO_BLOCK_SIZE
  {
    if n == 0 then [] else Blocks(logical, volnum, first, n - 1) + Contents(logical, Key(volnum, first + n - 1))
  }

  lemma {:induction false} BlocksFrame(l: map<Key, Block>, volnum: ulong, first: nat, n: nat, key: Key, b: Block)
    requires first + n <= TWO_TO_THE_32 && !(key.volnum == volnum && first <= key.block < first + n)
    ensures Blocks(l[key := b], volnum, first, n) == Blocks(l, volnum, first, n)
  {
    if n > 0 { BlocksFrame(l, volnum, first, n - 1, key, b); }
  }

  lemma SpliceFirst(a: seq<byte>, b: seq<byte>, off: nat, piece: seq<byte>)
    requires off + |piece| <= |a|
    ensures Splice(a, off, piece) + b == Splice(a + b, off, piece)
  {
  }

  lemma SpliceSecond(a: seq<byte>, b: seq<byte>, off: nat, piece: seq<byte>)
    requires off + |piece| <= |b|
    ensures a + Splice(b, off, piece) == Splice(a + b, |a| + off, piece)
  {
  }

  /** Two pieces one after the other are one piece. */
  lemma SpliceTwice(a: seq<byte>, off: nat, x: seq<byte>, y: seq<byte>)
    requires off + |x| + |y| <= |a|
    ensures Splice(Splice(a, off, x), off + |x|, y) == Splice(a, off, x + y)
  {
  }

  /** Writing within one block writes the same bytes in the row. */
  lemma {:induction false} BlocksPut(l: map<Key, Block>, volnum: ulong, first: nat, n: nat, v: nat, off: nat, piece: seq<byte>)
    requires first + n <= TWO_TO_THE_32 && v < n && off + |piece| <= IO_BLOCK_SIZE
    ensures var key := Key(volnum, first + v);
      Blocks(l[key := Splice(Contents(l, key), off, piece)], volnum, first, n)
        == Splice(Blocks(l, volnum, first, n), v * IO_BLOCK_SIZE + off, piece)
    decreases n
  {
    hide Splice, Contents;
    var key := Key(volnum, first + v);
    var b := Splice(Contents(l, key), off, piece);
    ContentsPut(l, key, b);
    if v == n - 1 {
      BlocksFrame(l, volnum, first, n - 1, key, b);
      SpliceSecond(Blocks(l, volnum, first, n - 1), Contents(l, key), off, piece);
    } else {
      BlocksPut(l, volnum, first, n - 1, v, off, piece);
      SpliceFirst(Blocks(l, volnum, first, n - 1), Contents(l, Key(volnum, first + n - 1)), v * IO_BLOCK_SIZE + off, piece);
    }
  }

  lemma ContentsPut(l: map<Key, Block>, key: Key, b: Block)
    ensures Contents(l[key := b], key) == b
    ensures forall k :: k != key ==> Contents(l[key := b], k) == Contents(l, k)
  {
  }

  lemma {:induction false} BlocksAt(l: map<Key, Block>, volnum: ulong, first: nat, n: nat, v: nat)
    requires first + n <= TWO_TO_THE_32 && v < n
    ensures v * IO_BLOCK_SIZE + IO_BLOCK_SIZE <= n * IO_BLOCK_SIZE
    ensures Blocks(l, volnum, first, n)[v * IO_BLOCK_SIZE..v * IO_BLOCK_SIZE + IO_BLOCK_SIZE] == Contents(l, Key(volnum, first + v))
    decreases n
  {
    var front, last := Blocks(l, volnum, first, n - 1), Contents(l, Key(volnum, first + n - 1));
    if v < n - 1 {
      BlocksAt(l, volnum, first, n - 1, v);
      assert (front + last)[v * IO_BLOCK_SIZE..v * IO_BLOCK_SIZE + IO_BLOCK_SIZE] == front[v * IO_BLOCK_SIZE..v * IO_BLOCK_SIZE + IO_BLOCK_SIZE];
    }
  }

  lemma BlocksRange(l: map<Key, Block>, volnum: ulong, first: nat, n: nat, v: nat, off: nat, size: nat)
    requires first + n <= TWO_TO_THE_32 && v < n && off + size <= IO_BLOCK_SIZE
    ensures v * IO_BLOCK_SIZE + off + size <= n * IO_BLOCK_SIZE
    ensures Part(Blocks(l, volnum, first, n), v * IO_BLOCK_SIZE + off, size) == Part(Contents(l, Key(volnum, first + v)), off, size)
  {
    hide Blocks, Contents;
    BlocksAt(l, volnum, first, n, v);
    SliceOfSlice(Blocks(l, volnum, first, n), v * IO_BLOCK_SIZE, IO_BLOCK_SIZE, off, size);
  }

  lemma SliceOfSlice(a: seq<byte>, at: nat, n: nat, off: nat, size: nat)
    requires at + n <= |a| && off + size <= n
    ensures a[at..at + n][off..off + size] == a[at + off..at + off + size]
  {
    var x, y := a[at..at + n][off..off + size], a[at + off..at + off + size];
    assert |x| == |y| && forall i :: 0 <= i < |x| ==> x[i] == y[i];
  }

  // ---- one block ------------------------------------------------------------

  /** Nobody is at work on a block he has locked for writing. */
  ghost predicate NobodyWrites(w: World) {
    forall p :: Locks(w, p).1 == 0
  }

  /** Taking a lock to write, writing, and releasing the block dirty. */
  lemma WroteOne(lim: Limits, w: World, v: World, u: World, x: World, p: Ptr, key: Key, fill: bool, h: nat, data: Block)
    requires Acquired(w, v, p, key, fill, true) && v.logical == w.logical && NobodyWrites(w)
    requires Steps(lim, v, LruProtocol.Store(p, data), u) && Steps(lim, u, ReleaseDirty(h, p), x)
    ensures SameLocks(w, x) && x.logical == w.logical[key := data] && x.disk == v.disk && |x.c.lists| == |v.c.lists|
    ensures StocksHeld(lim, w, v, p, h) ==> StocksKept(lim, w, x, h)
  {
    hide LruStates.Placed, LruStates.SearchHash, GetAvailable, Filling, Shelve, Evict, StocksHeld, StocksKept;
    RequeueCounts(lim, v.c, p, h);
    if StocksHeld(lim, w, v, p, h) { ReleaseStocks(lim, w, v, x, p, h); }
    forall q ensures Locks(w, q) == Locks(x, q) {
      if q != p { assert Locks(v, q) == Locks(w, q); }
    }
  }

  lemma ReadOne(lim: Limits, w: World, v: World, x: World, p: Ptr, key: Key, h: nat)
    requires Acquired(w, v, p, key, true, false) && v.logical == w.logical && NobodyWrites(w)
    requires Steps(lim, v, ReleaseClean(h, p), x)
    ensures SameLocks(w, x) && x.logical == w.logical && x.disk == v.disk && |x.c.lists| == |v.c.lists|
    ensures StocksHeld(lim, w, v, p, h) ==> StocksKept(lim, w, x, h)
  {
    hide LruStates.Placed, LruStates.SearchHash, GetAvailable, Filling, Shelve, Evict, StocksHeld, StocksKept;
    RequeueCounts(lim, v.c, p, h);
    if StocksHeld(lim, w, v, p, h) { ReleaseStocks(lim, w, v, x, p, h); }
    forall q ensures Locks(w, q) == Locks(x, q) {
      if q != p { assert Locks(v, q) == Locks(w, q); }
    }
  }

  // ---- clusters -------------------------------------------------------------

  /** The block and those to be read ahead after it exist. */
  ghost predicate AheadOn(disk: map<Key, Block>, key: Key, readAhead: nat) {
    key in disk && AllOn(disk, key, 1, readAhead)
  }

  /** The next piece of a transfer: how far into block vindex it starts, with `done` bytes of it over. */
  ghost predicate InStep(offset: nat, size: nat, vindex: nat, done: nat) {
    done <= size && (done == size || (done == 0 && vindex == offset / IO_BLOCK_SIZE) || vindex * IO_BLOCK_SIZE == offset + done)
  }

  lemma BlockNumber(volnum: ulong, block: ulong, i: nat)
    requires block + i < TWO_TO_THE_32
    ensures BlockAt(volnum, block, i) == Key(volnum, block + i) && Wrap(block) == block
  {
  }

  class CachedClusters {
    const cache: LruCache
    const volnum: ulong
    const BlocksPerCluster: nat
    const MountedVolumeClusters: ulong
    const ClusterSize: nat

    ghost predicate Valid()
      reads this, cache
      ensures Valid() ==> cache.Valid() && NobodyWrites(cache.View()) && ClusterSize == BlocksPerCluster * IO_BLOCK_SIZE
      ensures Valid() ==> Start(MountedVolumeClusters, BlocksPerCluster) <= TWO_TO_THE_32
    {
      && cache.Valid() && NobodyWrites(cache.View()) && ClusterSize == BlocksPerCluster * IO_BLOCK_SIZE
      && Start(MountedVolumeClusters, BlocksPerCluster) <= TWO_TO_THE_32
    }

    constructor (cache: LruCache, volnum: ulong, blocksPerCluster: nat, clusters: ulong)
      requires cache.Valid() && NobodyWrites(cache.View()) && Start(clusters, blocksPerCluster) <= TWO_TO_THE_32
      ensures Valid() && this.cache == cache && this.volnum == volnum && BlocksPerCluster == blocksPerCluster
      ensures MountedVolumeClusters == clusters
    {
      this.cache, this.volnum, BlocksPerCluster, MountedVolumeClusters := cache, volnum, blocksPerCluster, clusters;
      ClusterSize := blocksPerCluster * IO_BLOCK_SIZE;
    }

    /** The flat bytes of a cluster, wherever they are cached. */
    ghost function Flat(cluster: ulong): (r: seq<byte>)
      requires Valid() && cluster < MountedVolumeClusters
      reads this, cache
      ensures |r| == ClusterSize
    {
      FlatIn(cache.Logical, cluster)
    }

    ghost function FlatIn(logical: map<Key, Block>, cluster: ulong): (r: seq<byte>)
      requires Start(MountedVolumeClusters, BlocksPerCluster) <= TWO_TO_THE_32 && cluster < MountedVolumeClusters
      ensures |r| == BlocksPerCluster * IO_BLOCK_SIZE
    {
      StartMonotone(cluster, MountedVolumeClusters, BlocksPerCluster);
      Blocks(logical, volnum, Start(cluster, BlocksPerCluster), BlocksPerCluster)
    }

    /** All blocks of the cluster exist. */
    ghost predicate OnDisk(disk: map<Key, Block>, cluster: ulong) {
      AllOn(disk, Key(volnum, Wrap(Start(cluster, BlocksPerCluster))), 0, BlocksPerCluster)
    }

    /** A transfer through handle h cannot fail: no I/O errors, a block to be had for the handle, and a second round to free it. */
    ghost predicate Ready(h: nat, cluster: ulong, patience: nat)
      reads cache
    {
      cache.reliable && patience >= 2 && Supplied(cache.lim, cache.View(), h) && OnDisk(cache.Disk, cluster)
    }

    /** Block vindex of the cluster, and what follows it. */
    lemma BlockOnDisk(disk: map<Key, Block>, now: map<Key, Block>, cluster: ulong, vindex: nat)
      requires Start(MountedVolumeClusters, BlocksPerCluster) <= TWO_TO_THE_32 && cluster < MountedVolumeClusters && vindex < BlocksPerCluster
      requires OnDisk(disk, cluster) && now.Keys == disk.Keys
      ensures Start(cluster, BlocksPerCluster) + vindex < TWO_TO_THE_32
      ensures AheadOn(now, Key(volnum, Start(cluster, BlocksPerCluster) + vindex), BlocksPerCluster - vindex)
      ensures AheadOn(now, Key(volnum, Start(cluster, BlocksPerCluster) + vindex), 1)
    {
      StartMonotone(cluster, MountedVolumeClusters, BlocksPerCluster);
      var first: ulong, at: ulong := Start(cluster, BlocksPerCluster), Start(cluster, BlocksPerCluster) + vindex;
      hide Start, BlockAt, Wrap;
      BlockNumber(volnum, first, 0);
      forall i: nat | i < BlocksPerCluster - vindex ensures BlockAt(volnum, at, i) in now {
        BlockNumber(volnum, at, i);
        BlockNumber(volnum, first, vindex + i);
        assert BlockAt(volnum, first, vindex + i) in disk.Keys;
      }
      BlockNumber(volnum, at, 0);
    }

    /** A piece written to block vindex of a cluster lands there and in no other cluster. */
    lemma PieceLands(l: map<Key, Block>, cluster: ulong, vindex: nat, voffset: nat, piece: seq<byte>)
      requires Start(MountedVolumeClusters, BlocksPerCluster) <= TWO_TO_THE_32
      requires cluster < MountedVolumeClusters && vindex < BlocksPerCluster && voffset + |piece| <= IO_BLOCK_SIZE
      ensures Start(cluster, BlocksPerCluster) + vindex < TWO_TO_THE_32
      ensures var key := Key(volnum, Start(cluster, BlocksPerCluster) + vindex);
        var now := l[key := Splice(Contents(l, key), voffset, piece)];
        && FlatIn(now, cluster) == Splice(FlatIn(l, cluster), vindex * IO_BLOCK_SIZE + voffset, piece)
        && forall d: ulong :: d < MountedVolumeClusters && d != cluster ==> FlatIn(now, d) == FlatIn(l, d)
    {
      hide Splice, Contents, Blocks;
      StartMonotone(cluster, MountedVolumeClusters, BlocksPerCluster);
      var first := Start(cluster, BlocksPerCluster);
      var key := Key(volnum, first + vindex);
      BlocksPut(l, volnum, first, BlocksPerCluster, vindex, voffset, piece);
      forall d: ulong | d < MountedVolumeClusters && d != cluster
        ensures FlatIn(l[key := Splice(Contents(l, key), voffset, piece)], d) == FlatIn(l, d)
      {
        StartMonotone(d, MountedVolumeClusters, BlocksPerCluster);
        if d < cluster { StartMonotone(d, cluster, BlocksPerCluster); } else { StartMonotone(cluster, d, BlocksPerCluster); }
        BlocksFrame(l, volnum, Start(d, BlocksPerCluster), BlocksPerCluster, key, Splice(Contents(l, key), voffset, piece));
      }
    }

    /** One block of a write: read in first unless all of it is overwritten. */
    method WriteBlock(h: nat, key: Key, voffset: nat, piece: seq<byte>, patience: nat) returns (ok: bool)
      requires cache.Valid() && NobodyWrites(cache.View()) && h < |cache.LRUList| && voffset + |piece| <= IO_BLOCK_SIZE
      modifies cache
      ensures cache.Valid() && SameLocks(old(cache.View()), cache.View()) && |cache.LRUList| == old(|cache.LRUList|)
      ensures cache.Disk.Keys == old(cache.Disk.Keys)
      ensures patience >= 2 && cache.reliable && key in old(cache.Disk) && Supplied(cache.lim, old(cache.View()), h) ==> ok
      ensures cache.reliable && key in old(cache.Disk) ==> StocksKept(cache.lim, old(cache.View()), cache.View(), h)
      ensures cache.Logical == if ok then old(cache.Logical)[key := Splice(Contents(old(cache.Logical), key), voffset, piece)] else old(cache.Logical)
    {
      hide Inv, Locks, NobodyWrites, SameLocks, Settled, Reaches, Steps, LruCache.Valid, LruCache.Steady, Supplied, StocksKept, StocksHeld;
      ghost var w := cache.View();
      var whole := voffset == 0 && |piece| == IO_BLOCK_SIZE;
      var lru := cache.ReadLRU(h, key, !whole, 1, true, patience);
      if lru == None { return false; }
      var p := lru.value;
      ghost var v := cache.View();
      Usable(w, v, p, key, !whole);
      var data: Block := Splice(cache.Elems[p].buffer, voffset, piece);
      cache.Store(p, data);
      ghost var u := cache.View();
      StoredHere(cache.lim, v, u, p, data);
      cache.ReleaseDirtyLRU(h, p);
      WroteOne(cache.lim, w, v, u, cache.View(), p, key, !whole, h, data);
      if whole { assert data == Splice(Contents(w.logical, key), voffset, piece); }
      return true;
    }

    method ReadBlock(h: nat, key: Key, voffset: nat, vsize: nat, readAhead: nat, patience: nat) returns (data: Option<seq<byte>>)
      requires cache.Valid() && NobodyWrites(cache.View()) && h < |cache.LRUList| && voffset + vsize <= IO_BLOCK_SIZE
      modifies cache
      ensures cache.Valid() && SameLocks(old(cache.View()), cache.View()) && |cache.LRUList| == old(|cache.LRUList|)
      ensures cache.Logical == old(cache.Logical) && cache.Disk.Keys == old(cache.Disk.Keys)
      ensures cache.reliable && AheadOn(old(cache.Disk), key, readAhead) ==> StocksKept(cache.lim, old(cache.View()), cache.View(), h)
      ensures patience >= 2 && cache.reliable && AheadOn(old(cache.Disk), key, readAhead) && Supplied(cache.lim, old(cache.View()), h) ==> data.Some?
      ensures data.Some? ==> data.value == Part(Contents(cache.Logical, key), voffset, vsize)
    {
      hide Inv, Locks, NobodyWrites, SameLocks, Settled, Reaches, Steps, LruCache.Valid, LruCache.Steady, Supplied, StocksKept, StocksHeld, AllOn;
      ghost var w := cache.View();
      var lru := cache.ReadLRU(h, key, true, readAhead, false, patience);
      if lru == None { return None; }
      var p := lru.value;
      ghost var v := cache.View();
      Readable(w, v, p, key);
      data := Some(Part(cache.Elems[p].buffer, voffset, vsize));
      cache.ReleaseLRU(h, p);
      ReadOne(cache.lim, w, v, cache.View(), p, key, h);
    }

    /** What the transfer so far has kept: locks, the number of handles, what is on disk, and what blocks the handles can have. */
    ghost predicate Since(w: World, h: nat, cluster: ulong)
      reads cache
    {
      && cache.Valid() && NobodyWrites(cache.View()) && SameLocks(w, cache.View()) && |cache.LRUList| == |w.c.lists|
      && cache.Disk.Keys == w.disk.Keys && (cache.reliable && OnDisk(w.disk, cluster) ==> StocksKept(cache.lim, w, cache.View(), h))
    }

    /** Block vindex of the cluster gets its piece. */
    method WritePiece(h: nat, cluster: ulong, vindex: nat, voffset: nat, piece: seq<byte>, patience: nat, ghost w: World) returns (ok: bool)
      requires Since(w, h, cluster) && NobodyWrites(w) && h < |cache.LRUList| && Start(MountedVolumeClusters, BlocksPerCluster) <= TWO_TO_THE_32
      requires cluster < MountedVolumeClusters && vindex < BlocksPerCluster && voffset + |piece| <= IO_BLOCK_SIZE
      modifies cache
      ensures Since(w, h, cluster)
      ensures patience >= 2 && cache.reliable && OnDisk(w.disk, cluster) && Supplied(cache.lim, w, h) ==> ok
      ensures vindex * IO_BLOCK_SIZE + IO_BLOCK_SIZE <= BlocksPerCluster * IO_BLOCK_SIZE
      ensures var was := FlatIn(old(cache.Logical), cluster);
        FlatIn(cache.Logical, cluster) == if ok then Splice(was, vindex * IO_BLOCK_SIZE + voffset, piece) else was
      ensures forall d: ulong :: d < MountedVolumeClusters && d != cluster ==> FlatIn(cache.Logical, d) == FlatIn(old(cache.Logical), d)
    {
      hide Inv, Locks, NobodyWrites, SameLocks, Settled, LruCache.Valid, LruCache.Steady, Splice, Blocks, Contents, Supplied, StocksKept, AllOn,
        CachedClusters.OnDisk, CachedClusters.FlatIn;
      ghost var v := cache.View();
      StartIsProduct(cluster, BlocksPerCluster);
      PieceLands(v.logical, cluster, vindex, voffset, piece);
      if cache.reliable && OnDisk(w.disk, cluster) {
        BlockOnDisk(w.disk, cache.Disk, cluster, vindex);
        StocksApply(cache.lim, w, v, h);
      }
      ok := WriteBlock(h, Key(volnum, cluster * BlocksPerCluster + vindex), voffset, piece, patience);
      if cache.reliable && OnDisk(w.disk, cluster) { StocksTwice(cache.lim, w, v, cache.View(), h); }
      LocksAgain(w, v, cache.View());
    }

    /** Part of block vindex of the cluster. */
    method ReadPiece(h: nat, cluster: ulong, vindex: nat, voffset: nat, vsize: nat, ahead: nat, patience: nat, ghost w: World) returns (data: Option<seq<byte>>)
      requires Since(w, h, cluster) && NobodyWrites(w) && h < |cache.LRUList| && Start(MountedVolumeClusters, BlocksPerCluster) <= TWO_TO_THE_32
      requires cluster < MountedVolumeClusters && vindex < BlocksPerCluster && voffset + vsize <= IO_BLOCK_SIZE
      requires ahead == 1 || ahead == BlocksPerCluster - vindex
      modifies cache
      ensures Since(w, h, cluster) && cache.Logical == old(cache.Logical)
      ensures patience >= 2 && cache.reliable && OnDisk(w.disk, cluster) && Supplied(cache.lim, w, h) ==> data.Some?
      ensures vindex * IO_BLOCK_SIZE + voffset + vsize <= BlocksPerCluster * IO_BLOCK_SIZE
      ensures data.Some? ==> data.value == Part(FlatIn(cache.Logical, cluster), vindex * IO_BLOCK_SIZE + voffset, vsize)
    {
      hide Inv, Locks, NobodyWrites, SameLocks, Settled, LruCache.Valid, LruCache.Steady, Blocks, Contents, Supplied, StocksKept, AllOn, AheadOn,
        CachedClusters.OnDisk, Part;
      ghost var v := cache.View();
      StartIsProduct(cluster, BlocksPerCluster);
      StartMonotone(cluster, MountedVolumeClusters, BlocksPerCluster);
      BlocksRange(v.logical, volnum, Start(cluster, BlocksPerCluster), BlocksPerCluster, vindex, voffset, vsize);
      if cache.reliable && OnDisk(w.disk, cluster) {
        BlockOnDisk(w.disk, cache.Disk, cluster, vindex);
        StocksApply(cache.lim, w, v, h);
      }
      data := ReadBlock(h, Key(volnum, cluster * BlocksPerCluster + vindex), voffset, vsize, ahead, patience);
      if cache.reliable && OnDisk(w.disk, cluster) { StocksTwice(cache.lim, w, v, cache.View(), h); }
      LocksAgain(w, v, cache.View());
    }

    /** WriteClusterWithOffset: the bytes land in the flat cluster, block by block; an error leaves a prefix. */
    method WriteClusterWithOffset(h: nat, cluster: ulong, offset: nat, buf: seq<byte>, patience: nat) returns (written: nat, code: ulong)
      requires Valid() && h < |cache.LRUList| && offset + |buf| < TWO_TO_THE_32
      modifies cache
      ensures Valid() && SameLocks(old(cache.View()), cache.View()) && |cache.LRUList| == old(|cache.LRUList|)
      ensures cluster >= MountedVolumeClusters || offset + |buf| > ClusterSize ==>
        written == 0 && code == INVALID_PARAMETER && cache.Logical == old(cache.Logical)
      ensures cluster < MountedVolumeClusters && offset + |buf| <= ClusterSize ==>
        && written <= |buf| && (code == 0 <==> written == |buf|)
        && Flat(cluster) == Splice(old(Flat(cluster)), offset, buf[..written])
        && (written == |buf| || written == 0 || OnBoundary(offset + written))
      ensures cache.Disk.Keys == old(cache.Disk.Keys)
      ensures cluster < MountedVolumeClusters && cache.reliable && OnDisk(old(cache.Disk), cluster) ==>
        StocksKept(cache.lim, old(cache.View()), cache.View(), h)
      ensures cluster < MountedVolumeClusters && offset + |buf| <= ClusterSize && old(Ready(h, cluster, patience)) ==> code == 0
      ensures forall d: ulong :: d < MountedVolumeClusters && d != cluster ==> Flat(d) == old(Flat(d))
    {
      hide Inv, Locks, NobodyWrites, SameLocks, Settled, LruCache.Valid, LruCache.Steady, InStep, Splice, Blocks, Contents, OnBoundary,
        Supplied, StocksKept, AllOn, CachedClusters.OnDisk;
      StocksSelf(cache.lim, cache.View(), h);
      if cluster >= MountedVolumeClusters || offset + |buf| > ClusterSize {
        SameLocksSelf(cache.View());
        return 0, INVALID_PARAMETER;
      }
      ghost var w := cache.View();
      var startIndex, startOffset := offset / IO_BLOCK_SIZE, offset % IO_BLOCK_SIZE;
      var vindex := startIndex;
      written := 0;
      StepStarts(offset, |buf|);
      SpliceNothing(FlatIn(w.logical, cluster), offset, buf);
      SameLocksSelf(w);
      while vindex < BlocksPerCluster && written < |buf|
        invariant Since(w, h, cluster) && InStep(offset, |buf|, vindex, written) && written <= |buf|
        invariant FlatIn(cache.Logical, cluster) == Splice(FlatIn(w.logical, cluster), offset, buf[..written])
        invariant forall d: ulong :: d < MountedVolumeClusters && d != cluster ==> FlatIn(cache.Logical, d) == FlatIn(w.logical, d)
      {
        var voffset := if vindex == startIndex then startOffset else 0;
        var vsize := if |buf| - written > IO_BLOCK_SIZE - voffset then IO_BLOCK_SIZE - voffset else |buf| - written;
        StepFits(offset, |buf|, vindex, written, voffset, vsize);
        var ok := WritePiece(h, cluster, vindex, voffset, buf[written..written + vsize], patience, w);
        if !ok {
          StepBoundary(offset, |buf|, vindex, written);
          return written, DISK_IO_ERROR;
        }
        SpliceMore(FlatIn(w.logical, cluster), offset, buf, written, vsize);
        vindex, written := vindex + 1, written + vsize;
      }
      StepEnds(offset, |buf|, vindex, written, BlocksPerCluster);
      code := 0;
    }

    /** ReadClusterWithOffset: the flat bytes, or a prefix of them if a block cannot be had. */
    method ReadClusterWithOffset(h: nat, cluster: ulong, offset: nat, size: nat, patience: nat) returns (buf: seq<byte>, code: ulong)
      requires Valid() && h < |cache.LRUList| && offset + size < TWO_TO_THE_32
      modifies cache
      ensures Valid() && SameLocks(old(cache.View()), cache.View()) && |cache.LRUList| == old(|cache.LRUList|)
      ensures cache.Logical == old(cache.Logical) && cache.Disk.Keys == old(cache.Disk.Keys)
      ensures cluster < MountedVolumeClusters && cache.reliable && OnDisk(old(cache.Disk), cluster) ==>
        StocksKept(cache.lim, old(cache.View()), cache.View(), h)
      ensures cluster < MountedVolumeClusters && offset + size <= ClusterSize && old(Ready(h, cluster, patience)) ==> code == 0
      ensures cluster >= MountedVolumeClusters || offset + size > ClusterSize ==> buf == [] && code == INVALID_PARAMETER
      ensures cluster < MountedVolumeClusters && offset + size <= ClusterSize ==>
        && |buf| <= size && (code == 0 <==> |buf| == size)
        && buf == Part(Flat(cluster), offset, |buf|)
    {
      hide Inv, Locks, NobodyWrites, SameLocks, Settled, LruCache.Valid, LruCache.Steady, InStep, Blocks, Contents, Part,
        Supplied, StocksKept, AllOn, CachedClusters.OnDisk;
      StocksSelf(cache.lim, cache.View(), h);
      if cluster >= MountedVolumeClusters || offset + size > ClusterSize {
        SameLocksSelf(cache.View());
        return [], INVALID_PARAMETER;
      }
      ghost var w := cache.View();
      ghost var flat := FlatIn(w.logical, cluster);
      var startIndex, startOffset := offset / IO_BLOCK_SIZE, offset % IO_BLOCK_SIZE;
      var vindex := startIndex;
      buf := [];
      StepStarts(offset, size);
      SameLocksSelf(w);
      PartNone(flat, offset);
      while vindex < BlocksPerCluster && |buf| < size
        invariant Since(w, h, cluster) && InStep(offset, size, vindex, |buf|) && |buf| <= size && cache.Logical == w.logical
        invariant buf == Part(flat, offset, |buf|)
      {
        var voffset := if vindex == startIndex then startOffset else 0;
        var vsize := if size - |buf| > IO_BLOCK_SIZE - voffset then IO_BLOCK_SIZE - voffset else size - |buf|;
        StepFits(offset, size, vindex, |buf|, voffset, vsize);
        var data := ReadPiece(h, cluster, vindex, voffset, vsize, if vindex == startIndex then BlocksPerCluster - vindex else 1, patience, w);
        if data == None { return buf, DISK_IO_ERROR; }
        PartMore(flat, offset, |buf|, vsize);
        buf := buf + data.value;
        vindex := vindex + 1;
      }
      StepEnds(offset, size, vindex, |buf|, BlocksPerCluster);
      code := 0;
    }
  }

  /** What was written through one handle is read through any other, whatever the cache did in between. */
  method WriteThenRead(c: CachedClusters, h: nat, g: nat, cluster: ulong, offset: nat, data: seq<byte>, from: nat, size: nat, patience: nat)
    returns (written: nat, wcode: ulong, buf: seq<byte>, rcode: ulong)
    requires c.Valid() && h < |c.cache.LRUList| && g < |c.cache.LRUList|
    requires cluster < c.MountedVolumeClusters && offset + |data| <= c.ClusterSize < TWO_TO_THE_32 && from + size <= c.ClusterSize
    modifies c.cache
    ensures old(c.Ready(h, cluster, patience) && (g == h || Stocked(c.cache.View(), g))) ==> wcode == 0 && rcode == 0
    ensures wcode == 0 && rcode == 0 ==> buf == Part(Splice(old(c.Flat(cluster)), offset, data), from, size)
  {
    hide Stocked, Roomy, Part, Splice, LruCache.Valid;
    ghost var w := c.cache.View();
    written, wcode := c.WriteClusterWithOffset(h, cluster, offset, data, patience);
    assert written == |data| ==> data[..written] == data;
    if c.cache.reliable && c.OnDisk(w.disk, cluster) { StocksApply(c.cache.lim, w, c.cache.View(), h); }
    buf, rcode := c.ReadClusterWithOffset(g, cluster, from, size, patience);
  }

  /** The first transfers of an empty cache succeed if both limits leave room for a block of the handle and there is memory for it. */
  method FirstTransfers(lim: Limits, buckets: nat, disk: map<Key, Block>, volnum: ulong, blocksPerCluster: nat, clusters: ulong,
                        h: nat, cluster: ulong, offset: nat, data: seq<byte>)
    returns (c: CachedClusters, wcode: ulong, buf: seq<byte>, rcode: ulong)
    requires buckets > 0 && Start(clusters, blocksPerCluster) <= TWO_TO_THE_32 && h < |lim.max| && cluster < clusters
    requires offset + |data| <= blocksPerCluster * IO_BLOCK_SIZE < TWO_TO_THE_32
    requires lim.ample && lim.max[h] > 0 && lim.total > 0
    requires AllOn(disk, Key(volnum, Wrap(Start(cluster, blocksPerCluster))), 0, blocksPerCluster)
    ensures wcode == 0 && rcode == 0 && buf == data
  {
    hide Stocked, Roomy, Splice, LruCache.Valid, AllOn, Fresh, LruCache.Steady, Inv, Start;
    var cache := new LruCache(lim, buckets, disk, true);
    c := new CachedClusters(cache, volnum, blocksPerCluster, clusters);
    ghost var flat := c.Flat(cluster);
    var written;
    written, wcode, buf, rcode := WriteThenRead(c, h, h, cluster, offset, data, offset, |data|, 2);
    PartOfSplice(flat, offset, data);
  }

  lemma PartOfSplice(a: seq<byte>, off: nat, piece: seq<byte>)
    requires off + |piece| <= |a|
    ensures |Splice(a, off, piece)| == |a| && Part(Splice(a, off, piece), off, |piece|) == piece
  {
  }

  lemma StoredHere(lim: Limits, v: World, u: World, p: Ptr, data: Block)
    requires Steps(lim, v, LruProtocol.Store(p, data), u)
    ensures Here(u, p) && u.c.elems[p].writers == v.c.elems[p].writers && u.c.elems[p].lockCount == v.c.elems[p].lockCount
  {
    hide LruStates.Placed;
  }

  lemma Usable(w: World, v: World, p: Ptr, key: Key, fill: bool)
    requires Acquired(w, v, p, key, fill, true) && NobodyWrites(w)
    ensures Here(v, p) && v.c.elems[p].key == key && v.c.elems[p].writers > 0 && v.c.elems[p].lockCount > 0
    ensures fill ==> v.c.elems[p].buffer == Contents(v.logical, key)
  {
  }

  lemma Readable(w: World, v: World, p: Ptr, key: Key)
    requires Acquired(w, v, p, key, true, false) && NobodyWrites(w)
    ensures Here(v, p) && v.c.elems[p].key == key && v.c.elems[p].lockCount > v.c.elems[p].writers == 0
    ensures v.c.elems[p].buffer == Contents(v.logical, key)
  {
    assert Locks(v, p).1 == 0;
  }

  lemma SameLocksSelf(w: World)
    ensures SameLocks(w, w)
  {
  }

  lemma LocksAgain(w: World, v: World, u: World)
    requires SameLocks(w, v) && SameLocks(v, u) && NobodyWrites(w)
    ensures SameLocks(w, u) && NobodyWrites(u)
  {
    forall p ensures Locks(u, p) == Locks(w, p) { assert Locks(v, p) == Locks(w, p); }
  }

  lemma SpliceNothing(a: seq<byte>, off: nat, buf: seq<byte>)
    requires off <= |a|
    ensures Splice(a, off, buf[..0]) == a
  {
  }

  lemma SpliceMore(a: seq<byte>, off: nat, buf: seq<byte>, done: nat, n: nat)
    requires done + n <= |buf| && off + |buf| <= |a|
    ensures Splice(Splice(a, off, buf[..done]), off + done, buf[done..done + n]) == Splice(a, off, buf[..done + n])
  {
    SpliceTwice(a, off, buf[..done], buf[done..done + n]);
    assert buf[..done] + buf[done..done + n] == buf[..done + n];
  }

  // ---- the arithmetic of a transfer -----------------------------------------

  lemma StepStarts(offset: nat, size: nat)
    ensures InStep(offset, size, offset / IO_BLOCK_SIZE, 0)
  {
  }

  /** Where the piece starts and that it stays in its block; what comes next is in step again. */
  lemma StepFits(offset: nat, size: nat, vindex: nat, done: nat, voffset: nat, vsize: nat)
    requires InStep(offset, size, vindex, done) && done < size
    requires voffset == if vindex == offset / IO_BLOCK_SIZE then offset % IO_BLOCK_SIZE else 0
    requires vsize == if size - done > IO_BLOCK_SIZE - voffset then IO_BLOCK_SIZE - voffset else size - done
    ensures vindex * IO_BLOCK_SIZE + voffset == offset + done && voffset + vsize <= IO_BLOCK_SIZE && 0 < vsize && done + vsize <= size
    ensures InStep(offset, size, vindex + 1, done + vsize)
  {
  }

  /** A transfer that stops short stops at a block boundary. */
  lemma StepBoundary(offset: nat, size: nat, vindex: nat, done: nat)
    requires InStep(offset, size, vindex, done)
    ensures done == size || done == 0 || OnBoundary(offset + done)
  {
  }

  lemma StepEnds(offset: nat, size: nat, vindex: nat, done: nat, blocks: nat)
    requires InStep(offset, size, vindex, done) && offset + size <= blocks * IO_BLOCK_SIZE
    requires vindex >= blocks || done >= size
    ensures done == size
  {
  }
}
