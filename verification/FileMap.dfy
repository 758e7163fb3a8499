/** NWFileMapBlock: a sparse chain as a map from file offsets to volume blocks (mmap.c). */
module FileMap {
  import opened Words
  import opened ChunkMath
  import opened BitBlocks
  import opened FatTables
  import opened Chains
  import opened VolumeStates
  import opened Suballoc
  import opened Volumes
  import opened TruncSpec
  import opened TruncOutcomes
  import opened Truncation
  import ClusterIo
  import LruStates

  /** SUBALLOC_MAP: where the one or two parts of a record lie. */
  datatype SuballocMap = SuballocMap(Count: nat, Size: nat, clusterNumber: seq<ulong>, clusterOffset: seq<nat>, clusterSize: seq<nat>)

  predicate MapOk(m: SuballocMap) {
    (m.Count == 1 || m.Count == 2) && |m.clusterNumber| == |m.clusterOffset| == |m.clusterSize| == 2
  }

  /** A volume block number and an offset in it; EOF where nothing is mapped, 0 in a hole. */
  type Spot = (ulong, nat)

  const NOWHERE: Spot := (EOF, 0)
  const HOLE: Spot := (0, 0)

  function SpotIn(cluster: ulong, at: nat, bpc: nat): Spot {
    (Wrap(cluster * bpc + at / IO_BLOCK_SIZE), at % IO_BLOCK_SIZE)
  }

  /** Byte r of a record. */
  function TailSpot(m: Option<SuballocMap>, r: nat, bpc: nat): Spot {
    if m == None || !MapOk(m.value) || r >= m.value.Size then NOWHERE
    else if r < m.value.clusterSize[0] then SpotIn(m.value.clusterNumber[0], m.value.clusterOffset[0] + r, bpc)
    else if m.value.Count == 1 then NOWHERE
    else SpotIn(m.value.clusterNumber[1], m.value.clusterOffset[1] + (r - m.value.clusterSize[0]), bpc)
  }

  function Mapped(maps: map<ulong, SuballocMap>, rec: ulong): Option<SuballocMap> {
    if rec in maps then Some(maps[rec]) else None
  }

  /** What the chain says of byte r of cluster index i. */
  ghost function Denotes(fat: Fat, cs: seq<ulong>, tail: ulong, maps: map<ulong, SuballocMap>, i: nat, r: nat, bpc: nat): Spot
    requires InTable(fat, cs)
  {
    var j := Find(fat, cs, i, 0);
    if j < |cs| then SpotIn(cs[j], r, bpc)
    else if Below(fat, cs, i, 0) < |cs| then HOLE
    else if IsSuballoc(tail) && i == TailIndex(fat, cs) then TailSpot(Mapped(maps, tail), r, bpc)
    else NOWHERE
  }

  // ---- where the bytes are ---------------------------------------------------

  type Disk = map<LruStates.Key, LruStates.Block>

  /** Each cluster is bpc blocks of the volume, one after the other. */
  ghost predicate LaidOut(l: Disk, volnum: ulong, bytes: seq<seq<byte>>, bpc: nat) {
    forall c :: 0 <= c < |bytes| ==>
      ChunkMath.Start(c, bpc) + bpc <= TWO_TO_THE_32 && bytes[c] == ClusterIo.Blocks(l, volnum, ChunkMath.Start(c, bpc), bpc)
  }

  /** The spot's block has x at the spot's offset. */
  ghost predicate Holds(l: Disk, volnum: ulong, spot: Spot, x: byte) {
    spot.1 < IO_BLOCK_SIZE && ClusterIo.Contents(l, LruStates.Key(volnum, spot.0))[spot.1] == x
  }

  ghost predicate PartShows(bytes: seq<seq<byte>>, c: ulong, at: nat, x: byte) {
    c < |bytes| && at < |bytes[c]| && bytes[c][at] == x
  }

  /** A record's parts hold its bytes. */
  ghost predicate MapShows(m: SuballocMap, bytes: seq<seq<byte>>, rec: seq<byte>) {
    && (m.Count == 1 || m.Count == 2) && |m.clusterNumber| == |m.clusterOffset| == |m.clusterSize| == 2
    && m.Size == |rec| && (m.Count == 1 ==> |rec| <= m.clusterSize[0])
    && forall r :: 0 <= r < |rec| ==>
      if r < m.clusterSize[0] then PartShows(bytes, m.clusterNumber[0], m.clusterOffset[0] + r, rec[r])
      else PartShows(bytes, m.clusterNumber[1], m.clusterOffset[1] + (r - m.clusterSize[0]), rec[r])
  }

  lemma BlockAndOffset(at: nat, bpc: nat)
    ensures var v, r := at / IO_BLOCK_SIZE, at % IO_BLOCK_SIZE; at == v * IO_BLOCK_SIZE + r && r < IO_BLOCK_SIZE && (at < bpc * IO_BLOCK_SIZE ==> v < bpc)
  {
  }

  /** Byte `at` of a cluster is where SpotIn says, so many bytes into the volume. */
  lemma SpotIsByte(l: Disk, volnum: ulong, bytes: seq<seq<byte>>, bpc: nat, c: ulong, at: nat)
    requires LaidOut(l, volnum, bytes, bpc) && c < |bytes| && at < |bytes[c]|
    ensures Holds(l, volnum, SpotIn(c, at, bpc), bytes[c][at])
    ensures SpotIn(c, at, bpc).0 * IO_BLOCK_SIZE + SpotIn(c, at, bpc).1 == c * bpc * IO_BLOCK_SIZE + at
  {
    var first, v, r := ChunkMath.Start(c, bpc), at / IO_BLOCK_SIZE, at % IO_BLOCK_SIZE;
    assert bytes[c] == ClusterIo.Blocks(l, volnum, first, bpc) && first + bpc <= TWO_TO_THE_32;
    BlockAndOffset(at, bpc);
    hide LaidOut, ClusterIo.Blocks;
    BlockOfCluster(l, volnum, first, bpc, v, r);
    ChunkMath.StartIsProduct(c, bpc);
    SpotOf(c, at, bpc, first, v, r);
  }

  lemma SpotOf(c: ulong, at: nat, bpc: nat, first: nat, v: nat, r: nat)
    requires first == c * bpc && first + v < TWO_TO_THE_32 && v == at / IO_BLOCK_SIZE && r == at % IO_BLOCK_SIZE
    ensures SpotIn(c, at, bpc) == (first + v, r)
  {
  }

  lemma BlockOfCluster(l: Disk, volnum: ulong, first: nat, bpc: nat, v: nat, r: nat)
    requires first + bpc <= TWO_TO_THE_32 && v < bpc && r < IO_BLOCK_SIZE
    ensures v * IO_BLOCK_SIZE + r < bpc * IO_BLOCK_SIZE
    ensures ClusterIo.Contents(l, LruStates.Key(volnum, first + v))[r] == ClusterIo.Blocks(l, volnum, first, bpc)[v * IO_BLOCK_SIZE + r]
  {
    hide ClusterIo.Blocks, ClusterIo.Contents;
    ClusterIo.BlocksAt(l, volnum, first, bpc, v);
    var all := ClusterIo.Blocks(l, volnum, first, bpc);
    assert all[v * IO_BLOCK_SIZE..v * IO_BLOCK_SIZE + IO_BLOCK_SIZE][r] == all[v * IO_BLOCK_SIZE + r];
  }

  /** What a spot is for byte r of cluster index i: the block and offset that hold that byte of the file; block 0 in a hole; -1 past the end. */
  ghost predicate Shows(l: Disk, volnum: ulong, spot: Spot, fat: Fat, bytes: seq<seq<byte>>, cs: seq<ulong>, tail: ulong, rec: seq<byte>, i: nat, r: nat)
    requires InTable(fat, cs)
  {
    if (exists j :: 0 <= j < |cs| && Index(fat, cs, j) == i) || (IsSuballoc(tail) && i == TailIndex(fat, cs) && r < |rec|) then
      Holds(l, volnum, spot, FileByte(fat, bytes, cs, tail, rec, i, r))
    else if exists j :: 0 <= j < |cs| && Index(fat, cs, j) > i then
      spot == (0, 0)
    else
      spot == (EOF, 0)
  }

  /** The parts of the record at the end are known. */
  ghost predicate TailShown(maps: map<ulong, SuballocMap>, bytes: seq<seq<byte>>, tail: ulong, rec: seq<byte>) {
    IsSuballoc(tail) ==> tail in maps && MapShows(maps[tail], bytes, rec)
  }

  lemma TailHolds(l: Disk, volnum: ulong, bytes: seq<seq<byte>>, bpc: nat, m: SuballocMap, rec: seq<byte>, r: nat)
    requires LaidOut(l, volnum, bytes, bpc) && MapShows(m, bytes, rec)
    ensures if r < |rec| then Holds(l, volnum, TailSpot(Some(m), r, bpc), rec[r]) else TailSpot(Some(m), r, bpc) == (EOF, 0)
  {
    hide LaidOut, Holds, SpotIn;
    if r < |rec| {
      var x := rec[r];
      if r < m.clusterSize[0] {
        SpotIsByte(l, volnum, bytes, bpc, m.clusterNumber[0], m.clusterOffset[0] + r);
      } else {
        SpotIsByte(l, volnum, bytes, bpc, m.clusterNumber[1], m.clusterOffset[1] + (r - m.clusterSize[0]));
      }
    }
  }

  /** What the chain says is where the file's bytes are. */
  lemma DenotesBytes(l: Disk, volnum: ulong, fat: Fat, bytes: seq<seq<byte>>, cs: seq<ulong>, tail: ulong, maps: map<ulong, SuballocMap>,
                     rec: seq<byte>, i: nat, r: nat, bpc: nat)
    requires InTable(fat, cs) && Ascending(fat, cs) && LaidOut(l, volnum, bytes, bpc) && TailShown(maps, bytes, tail, rec)
    requires forall c :: c in cs ==> c < |bytes| && r < |bytes[c]|
    ensures Shows(l, volnum, Denotes(fat, cs, tail, maps, i, r, bpc), fat, bytes, cs, tail, rec, i, r)
  {
    hide LaidOut, Holds, SpotIn, TailSpot, MapShows;
    var j := Find(fat, cs, i, 0);
    if j < |cs| {
      assert cs[j] in cs;
      SpotIsByte(l, volnum, bytes, bpc, cs[j], r);
    } else {
      if IsSuballoc(tail) { TailHolds(l, volnum, bytes, bpc, maps[tail], rec, r); }
      var p := Below(fat, cs, i, 0);
      if p < |cs| { assert Index(fat, cs, p) > i && Index(fat, cs, |cs| - 1) >= Index(fat, cs, p); }
    }
  }

  // ---- the walk --------------------------------------------------------------

  /** In the middle of the walk: p clusters passed, all of lower index. */
  lemma WalkMaps(fat: Fat, head: ulong, cs: seq<ulong>, tail: ulong, maps: map<ulong, SuballocMap>, i: nat, r: nat, bpc: nat, p: nat, cluster: ulong)
    requires Walking(fat, head, cs, tail, i, p, cluster) && Ascending(fat, cs) && Live(fat, cluster)
    ensures InTable(fat, cs) && p < |cs| && cs[p] == cluster
    ensures fat[cluster].FATIndex == i ==> Denotes(fat, cs, tail, maps, i, r, bpc) == SpotIn(cluster, r, bpc)
    ensures fat[cluster].FATIndex > i ==> Denotes(fat, cs, tail, maps, i, r, bpc) == HOLE
    ensures fat[cluster].FATIndex < i ==> Walking(fat, head, cs, tail, i, p + 1, fat[cluster].FATCluster)
  {
    hide Walk, SpotIn, TailSpot;
    WalkingMeets(fat, head, cs, tail, i, p, cluster);
    WalkingInTable(fat, head, cs, tail, i, p, cluster);
    assert Index(fat, cs, p) == fat[cluster].FATIndex;
    var j := Find(fat, cs, i, 0);
    if fat[cluster].FATIndex >= i {
      assert forall k :: 0 <= k < p ==> Index(fat, cs, k) < i;
      assert forall k :: p < k < |cs| ==> Index(fat, cs, k) > Index(fat, cs, p);
    }
  }

  lemma WalkEndsMapped(fat: Fat, head: ulong, cs: seq<ulong>, tail: ulong, maps: map<ulong, SuballocMap>, i: nat, r: nat, bpc: nat, p: nat, cluster: ulong)
    requires Walking(fat, head, cs, tail, i, p, cluster) && !Live(fat, cluster)
    ensures InTable(fat, cs) && p == |cs| && cluster == tail
    ensures Denotes(fat, cs, tail, maps, i, r, bpc) ==
      if IsSuballoc(tail) && i == TailIndex(fat, cs) then TailSpot(Mapped(maps, tail), r, bpc) else NOWHERE
  {
    hide Walk, SpotIn, TailSpot;
    WalkingEnds(fat, head, cs, tail, i, p, cluster);
  }

  /** NWFileMapBlock for a file that starts at `head`; maps stands for MapSuballocNode. On a disk whose blocks are the clusters', the block
      and offset it returns hold the file's byte at `offset`. */
  method NWFileMapBlock(v: Volume, head: ulong, offset: ulong, bpc: nat, maps: map<ulong, SuballocMap>, ghost cs: seq<ulong>, ghost tail: ulong)
    returns (spot: Spot, ghost i: ulong, ghost r: ulong)
    requires v.Valid() && v.Readable(cs, tail) && v.store.ClusterSize > 0
    requires Chain(v.Table(), head, cs, tail) && InTable(v.Table(), cs) && Ascending(v.Table(), cs)
    ensures offset == i * v.store.ClusterSize + r && r < v.store.ClusterSize
    ensures spot == NOWHERE || spot == Denotes(v.Table(), cs, tail, maps, i, r, bpc)
    ensures v.fat.Reliable() ==> spot == Denotes(v.Table(), cs, tail, maps, i, r, bpc)
    ensures v.fat.Reliable() && TailShown(maps, v.store.bytes, tail, v.suballoc.Contents(tail)) ==>
      Answers(v, cs, tail, bpc, i, r, spot)
  {
    hide FatTable.Valid, BitBlockList.Valid, SuballocPool.Valid, Volume.Valid, Denotes, Ascending, Chain, TailShown, Answers, SuballocPool.Contents;
    var startIndex, startOffset := Split(offset, v.store.ClusterSize);
    i, r := startIndex, startOffset;
    spot := MapAt(v, head, startIndex, startOffset, bpc, maps, cs, tail);
    if v.fat.Reliable() && TailShown(maps, v.store.bytes, tail, v.suballoc.Contents(tail)) { ItAnswers(v, cs, tail, maps, i, r, bpc); }
  }

  method Split(offset: ulong, clusterSize: nat) returns (i: ulong, r: ulong)
    requires clusterSize > 0
    ensures offset == i * clusterSize + r && r < clusterSize
  {
    QuotientFits(offset, clusterSize);
    i, r := offset / clusterSize, offset % clusterSize;
  }

  /** On every disk laid out so the spot shows byte r of cluster index i. */
  ghost predicate Answers(v: Volume, cs: seq<ulong>, tail: ulong, bpc: nat, i: nat, r: nat, spot: Spot)
    requires v.Valid() && InTable(v.Table(), cs)
    reads v, v.fat, v.store, v.freeList, v.assignedList, v.suballoc
  {
    forall l: Disk, volnum: ulong :: LaidOut(l, volnum, v.store.bytes, bpc) ==>
      Shows(l, volnum, spot, v.Table(), v.store.bytes, cs, tail, v.suballoc.Contents(tail), i, r)
  }

  lemma ItAnswers(v: Volume, cs: seq<ulong>, tail: ulong, maps: map<ulong, SuballocMap>, i: nat, r: nat, bpc: nat)
    requires v.Valid() && InTable(v.Table(), cs) && Ascending(v.Table(), cs) && r < v.store.ClusterSize
    requires TailShown(maps, v.store.bytes, tail, v.suballoc.Contents(tail))
    ensures Answers(v, cs, tail, bpc, i, r, Denotes(v.Table(), cs, tail, maps, i, r, bpc))
  {
    hide FatTable.Valid, BitBlockList.Valid, SuballocPool.Valid, Volume.Valid, Denotes, Ascending, TailShown, LaidOut, Shows, SuballocPool.Contents;
    InClusters(v, cs, r);
    forall l: Disk, volnum: ulong | LaidOut(l, volnum, v.store.bytes, bpc)
      ensures Shows(l, volnum, Denotes(v.Table(), cs, tail, maps, i, r, bpc), v.Table(), v.store.bytes, cs, tail, v.suballoc.Contents(tail), i, r)
    {
      DenotesBytes(l, volnum, v.Table(), v.store.bytes, cs, tail, maps, v.suballoc.Contents(tail), i, r, bpc);
    }
  }

  lemma InClusters(v: Volume, cs: seq<ulong>, r: nat)
    requires v.Valid() && InTable(v.Table(), cs) && r < v.store.ClusterSize
    ensures forall c :: c in cs ==> c < |v.store.bytes| && r < |v.store.bytes[c]|
  {
    hide BitBlockList.Valid, SuballocPool.Valid;
  }

  /** The walk of NWFileMapBlock. */
  method MapAt(v: Volume, head: ulong, startIndex: ulong, startOffset: ulong, bpc: nat, maps: map<ulong, SuballocMap>,
               ghost cs: seq<ulong>, ghost tail: ulong) returns (spot: Spot)
    requires v.Valid() && v.Readable(cs, tail)
    requires Chain(v.Table(), head, cs, tail) && InTable(v.Table(), cs) && Ascending(v.Table(), cs)
    ensures spot == NOWHERE || spot == Denotes(v.Table(), cs, tail, maps, startIndex, startOffset, bpc)
    ensures v.fat.Reliable() ==> spot == Denotes(v.Table(), cs, tail, maps, startIndex, startOffset, bpc)
  {
    hide FatTable.Valid, BitBlockList.Valid, SuballocPool.Valid, Volume.SameCopies, Walk, Walking, Denotes, SpotIn, TailSpot, Ascending,
      Volume.Valid;
    ghost var fat := v.Table();
    WalkingStarts(fat, head, cs, tail, startIndex);
    var cluster: ulong, index: ulong := head, 0;
    ghost var p := 0;
    if IsMarker(cluster) {
      WalkEndsMapped(fat, head, cs, tail, maps, startIndex, startOffset, bpc, p, cluster);
      if cluster == EOF { return NOWHERE; }
      if startIndex != 0 { return NOWHERE; }
      return TailSpot(Mapped(maps, cluster), startOffset, bpc);
    }
    WalkingAt(fat, head, cs, tail, startIndex, p, cluster);
    var e, lru := v.GetFatEntryAndLRU(cluster);
    if e.Some? { index := e.value.FATIndex; }
    while e.Some? && e.value.FATCluster != 0
      invariant Walking(fat, head, cs, tail, startIndex, p, cluster) && p <= |cs| && !IsMarker(cluster)
      invariant e.Some? ==> cluster < v.Mounted && e.value == fat[cluster] && index == e.value.FATIndex
      invariant v.fat.Reliable() ==> (e.Some? <==> cluster < v.Mounted)
      decreases |cs| - p
    {
      WalkMaps(fat, head, cs, tail, maps, startIndex, startOffset, bpc, p, cluster);
      if startIndex < index { return HOLE; }
      if startIndex == index { return SpotIn(cluster, startOffset, bpc); }
      cluster := e.value.FATCluster;
      p := p + 1;
      WalkingAt(fat, head, cs, tail, startIndex, p, cluster);
      if IsMarker(cluster) {
        WalkEndsMapped(fat, head, cs, tail, maps, startIndex, startOffset, bpc, p, cluster);
        WalkingInTable(fat, head, cs, tail, startIndex, p, cluster);
        if cluster == EOF { return NOWHERE; }
        if index + 1 == startIndex { return TailSpot(Mapped(maps, cluster), startOffset, bpc); }
        return NOWHERE;
      }
      e, lru := v.GetFatEntryAndLRU(cluster);
      if e.Some? { index := e.value.FATIndex; }
    }
    if v.fat.Reliable() { WalkEndsMapped(fat, head, cs, tail, maps, startIndex, startOffset, bpc, p, cluster); }
    return NOWHERE;
  }

  /** A truncation without suballocation leaves every mapped cluster below the new size mapped where it was. */
  lemma TruncationKeepsMap(segs: seq<Segment>, s: VolState, t: VolState, bytes: seq<seq<byte>>, f: File, g: Goal, o: Outcome,
                           maps: map<ulong, SuballocMap>, i: nat, r: nat, bpc: nat)
    requires Truncated(segs, s, t, bytes, f, g, o) && !g.sa
    requires Chain(s.fat, f.head, f.cs, f.tail) && Ascending(s.fat, f.cs) && Before(i, r, g.fi, g.off) && Find(s.fat, f.cs, i, 0) < |f.cs|
    ensures |t.fat| == |s.fat| && InTable(t.fat, f.cs[..o.n])
    ensures Denotes(t.fat, f.cs[..o.n], o.link, maps, i, r, bpc) == Denotes(s.fat, f.cs, f.tail, maps, i, r, bpc)
  {
    hide Cut, Walk, SpotIn, TailSpot, Ended, GoodCut;
    var j := Find(s.fat, f.cs, i, 0);
    KeptByIndex(s.fat, f.cs, g.fi, g.off, j);
    if o.n == |f.cs| && o.link == f.tail {
      EndedAtTail(segs, s, f.head, f.cs, f.tail);
      assert f.cs[..o.n] == f.cs;
    } else {
      KeptIndexes(segs, s, f.head, f.cs, f.tail, o.n, o.link);
      assert forall m :: 0 <= m < o.n ==> Index(t.fat, f.cs[..o.n], m) == Index(t.fat, f.cs, m);
    }
  }

  lemma KeptIndexes(segs: seq<Segment>, s: VolState, head: ulong, cs: seq<ulong>, tail: ulong, n: nat, link: ulong)
    requires WellFormed(segs, s) && Chain(s.fat, head, cs, tail) && InBits(s, cs) && n <= |cs|
    ensures var t := Cut(segs, s, cs, n, link);
      |t.fat| == |s.fat| && forall m :: 0 <= m < n ==> Index(t.fat, cs, m) == Index(s.fat, cs, m)
  {
    ChainAcyclic(s.fat, head, cs, tail);
    forall m | 0 <= m < n ensures Index(Cut(segs, s, cs, n, link).fat, cs, m) == Index(s.fat, cs, m) {
      CutAt(segs, s, cs, n, link, cs[m]);
      NotInRest(cs, n, m);
    }
  }

  lemma NotInRest(cs: seq<ulong>, n: nat, m: nat)
    requires NoDup(cs) && m < n <= |cs|
    ensures cs[m] !in cs[n..]
  {
  }
}
