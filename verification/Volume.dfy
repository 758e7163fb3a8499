/** The volume: allocation, freeing, relinking and the mount-time mark and sweep (cluster.c, fat.c). */
module Volumes {
  import opened Words
  import opened BitBlocks
  import opened ChunkMath
  import opened FatTables
  import opened Chains
  import opened VolumeStates
  import opened Suballoc

  /** Cluster c holds none of the FAT itself. */
  ghost predicate OutsideFat(lay: seq<MirrorLru>, c: int) {
    forall b :: 0 <= b < |lay| ==> c != lay[b].Cluster1 && c != lay[b].Cluster2
  }

  /** Clusters outside the FAT hold the same bytes. */
  ghost predicate SameData(lay: seq<MirrorLru>, was: seq<seq<byte>>, now: seq<seq<byte>>) {
    |was| == |now| && forall c :: 0 <= c < |was| && OutsideFat(lay, c) ==> was[c] == now[c]
  }

  /** As SameData, clusters of K aside. */
  ghost predicate SameDataBut(lay: seq<MirrorLru>, K: set<ulong>, was: seq<seq<byte>>, now: seq<seq<byte>>) {
    |was| == |now| && forall c :: 0 <= c < |was| && OutsideFat(lay, c) && c !in K ==> was[c] == now[c]
  }

  lemma SameDataTwiceBut(lay: seq<MirrorLru>, K: set<ulong>, L: set<ulong>, a: seq<seq<byte>>, b: seq<seq<byte>>, c: seq<seq<byte>>)
    requires SameDataBut(lay, K, a, b) && SameDataBut(lay, L, b, c) && K <= L
    ensures SameDataBut(lay, L, a, c)
  {
  }

  lemma SameDataTwice(lay: seq<MirrorLru>, a: seq<seq<byte>>, b: seq<seq<byte>>, c: seq<seq<byte>>)
    requires SameData(lay, a, b) && SameData(lay, b, c)
    ensures SameData(lay, a, c)
  {
  }

  /** All entries but c's are the same. */
  ghost predicate SameBut(a: Fat, b: Fat, c: ulong) {
    |a| == |b| && forall d :: 0 <= d < |a| && d != c ==> a[d] == b[d]
  }

  /** Both FAT copies, the bitmap, and the clusters that hold suballocation records. */
  datatype Shot = Shot(flat: Fat, mirror: Fat, bits: seq<bool>, records: set<ulong>)

  /** Allocated, and no cluster of a record. */
  ghost predicate Foreign(a: Shot, c: ulong) {
    c < |a.bits| && c < |a.flat| && c < |a.mirror| && a.bits[c] && c !in a.records
  }

  /** What belongs to neither the records nor the free space keeps its entries and stays so. */
  ghost predicate OthersKept(a: Shot, b: Shot) {
    && |a.flat| == |b.flat| && |a.mirror| == |b.mirror| && |a.bits| == |b.bits| && a.records <= b.records
    && (forall c :: 0 <= c < |a.bits| && a.bits[c] ==> b.bits[c])
    && forall c: ulong :: Foreign(a, c) ==> Foreign(b, c) && a.flat[c] == b.flat[c] && a.mirror[c] == b.mirror[c]
  }

  /** The clusters of the records and of the FAT are allocated, and none is both. */
  ghost predicate Housed(lay: seq<MirrorLru>, bits: seq<bool>, records: set<ulong>) {
    && (forall c :: c in records ==> c < |bits| && bits[c] && OutsideFat(lay, c))
    && (forall b :: 0 <= b < |lay| ==> lay[b].Cluster1 < |bits| && lay[b].Cluster2 < |bits|)
    && (forall b :: 0 <= b < |lay| ==> bits[lay[b].Cluster1] && bits[lay[b].Cluster2])
  }

  lemma StillHoused(lay: seq<MirrorLru>, a: Shot, b: Shot)
    requires Housed(lay, a.bits, a.records) && OthersKept(a, b) && b.records == a.records
    ensures Housed(lay, b.bits, b.records)
  {
  }

  lemma OthersKeptTwice(a: Shot, b: Shot, c: Shot)
    requires OthersKept(a, b) && OthersKept(b, c)
    ensures OthersKept(a, c)
  {
  }

  lemma NothingTaken(a: Shot)
    ensures OthersKept(a, a)
  {
  }

  lemma PickKeepsOthers(a: Shot, b: Shot, c: ulong)
    requires c < |a.bits| && !a.bits[c] && b.bits == a.bits[c := true] && b.records == a.records
    requires SameBut(a.flat, b.flat, c) && SameBut(a.mirror, b.mirror, c)
    ensures OthersKept(a, b)
  {
  }

  /** A cluster that was free joins the records, and one of theirs is relinked. */
  lemma JoinKeepsOthers(lay: seq<MirrorLru>, a: Shot, m: Shot, b: Shot, c: ulong, prev: Option<ulong>)
    requires OthersKept(a, m) && Housed(lay, m.bits, m.records) && m.records == a.records && Housed(lay, a.bits, a.records)
    requires c < |a.bits| && !a.bits[c] && m.bits[c] && b.bits == m.bits && b.records == a.records + {c}
    requires prev.Some? ==> prev.value in a.records && SameBut(m.flat, b.flat, prev.value) && SameBut(m.mirror, b.mirror, prev.value)
    requires prev == None ==> b.flat == m.flat && b.mirror == m.mirror
    ensures OthersKept(a, b) && Housed(lay, b.bits, b.records)
  {
  }

  lemma FreeIsApart(lay: seq<MirrorLru>, bits: seq<bool>, records: set<ulong>, c: ulong)
    requires Housed(lay, bits, records) && c < |bits| && !bits[c]
    ensures c !in records
  {
  }

  lemma ButStays(a: Fat, b: Fat, c: ulong, d: ulong)
    requires SameBut(a, b, c) && c != d && d < |a|
    ensures |a| == |b| && a[d] == b[d]
  {
  }

  lemma OthersJoin(a: Shot, b: Shot)
    requires OthersKept(a, b)
    ensures a.records <= b.records
  {
  }

  lemma SameDataButSelf(lay: seq<MirrorLru>, K: set<ulong>, a: seq<seq<byte>>)
    ensures SameDataBut(lay, K, a, a)
  {
  }

  class Volume {
    const fat: FatTable
    const store: ClusterStore
    const freeList: BitBlockList
    const assignedList: BitBlockList
    const suballoc: SuballocPool
    const segments: seq<Segment>
    const Mounted: ulong  // MountedVolumeClusters

    var VolumeFreeClusters: nat
    var VolumeAllocatedClusters: nat
    var LastAllocatedIndex: seq<ulong>
    var AllocSegment: nat

    ghost predicate Valid()
      reads this, fat, store, freeList, assignedList, suballoc
      ensures Valid() ==> fat.Valid() && freeList.Valid() && assignedList.Valid() && suballoc.Valid() && freeList != assignedList
      ensures Valid() ==> fat.store == store && store.MountedVolumeClusters == Mounted <= |fat.Flat| && Mounted <= MARKER
      ensures Valid() ==> |freeList.Bits| == |assignedList.Bits| == Mounted
      ensures Valid() ==> |LastAllocatedIndex| == |segments| && AllocSegment < |segments|
      ensures Valid() ==> suballoc.ClusterSize == store.ClusterSize
    {
      && fat.store == store && fat.Valid() && store.MountedVolumeClusters == Mounted <= |fat.Flat| && Mounted <= MARKER
      && freeList.Valid() && assignedList.Valid() && freeList != assignedList && suballoc.Valid()
      && |freeList.Bits| == |assignedList.Bits| == Mounted
      && |LastAllocatedIndex| == |segments| && AllocSegment < |segments|
      && suballoc.ClusterSize == store.ClusterSize
    }

    constructor (fat: FatTable, freeList: BitBlockList, assignedList: BitBlockList, suballoc: SuballocPool, segments: seq<Segment>)
      requires fat.Valid() && fat.store.MountedVolumeClusters <= |fat.Flat| && fat.store.MountedVolumeClusters <= MARKER
      requires freeList.Valid() && assignedList.Valid() && freeList != assignedList && suballoc.Valid()
      requires |freeList.Bits| == |assignedList.Bits| == fat.store.MountedVolumeClusters && |segments| > 0
      requires suballoc.ClusterSize == fat.store.ClusterSize
      ensures Valid() && this.fat == fat && this.freeList == freeList && this.assignedList == assignedList
      ensures this.suballoc == suballoc && this.segments == segments
      ensures VolumeFreeClusters == 0 && VolumeAllocatedClusters == 0
    {
      this.fat, store, this.freeList, this.assignedList := fat, fat.store, freeList, assignedList;
      this.suballoc, this.segments, Mounted := suballoc, segments, fat.store.MountedVolumeClusters;
      VolumeFreeClusters, VolumeAllocatedClusters, AllocSegment := 0, 0, 0;
      LastAllocatedIndex := seq(|segments|, _ => 0);
    }

    /** The FAT as one flat table, by its primary copy. */
    ghost function Table(): Fat
      requires Mounted <= |fat.Flat|
      reads fat
    {
      fat.Flat[..Mounted]
    }

    ghost function View(): (s: VolState)
      requires Valid()
      reads this, fat, store, freeList, assignedList, suballoc
      ensures WellFormed(segments, s) && |s.bits| == Mounted
    {
      VolState(Table(), freeList.Bits, VolumeFreeClusters, VolumeAllocatedClusters, LastAllocatedIndex, AllocSegment)
    }

    /** Every read of cluster's entry that succeeds returns the table's. */
    ghost predicate SameCopies(cluster: ulong)
      reads fat
    {
      fat.Reliable() || (cluster < Mounted && cluster < |fat.Flat| && cluster < |fat.Mirror| ==> fat.Flat[cluster] == fat.Mirror[cluster])
    }

    /** So it is for a chain and where it ends; for every chain while the two copies are in step. */
    ghost predicate Readable(cs: seq<ulong>, tail: ulong)
      reads fat
    {
      (forall c :: c in cs ==> SameCopies(c)) && SameCopies(tail)
    }

    ghost function Snapshot(): Shot
      reads fat, freeList, suballoc`Clusters
    {
      Shot(fat.Flat, fat.Mirror, freeList.Bits, suballoc.Clusters)
    }

    ghost predicate RecordsHoused()
      reads fat, freeList, suballoc`Clusters
    {
      Housed(fat.Lay, freeList.Bits, suballoc.Clusters)
    }

    /** The element that a read of cluster's entry hands back with it. */
    ghost predicate LruFor(cluster: ulong, lru: Option<MirrorLru>)
      reads fat
    {
      fat.PerCluster > 0 && BlockOf(cluster, fat.PerCluster) < |fat.Lay| && lru == Some(fat.Lay[BlockOf(cluster, fat.PerCluster)])
    }

    method GetFatEntryAndLRU(cluster: ulong) returns (e: Option<FatEntry>, lru: Option<MirrorLru>)
      requires Valid()
      ensures e.Some? ==> cluster < Mounted && LruFor(cluster, lru)
      ensures fat.Reliable() ==> e == if cluster < Mounted then Some(Table()[cluster]) else None
      ensures e.Some? && SameCopies(cluster) ==> e.value == Table()[cluster]
    {
      hide FatTable.Valid;
      e, lru := fat.GetFatEntryAndLRU(cluster);
    }

    /** NWUpdateFat; clusters outside the FAT keep their bytes. */
    method NWUpdateFat(lru: Option<MirrorLru>, e: FatEntry, cluster: ulong) returns (code: ulong)
      requires Valid() && cluster < Mounted && LruFor(cluster, lru)
      modifies fat, store
      ensures Valid() && fat.Lay == old(fat.Lay)
      ensures code == 0 ==> Table() == old(Table())[cluster := e]
      ensures code != 0 ==> Table() == old(Table()) || Table() == old(Table())[cluster := e]
      ensures SameBut(old(fat.Flat), fat.Flat, cluster) && SameBut(old(fat.Mirror), fat.Mirror, cluster)
      ensures code == 0 ==> forall c: ulong :: c == cluster || old(SameCopies(c)) ==> SameCopies(c)
      ensures fat.Reliable() ==> code == 0
      ensures old(fat.InSync()) ==> (fat.InSync() <==> code == 0 || fat.Flat == old(fat.Flat))
      ensures SameData(fat.Lay, old(store.bytes), store.bytes)
    {
      hide FatTable.Valid, BlockOf;
      code := fat.WriteFATEntry(lru.value, e, cluster);
    }

    /** SetFreeClusterValue: the bit, and the hint of the segment the cluster is in. */
    method SetFreeClusterValue(cluster: ulong, flag: ulong) returns (code: ulong)
      requires Valid() && cluster < Mounted
      modifies freeList, this`LastAllocatedIndex
      ensures Valid() && code == 0
      ensures freeList.Bits == old(freeList.Bits)[cluster := Odd(flag)]
      ensures LastAllocatedIndex == Lowered(segments, old(LastAllocatedIndex), cluster)
    {
      hide BitBlockList.Valid, FatTable.Valid, Odd;
      var i := 0;
      while i < |segments|
        invariant i <= |segments| && Valid() && LastAllocatedIndex == old(LastAllocatedIndex)
        invariant freeList.Bits == old(freeList.Bits)
        invariant SegmentFrom(segments, i, cluster) == SegmentFrom(segments, 0, cluster)
      {
        if cluster < segments[i].start + segments[i].size {
          if cluster >= segments[i].start {
            if cluster < LastAllocatedIndex[i] {
              LastAllocatedIndex := LastAllocatedIndex[i := cluster];
            }
            break;
          }
        }
        i := i + 1;
      }
      code := freeList.SetBitBlockValue(cluster, flag);
    }

    // ---- freeing and relinking ----------------------------------------------

    /** FreeCluster; -1 for an address outside the volume or an I/O error, and then nothing but the FAT entry may have changed. */
    method FreeCluster(cluster: ulong) returns (code: ulong)
      requires Valid()
      modifies this, fat, store, freeList
      ensures Valid() && fat.Lay == old(fat.Lay)
      ensures code == 0 ==> cluster < Mounted && View() == Freed(segments, old(View()), cluster)
      ensures code != 0 ==> View() == old(View()).(fat := Table())
      ensures code == 0 || fat.Reliable() ==> (old(fat.InSync()) ==> fat.InSync())
      ensures fat.Reliable() ==> (code == 0 <==> cluster < Mounted) && (code != 0 ==> View() == old(View()))
      ensures SameBut(old(fat.Flat), fat.Flat, cluster) && SameBut(old(fat.Mirror), fat.Mirror, cluster)
      ensures SameData(fat.Lay, old(store.bytes), store.bytes)
    {
      hide FatTable.Valid, BitBlockList.Valid;
      var e, lru := GetFatEntryAndLRU(cluster);
      if e == None { return EOF; }
      code := NWUpdateFat(lru, FREE_ENTRY, cluster);
      if code != 0 { return EOF; }
      ReleaseCluster(cluster);
    }

    /** FreeClusterNoFlush: as FreeCluster, but a failed FAT write goes unreported, and the bitmap runs ahead of the FAT. */
    method FreeClusterNoFlush(cluster: ulong) returns (code: ulong)
      requires Valid()
      modifies this, fat, store, freeList
      ensures Valid() && fat.Lay == old(fat.Lay)
      ensures code == 0 ==> cluster < Mounted && View() == Freed(segments, old(View()), cluster).(fat := Table())
      ensures code != 0 ==> View() == old(View()) && unchanged(fat)
      ensures fat.Reliable() ==> (code == 0 <==> cluster < Mounted) && (code == 0 ==> View() == Freed(segments, old(View()), cluster))
      ensures fat.Reliable() && old(fat.InSync()) ==> fat.InSync()
      ensures SameBut(old(fat.Flat), fat.Flat, cluster) && SameBut(old(fat.Mirror), fat.Mirror, cluster)
      ensures SameData(fat.Lay, old(store.bytes), store.bytes)
    {
      hide FatTable.Valid, BitBlockList.Valid;
      var e, lru := GetFatEntryAndLRU(cluster);
      if e == None { return EOF; }
      code := NWUpdateFat(lru, FREE_ENTRY, cluster);
      ReleaseCluster(cluster);
      code := 0;
    }

    /** The bitmap and counter half of freeing a cluster. */
    method ReleaseCluster(cluster: ulong)
      requires Valid() && cluster < Mounted
      modifies this, freeList
      ensures Valid() && Table() == old(Table()) && AllocSegment == old(AllocSegment)
      ensures freeList.Bits == old(freeList.Bits)[cluster := false]
      ensures LastAllocatedIndex == Lowered(segments, old(LastAllocatedIndex), cluster)
      ensures VolumeFreeClusters == old(VolumeFreeClusters) + 1
      ensures VolumeAllocatedClusters == if old(VolumeAllocatedClusters) > 0 then old(VolumeAllocatedClusters) - 1 else 0
    {
      hide FatTable.Valid, BitBlockList.Valid;
      var code := SetFreeClusterValue(cluster, 0);
      VolumeFreeClusters := VolumeFreeClusters + 1;
      if VolumeAllocatedClusters != 0 { VolumeAllocatedClusters := VolumeAllocatedClusters - 1; }
    }

    /** SetClusterValueAndIndex; -1 for a zero link or an address outside the volume. */
    method SetClusterValueAndIndex(cluster: ulong, value: ulong, index: ulong) returns (code: ulong)
      requires Valid()
      modifies fat, store
      ensures Valid() && fat.Lay == old(fat.Lay)
      ensures code == 0 ==> cluster < Mounted && value != 0 && View() == Relinked(old(View()), cluster, FatEntry(index, value))
      ensures code != 0 ==> View() == old(View()).(fat := Table())
      ensures code == 0 || fat.Reliable() ==> (old(fat.InSync()) ==> fat.InSync())
      ensures fat.Reliable() ==> (code == 0 <==> cluster < Mounted && value != 0) && (code != 0 ==> View() == old(View()))
      ensures SameBut(old(fat.Flat), fat.Flat, cluster) && SameBut(old(fat.Mirror), fat.Mirror, cluster)
      ensures SameData(fat.Lay, old(store.bytes), store.bytes)
    {
      hide FatTable.Valid, BitBlockList.Valid;
      if value == 0 { return EOF; }
      var e, lru := GetFatEntryAndLRU(cluster);
      if e == None { return EOF; }
      code := NWUpdateFat(lru, FatEntry(index, value), cluster);
      if code != 0 { code := EOF; }
    }

    /** SetClusterValue: the link changes, the index stays. */
    method SetClusterValue(cluster: ulong, value: ulong) returns (code: ulong)
      requires Valid()
      modifies fat, store
      ensures Valid() && fat.Lay == old(fat.Lay)
      ensures fat.Reliable() ==> (code == 0 <==> cluster < Mounted && value != 0)
      ensures code == 0 ==> cluster < Mounted && forall c: ulong :: old(SameCopies(c)) ==> SameCopies(c)
      ensures code == 0 ==> Table()[cluster].FATCluster == value != 0
      ensures code != 0 ==> View() == old(View()).(fat := Table()) && (fat.Reliable() ==> View() == old(View()))
      ensures code == 0 || fat.Reliable() ==> (old(fat.InSync()) ==> fat.InSync())
      ensures old(SameCopies(cluster)) && code == 0 ==> View() == Relinked(old(View()), cluster, old(Table())[cluster].(FATCluster := value))
      ensures SameBut(old(fat.Flat), fat.Flat, cluster) && SameBut(old(fat.Mirror), fat.Mirror, cluster)
      ensures SameData(fat.Lay, old(store.bytes), store.bytes)
    {
      hide FatTable.Valid, BitBlockList.Valid;
      if value == 0 { return EOF; }
      var e, lru := GetFatEntryAndLRU(cluster);
      if e == None { return EOF; }
      code := NWUpdateFat(lru, e.value.(FATCluster := value), cluster);
      if code != 0 { code := EOF; }
    }

    // ---- allocation ---------------------------------------------------------

    /** FindFreeCluster: the first clear bit at or after `from`, which is set. */
    method FindFreeCluster(from: ulong) returns (cluster: ulong)
      requires Valid()
      modifies freeList
      ensures Valid() && cluster == FirstClear(old(freeList.Bits), from)
      ensures freeList.Bits == if cluster == EOF then old(freeList.Bits) else old(freeList.Bits)[cluster := true]
    {
      hide BitBlockList.Valid, FatTable.Valid;
      ghost var was, chunk := freeList.Bits, freeList.Entries;
      cluster := freeList.ScanAndSetBitBlockValueWithIndex(0, from, 1);
      FirstRunIsFirstClear(was, chunk, from, cluster);
      if cluster != EOF {
        assert freeList.Bits == was[cluster := true];
      }
    }

    /** The search half of allocation: hint, then segment start, then segment 0; the turn passes on. */
    method PickCluster() returns (cluster: ulong)
      requires Valid()
      modifies this`LastAllocatedIndex, this`AllocSegment, freeList
      ensures Valid() && cluster == Picked(segments, old(View()))
      ensures cluster == EOF ==> View() == old(View())
      ensures cluster != EOF ==> cluster < Mounted && !old(freeList.Bits)[cluster]
      ensures cluster != EOF ==> freeList.Bits == old(freeList.Bits)[cluster := true]
      ensures cluster != EOF ==> LastAllocatedIndex == old(LastAllocatedIndex)[old(AllocSegment) := cluster]
      ensures cluster != EOF ==> AllocSegment == if old(AllocSegment) + 1 >= |segments| then 0 else old(AllocSegment) + 1
    {
      hide BitBlockList.Valid, FatTable.Valid, FirstClear;
      cluster := FindFreeCluster(LastAllocatedIndex[AllocSegment]);
      if cluster == EOF {
        cluster := FindFreeCluster(segments[AllocSegment].start);
        if cluster == EOF {
          cluster := FindFreeCluster(segments[0].start);
          if cluster == EOF { return EOF; }
        }
      }
      LastAllocatedIndex := LastAllocatedIndex[AllocSegment := cluster];
      AllocSegment := AllocSegment + 1;
      if AllocSegment >= |segments| { AllocSegment := 0; }
    }

    /** AllocateClusterSetIndexSetChain: round robin over the segments, starting from their hints. An I/O error leaves the cluster
        picked marked in the bitmap. */
    method AllocateClusterSetIndexSetChain(index: ulong, next: ulong) returns (cluster: ulong)
      requires Valid()
      modifies this, fat, store, freeList
      ensures Valid() && fat.Lay == old(fat.Lay)
      ensures fat.Reliable() ==> cluster == Picked(segments, old(View()))
      ensures fat.Reliable() || cluster != EOF ==> View() == Taken(segments, old(View()), FatEntry(index, next))
      ensures var t := Taken(segments, old(View()), FatEntry(index, next));
        freeList.Bits == t.bits && LastAllocatedIndex == t.hints && AllocSegment == t.turn
      ensures cluster != EOF ==> cluster < Mounted && !old(freeList.Bits)[cluster] && freeList.Bits[cluster]
      ensures cluster != EOF ==> Table() == old(Table())[cluster := FatEntry(index, next)]
      ensures cluster != EOF || fat.Reliable() ==> (old(fat.InSync()) ==> fat.InSync())
      ensures OthersKept(old(Snapshot()), Snapshot())
      ensures SameData(fat.Lay, old(store.bytes), store.bytes)
    {
      hide BitBlockList.Valid, FatTable.Valid, FirstClear, Picked, OthersKept, SameBut;
      ghost var was := Snapshot();
      cluster := PickCluster();
      if cluster == EOF {
        NothingTaken(was);
        return EOF;
      }
      var code := EnterCluster(cluster, FatEntry(index, next));
      PickKeepsOthers(was, Snapshot(), cluster);
      if code != 0 { return EOF; }
    }

    /** The FAT and counter half of allocating a cluster. */
    method EnterCluster(cluster: ulong, entry: FatEntry) returns (code: ulong)
      requires Valid() && cluster < Mounted
      modifies this`VolumeFreeClusters, this`VolumeAllocatedClusters, fat, store
      ensures Valid() && fat.Lay == old(fat.Lay) && (fat.Reliable() ==> code == 0)
      ensures code == 0 ==> Table() == old(Table())[cluster := entry] && VolumeAllocatedClusters == old(VolumeAllocatedClusters) + 1
      ensures code == 0 ==> VolumeFreeClusters == if old(VolumeFreeClusters) > 0 then old(VolumeFreeClusters) - 1 else 0
      ensures code == 0 ==> (old(fat.InSync()) ==> fat.InSync())
      ensures SameBut(old(fat.Flat), fat.Flat, cluster) && SameBut(old(fat.Mirror), fat.Mirror, cluster)
      ensures SameData(fat.Lay, old(store.bytes), store.bytes)
    {
      hide BitBlockList.Valid, FatTable.Valid, Volume.SameCopies;
      var e, lru := GetFatEntryAndLRU(cluster);
      if e == None { return EOF; }
      if VolumeFreeClusters != 0 { VolumeFreeClusters := VolumeFreeClusters - 1; }
      VolumeAllocatedClusters := VolumeAllocatedClusters + 1;
      code := NWUpdateFat(lru, entry, cluster);
    }

    method AllocateClusterSetIndex(index: ulong) returns (cluster: ulong)
      requires Valid()
      modifies this, fat, store, freeList
      ensures Valid() && fat.Lay == old(fat.Lay)
      ensures fat.Reliable() ==> cluster == Picked(segments, old(View()))
      ensures fat.Reliable() || cluster != EOF ==> View() == Taken(segments, old(View()), FatEntry(index, EOF))
      ensures var t := Taken(segments, old(View()), FatEntry(index, EOF));
        freeList.Bits == t.bits && LastAllocatedIndex == t.hints && AllocSegment == t.turn
      ensures cluster != EOF ==> cluster < Mounted && !old(freeList.Bits)[cluster] && freeList.Bits[cluster]
      ensures cluster != EOF || fat.Reliable() ==> (old(fat.InSync()) ==> fat.InSync())
      ensures OthersKept(old(Snapshot()), Snapshot())
      ensures SameData(fat.Lay, old(store.bytes), store.bytes)
    {
      cluster := AllocateClusterSetIndexSetChain(index, EOF);
    }

    method AllocateCluster() returns (cluster: ulong)
      requires Valid()
      modifies this, fat, store, freeList
      ensures Valid() && fat.Lay == old(fat.Lay)
      ensures fat.Reliable() ==> cluster == Picked(segments, old(View()))
      ensures fat.Reliable() || cluster != EOF ==> View() == Taken(segments, old(View()), FatEntry(0, EOF))
      ensures var t := Taken(segments, old(View()), FatEntry(0, EOF));
        freeList.Bits == t.bits && LastAllocatedIndex == t.hints && AllocSegment == t.turn
      ensures cluster != EOF ==> cluster < Mounted && !old(freeList.Bits)[cluster] && freeList.Bits[cluster]
      ensures cluster != EOF || fat.Reliable() ==> (old(fat.InSync()) ==> fat.InSync())
      ensures OthersKept(old(Snapshot()), Snapshot())
      ensures SameData(fat.Lay, old(store.bytes), store.bytes)
    {
      cluster := AllocateClusterSetIndexSetChain(0, EOF);
    }

    // ---- a run of calls ------------------------------------------------------

    /** Calls one after the other: ok if each of them succeeded. Where the run of operations leads, there the volume is; and if the two
        copies of the FAT were in step they still are, so a read that has to fall back to the mirror returns the table's entry. */
    method RunOps(ops: seq<Op>) returns (ok: bool)
      requires Valid()
      modifies this, fat, store, freeList
      ensures Valid() && fat.Lay == old(fat.Lay)
      ensures ok || fat.Reliable() ==> forall t :: Leads(segments, old(View()), ops, t) ==> View() == t
      ensures (ok || fat.Reliable()) && old(fat.InSync()) ==> fat.InSync() && forall c: ulong :: SameCopies(c)
    {
      hide BitBlockList.Valid, FatTable.Valid, SuballocPool.Valid, Leads, Taken, Freed, Picked, OthersKept, SameData, SameBut;
      ghost var s := View();
      ok := true;
      var i := 0;
      assert ops[0..] == ops;
      while i < |ops|
        invariant Valid() && i <= |ops| && fat.Lay == old(fat.Lay)
        invariant ok || fat.Reliable() ==> forall t :: Leads(segments, s, ops, t) ==> Leads(segments, View(), ops[i..], t)
        invariant (ok || fat.Reliable()) && old(fat.InSync()) ==> fat.InSync()
      {
        LeadsOn(segments, View(), ops, i);
        match ops[i] {
          case Allocate(e) =>
            var cluster := AllocateClusterSetIndexSetChain(e.FATIndex, e.FATCluster);
            ok := ok && cluster != EOF;
          case Free(c) =>
            var code := FreeCluster(c);
            ok := ok && code == 0;
          case Relink(c, e) =>
            var code := SetClusterValueAndIndex(c, e.FATCluster, e.FATIndex);
            ok := ok && code == 0;
        }
        i := i + 1;
      }
      assert ops[i..] == [];
      forall t | ok || fat.Reliable() ensures Leads(segments, s, ops, t) ==> View() == t { LeadsNowhere(segments, View(), t); }
    }

    // ---- writing a suballocation record --------------------------------------

    /** A record's chain grows by a cluster: allocated, and linked behind `prev` if there is one. */
    method GrowChain(prev: Option<ulong>, index: ulong, next: ulong) returns (cluster: ulong)
      requires Valid() && RecordsHoused() && next != 0 && (prev.Some? ==> prev.value in suballoc.Clusters)
      modifies this, fat, store, freeList, suballoc`Clusters
      ensures Valid() && RecordsHoused() && fat.Lay == old(fat.Lay)
      ensures fat.Reliable() ==> Grows(segments, old(View()), View())
      ensures fat.Reliable() && cluster == EOF ==> Picked(segments, View()) == EOF
      ensures suballoc.Clusters == old(suballoc.Clusters) + if cluster == EOF then {} else {cluster}
      ensures cluster != EOF ==> cluster < Mounted && cluster !in old(suballoc.Clusters) && !old(freeList.Bits)[cluster]
      ensures cluster != EOF ==> Table()[cluster] == FatEntry(index, next)
      ensures fat.Reliable() && cluster != EOF && prev.Some? ==>
        Table()[prev.value] == old(Table())[prev.value].(FATCluster := if cluster == 0 then old(Table())[prev.value].FATCluster else cluster)
      ensures fat.Reliable() && old(fat.InSync()) ==> fat.InSync()
      ensures OthersKept(old(Snapshot()), Snapshot())
      ensures SameData(fat.Lay, old(store.bytes), store.bytes)
    {
      hide BitBlockList.Valid, FatTable.Valid, SuballocPool.Valid, Picked, OthersKept, Housed, Taken, SameData, Leads, SameBut;
      ghost var s, was, bytes := View(), Snapshot(), store.bytes;
      GrowsBy(segments, s, Allocate(FatEntry(index, next)));
      NotFoundIsFull(segments, s);
      cluster := AllocateClusterSetIndexSetChain(index, next);
      StillHoused(fat.Lay, was, Snapshot());
      if cluster == EOF { return; }
      ghost var m, mid, bytes1 := View(), Snapshot(), store.bytes;
      FreeIsApart(fat.Lay, was.bits, was.records, cluster);
      suballoc.Join(cluster);
      LinkIn(prev, cluster);
      if prev.Some? { ButStays(mid.flat, fat.Flat, prev.value, cluster); }
      if fat.Reliable() { GrowsTwice(segments, s, m, View()); }
      SameDataTwice(fat.Lay, bytes, bytes1, store.bytes);
      JoinKeepsOthers(fat.Lay, was, mid, Snapshot(), cluster, prev);
    }

    method LinkIn(prev: Option<ulong>, cluster: ulong)
      requires Valid() && (prev.Some? ==> prev.value < Mounted && freeList.Bits[prev.value])
      modifies fat, store
      ensures Valid() && fat.Lay == old(fat.Lay)
      ensures fat.Reliable() ==> Grows(segments, old(View()), View())
      ensures prev.Some? ==> SameBut(old(fat.Flat), fat.Flat, prev.value) && SameBut(old(fat.Mirror), fat.Mirror, prev.value)
      ensures prev == None ==> fat.Flat == old(fat.Flat) && fat.Mirror == old(fat.Mirror)
      ensures fat.Reliable() && prev.Some? ==>
        Table()[prev.value] == old(Table())[prev.value].(FATCluster := if cluster == 0 then old(Table())[prev.value].FATCluster else cluster)
      ensures fat.Reliable() && old(fat.InSync()) ==> fat.InSync()
      ensures SameData(fat.Lay, old(store.bytes), store.bytes)
    {
      hide BitBlockList.Valid, FatTable.Valid, SuballocPool.Valid, Leads, SameBut;
      ghost var s := View();
      GrowsNot(segments, s);
      if prev.Some? {
        if cluster != 0 { GrowsBy(segments, s, Relink(prev.value, s.fat[prev.value].(FATCluster := cluster))); }
        var code := SetClusterValue(prev.value, cluster);
      }
    }

    /** One step of the write: its chain grows, or bytes go to a cluster of the records. */
    method RecordStep() returns (full: bool)
      requires Valid() && RecordsHoused()
      modifies this, fat, store, freeList, suballoc`Clusters
      ensures Valid() && RecordsHoused() && fat.Lay == old(fat.Lay)
      ensures fat.Reliable() ==> Grows(segments, old(View()), View())
      ensures fat.Reliable() && full ==> Picked(segments, View()) == EOF
      ensures fat.Reliable() && old(fat.InSync()) ==> fat.InSync()
      ensures OthersKept(old(Snapshot()), Snapshot())
      ensures SameDataBut(fat.Lay, suballoc.Clusters, old(store.bytes), store.bytes)
    {
      hide BitBlockList.Valid, FatTable.Valid, SuballocPool.Valid, Picked, OthersKept, Taken, Grows;
      full := false;
      GrowsNot(segments, View());
      NothingTaken(Snapshot());
      var grow: bool := *;
      if grow {
        var prev: Option<ulong>, index: ulong, next: ulong := *, *, *;
        if next != 0 && (next == EOF || next in suballoc.Clusters) && (prev == None || prev.value in suballoc.Clusters) {
          var cluster := GrowChain(prev, index, next);
          full := cluster == EOF;
        }
      } else {
        var cluster: ulong, offset: nat, buf: seq<byte> := *, *, *;
        if cluster in suballoc.Clusters && offset + |buf| <= store.ClusterSize {
          var written := fat.WriteElsewhere(cluster, offset, buf);
        }
      }
    }

    /** The loop of NWWriteFile, and the directory record after it: any number of steps, until there is no free cluster. */
    method WriteChain() returns (full: bool)
      requires Valid() && RecordsHoused()
      modifies this, fat, store, freeList, suballoc`Clusters
      ensures Valid() && RecordsHoused() && fat.Lay == old(fat.Lay)
      ensures fat.Reliable() ==> Grows(segments, old(View()), View())
      ensures fat.Reliable() && full ==> Picked(segments, View()) == EOF
      ensures fat.Reliable() && old(fat.InSync()) ==> fat.InSync()
      ensures OthersKept(old(Snapshot()), Snapshot())
      ensures SameDataBut(fat.Lay, suballoc.Clusters, old(store.bytes), store.bytes)
    {
      hide BitBlockList.Valid, FatTable.Valid, SuballocPool.Valid, Picked, OthersKept, Grows, Housed, SameDataBut, Volume.Valid;
      ghost var s, was, bytes := View(), Snapshot(), store.bytes;
      GrowsNot(segments, s);
      NothingTaken(was);
      SameDataButSelf(fat.Lay, suballoc.Clusters, bytes);
      full := false;
      var steps: nat := *;
      while steps > 0 && !full
        invariant Valid() && RecordsHoused() && fat.Lay == old(fat.Lay)
        invariant fat.Reliable() ==> Grows(segments, s, View())
        invariant fat.Reliable() && full ==> Picked(segments, View()) == EOF
        invariant OthersKept(was, Snapshot())
        invariant fat.Reliable() && old(fat.InSync()) ==> fat.InSync()
        invariant SameDataBut(fat.Lay, suballoc.Clusters, bytes, store.bytes)
        decreases steps
      {
        ghost var t, now, bytes1 := View(), Snapshot(), store.bytes;
        full := RecordStep();
        if fat.Reliable() { GrowsTwice(segments, s, t, View()); }
        OthersKeptTwice(was, now, Snapshot());
        OthersJoin(now, Snapshot());
        SameDataTwiceBut(fat.Lay, now.records, suballoc.Clusters, bytes, bytes1, store.bytes);
        steps := steps - 1;
      }
    }

    /** WriteSuballocRecord from offset 0, through NWWriteFile: the bytes reported written. */
    method WriteSuballocRecord(rec: ulong, buf: seq<byte>) returns (n: nat)
      requires Valid() && RecordsHoused()
      modifies this, fat, store, freeList, suballoc`Clusters, suballoc`Data
      ensures Valid() && RecordsHoused() && fat.Lay == old(fat.Lay)
      ensures n <= |buf| && n <= Bin(rec) * SUBALLOC_BLOCK_SIZE
      ensures suballoc.reliable ==> forall r :: r != rec ==> suballoc.Contents(r) == old(suballoc.Contents(r))
      ensures suballoc.reliable && n > 0 ==> suballoc.Contents(rec) == Splice(old(suballoc.Contents(rec)), 0, buf[..n])
      ensures suballoc.reliable && fat.Reliable() && IsSuballoc(rec) && suballoc.GetSuballocSize(rec) >= |buf| > 0 ==>
        n == |buf| || Picked(segments, View()) == EOF
      ensures fat.Reliable() ==> Grows(segments, old(View()), View())
      ensures fat.Reliable() && old(fat.InSync()) ==> fat.InSync()
      ensures OthersKept(old(Snapshot()), Snapshot())
      ensures SameDataBut(fat.Lay, suballoc.Clusters, old(store.bytes), store.bytes)
    {
      hide BitBlockList.Valid, FatTable.Valid, SuballocPool.Valid, Picked, OthersKept, Grows, Housed, Splice, SuballocPool.Contents, SameDataBut;
      ghost var s, was, bytes := View(), Snapshot(), store.bytes;
      GrowsNot(segments, s);
      NothingTaken(was);
      SameDataButSelf(fat.Lay, suballoc.Clusters, bytes);
      if !IsSuballoc(rec) || Bin(rec) >= suballoc.SuballocListCount { return 0; }
      var count := Least(|buf|, Bin(rec) * SUBALLOC_BLOCK_SIZE);
      if count == 0 { return 0; }
      var full := WriteChain();
      var got := count;
      var fails: bool := *;
      if full || (!suballoc.reliable && fails) { got :| 0 <= got <= count; }
      suballoc.PutBytes(rec, buf[..got]);
      return if fails && !suballoc.reliable then 0 else got;
    }
  }

  /** A one-bit run of clear bits is a clear bit. */
  lemma FirstRunIsFirstClear(bits: seq<bool>, chunk: nat, from: nat, pos: ulong)
    requires chunk > 0 && |bits| <= MARKER && IsFirstRun(bits, chunk, from, 1, Odd(0), pos)
    ensures pos == FirstClear(bits, from)
  {
    hide FirstClear;
    forall c | from <= c < |bits| && !RunAt(bits, chunk, c, 1, false) ensures bits[c] {
      OffsetSmall(c, chunk);
    }
  }
}
