/** TruncateClusterChain: cutting a file's chain to a size, with or without a suballocated tail (cluster.c). */
module Truncation {
  import opened Words
  import opened BitBlocks
  import opened ChunkMath
  import opened FatTables
  import opened Chains
  import opened VolumeStates
  import opened Suballoc
  import opened Volumes
  import opened TruncSpec
  import opened TruncOutcomes

  // ---- freeing ---------------------------------------------------------------

  /** Only entries and bits of cs differ. */
  ghost predicate SameOutside(a: VolState, b: VolState, cs: seq<ulong>) {
    && |a.fat| == |b.fat| && |a.bits| == |b.bits| == |a.fat|
    && forall c: ulong :: c < |a.fat| && c !in cs ==> a.fat[c] == b.fat[c] && a.bits[c] == b.bits[c]
  }

  lemma FreedSameOutside(segs: seq<Segment>, s: VolState, t: VolState, c: ulong, cs: seq<ulong>)
    requires WellFormed(segs, s) && WellFormed(segs, t) && c < |t.bits| && c in cs && SameOutside(s, t, cs)
    ensures SameOutside(s, Freed(segs, t, c), cs)
  {
  }

  lemma OutsideSelf(s: VolState, cs: seq<ulong>)
    requires |s.fat| == |s.bits|
    ensures SameOutside(s, s, cs)
  {
  }

  lemma OutsideJoins(a: VolState, b: VolState, c: VolState, cs: seq<ulong>, x: ulong)
    requires SameOutside(a, b, cs) && SameOutside(b, c, [x]) && x in cs
    ensures SameOutside(a, c, cs)
  {
    forall d: ulong | d < |a.fat| && d !in cs ensures a.fat[d] == c.fat[d] && a.bits[d] == c.bits[d] {
      assert d !in [x];
    }
  }

  lemma OutsideWidens(a: VolState, b: VolState, c: VolState, cs: seq<ulong>, n: nat)
    requires n <= |cs| && SameOutside(a, b, cs) && SameOutside(b, c, cs[n..])
    ensures SameOutside(a, c, cs)
  {
    forall d: ulong | d < |a.fat| && d !in cs ensures a.fat[d] == c.fat[d] && a.bits[d] == c.bits[d] {
      assert d !in cs[n..];
    }
  }

  lemma SameDataSelf(lay: seq<MirrorLru>, a: seq<seq<byte>>)
    ensures SameData(lay, a, a)
  {
  }

  /** NWUpdateFat(volume, FAT, lru, 0, 0, fcluster) and the bookkeeping that goes with it. */
  method FreeOne(v: Volume, cluster: ulong, lru: Option<MirrorLru>) returns (code: ulong)
    requires v.Valid() && cluster < v.Mounted && v.LruFor(cluster, lru)
    modifies v, v.fat, v.store, v.freeList
    ensures v.Valid() && v.fat.Lay == old(v.fat.Lay)
    ensures code == 0 ==> v.View() == Freed(v.segments, old(v.View()), cluster)
    ensures code != 0 ==> SameOutside(old(v.View()), v.View(), [cluster])
    ensures code == 0 ==> forall c: ulong :: old(v.SameCopies(c)) ==> v.SameCopies(c)
    ensures v.fat.Reliable() ==> code == 0
    ensures SameData(v.fat.Lay, old(v.store.bytes), v.store.bytes)
    ensures code == 0 ==> (old(v.fat.InSync()) ==> v.fat.InSync())
  {
    hide FatTable.Valid, FatTable.InSync, BitBlockList.Valid, SuballocPool.Valid, Volume.SameCopies;
    code := v.NWUpdateFat(lru, FREE_ENTRY, cluster);
    if code != 0 { return VOLUME_CORRUPT; }
    v.ReleaseCluster(cluster);
  }

  method FreeRecord(v: Volume, rec: ulong)
    requires v.Valid()
    modifies v.suballoc`Used, v.suballoc`Search
    ensures v.Valid() && v.View() == old(v.View())
    ensures v.suballoc.Used == old(v.suballoc.Used) - (if v.suballoc.Known(rec) then {rec} else {})
  {
    hide FatTable.Valid, FatTable.InSync, BitBlockList.Valid, SuballocPool.Valid;
    var err := v.suballoc.FreeSuballocRecord(rec);
  }

  lemma {:induction false} FreedAllPlus(segs: seq<Segment>, s: VolState, cs: seq<ulong>, c: ulong)
    requires WellFormed(segs, s) && InBits(s, cs) && c < |s.bits|
    ensures InBits(s, cs + [c]) && FreedAll(segs, s, cs + [c]) == Freed(segs, FreedAll(segs, s, cs), c)
    decreases cs
  {
    hide Freed;
    if cs == [] {
      assert (cs + [c])[1..] == [];
    } else {
      FreedAllPlus(segs, Freed(segs, s, cs[0]), cs[1..], c);
      assert (cs + [c])[1..] == cs[1..] + [c];
    }
  }

  ghost function Dropped(pool: SuballocPool, tail: ulong, sa: bool): set<ulong>
    reads pool`Limits
  {
    if IsSuballoc(tail) && sa && pool.Known(tail) then {tail} else {}
  }

  /** A chain whose first cluster has just been freed goes on from the next. */
  lemma ChainAfterFree(segs: seq<Segment>, s: VolState, cluster: ulong, cs: seq<ulong>, tail: ulong)
    requires WellFormed(segs, s) && Chain(s.fat, cluster, cs, tail) && Live(s.fat, cluster)
    ensures cs != [] && cs[0] == cluster
    ensures Chain(Freed(segs, s, cluster).fat, s.fat[cluster].FATCluster, cs[1..], tail)
  {
    ChainAcyclic(s.fat, cluster, cs, tail);
    var t := Freed(segs, s, cluster).fat;
    WalkFrame(s.fat, t, s.fat[cluster].FATCluster, cs[1..], tail);
  }

  /** Part way through freeing a chain: the first i clusters are free, `cluster` is where the rest begins. */
  ghost predicate Freeing(segs: seq<Segment>, s: VolState, t: VolState, cs: seq<ulong>, i: nat, cluster: ulong, tail: ulong) {
    && WellFormed(segs, s) && i <= |cs| && InBits(s, cs[..i])
    && t == FreedAll(segs, s, cs[..i]) && SameOutside(s, t, cs)
    && Chain(t.fat, cluster, cs[i..], tail)
  }

  lemma FreeingStarts(segs: seq<Segment>, s: VolState, cs: seq<ulong>, cluster: ulong, tail: ulong)
    requires WellFormed(segs, s) && Chain(s.fat, cluster, cs, tail)
    ensures Freeing(segs, s, s, cs, 0, cluster, tail)
  {
    assert cs[0..] == cs;
  }

  lemma FreeingBounds(segs: seq<Segment>, s: VolState, t: VolState, cs: seq<ulong>, i: nat, cluster: ulong, tail: ulong)
    requires Freeing(segs, s, t, cs, i, cluster, tail)
    ensures i <= |cs| && SameOutside(s, t, cs) && cluster == if i < |cs| then cs[i] else tail
  {
    assert i < |cs| ==> cs[i..][0] == cs[i];
  }

  lemma FreeingGoesOn(segs: seq<Segment>, s: VolState, t: VolState, cs: seq<ulong>, i: nat, cluster: ulong, tail: ulong)
    requires Freeing(segs, s, t, cs, i, cluster, tail) && Live(t.fat, cluster) && |t.fat| == |t.bits| && WellFormed(segs, t)
    ensures i < |cs| && cs[i] == cluster
    ensures Freeing(segs, s, Freed(segs, t, cluster), cs, i + 1, t.fat[cluster].FATCluster, tail)
  {
    hide Freed, Walk, FreedAll;
    ChainAfterFree(segs, t, cluster, cs[i..], tail);
    FreedSameOutside(segs, s, t, cluster, cs);
    FreedAllPlus(segs, s, cs[..i], cluster);
    assert cs[i..][1..] == cs[i + 1..] && cs[..i] + [cluster] == cs[..i + 1];
  }

  lemma ChainDead(fat: Fat, head: ulong, cs: seq<ulong>, tail: ulong)
    requires Chain(fat, head, cs, tail) && !Live(fat, head)
    ensures cs == [] && head == tail
  {
  }

  lemma FreeingEnds(segs: seq<Segment>, s: VolState, t: VolState, cs: seq<ulong>, i: nat, cluster: ulong, tail: ulong)
    requires Freeing(segs, s, t, cs, i, cluster, tail) && !Live(t.fat, cluster)
    ensures i == |cs| && cluster == tail && InBits(s, cs) && t == FreedAll(segs, s, cs)
  {
    ChainDead(t.fat, cluster, cs[i..], tail);
    assert cs[..i] == cs;
  }

  /** The FreeChain loop: frees every cluster from here on, then the record at the end. */
  method FreeChain(v: Volume, cluster0: ulong, e0: Option<FatEntry>, lru0: Option<MirrorLru>, sa: bool,
                   ghost cs: seq<ulong>, ghost tail: ulong) returns (code: ulong)
    requires v.Valid() && v.Readable(cs, tail) && Chain(v.Table(), cluster0, cs, tail)
    requires e0.Some? ==> cluster0 < v.Mounted && e0.value == v.Table()[cluster0] && v.LruFor(cluster0, lru0)
    requires v.fat.Reliable() ==> (e0.Some? <==> cluster0 < v.Mounted)
    modifies v, v.fat, v.store, v.freeList, v.suballoc`Used, v.suballoc`Search
    ensures v.Valid() && v.fat.Lay == old(v.fat.Lay) && SameOutside(old(v.View()), v.View(), cs)
    ensures v.fat.Reliable() ==>
      && InBits(old(v.View()), cs) && v.View() == FreedAll(v.segments, old(v.View()), cs)
      && code == (if cs == [] then 0 else TailCode(tail, sa))
      && v.suballoc.Used == old(v.suballoc.Used) - (if cs != [] then Dropped(v.suballoc, tail, sa) else {})
    ensures SameData(v.fat.Lay, old(v.store.bytes), v.store.bytes)
    ensures v.fat.Reliable() || code != VOLUME_CORRUPT ==> (old(v.fat.InSync()) ==> v.fat.InSync())
  {
    hide FatTable.Valid, FatTable.InSync, BitBlockList.Valid, SuballocPool.Valid, Volume.SameCopies, Freed, FreedAll, Walk, Freeing, SameData, SameOutside, Volume.Valid;
    var cluster: ulong, e, lru := cluster0, e0, lru0;
    ghost var i := 0;
    ghost var s := v.View();
    FreeingStarts(v.segments, s, cs, cluster, tail);
    assert SameData(v.fat.Lay, v.store.bytes, v.store.bytes) by { SameDataSelf(v.fat.Lay, v.store.bytes); }
    FreeingBounds(v.segments, s, s, cs, 0, cluster, tail);
    while e.Some? && e.value.FATCluster != 0
      invariant v.Valid() && v.Readable(cs, tail) && v.fat.Lay == old(v.fat.Lay)
      invariant Freeing(v.segments, s, v.View(), cs, i, cluster, tail) && i <= |cs| && SameOutside(s, v.View(), cs)
      invariant e.Some? ==> cluster < v.Mounted && e.value == v.Table()[cluster] && v.LruFor(cluster, lru)
      invariant v.fat.Reliable() ==> (e.Some? <==> cluster < v.Mounted)
      invariant i > 0 ==> !IsMarker(cluster)
      invariant v.suballoc.Used == old(v.suballoc.Used) && (old(v.fat.InSync()) ==> v.fat.InSync())
      invariant SameData(v.fat.Lay, old(v.store.bytes), v.store.bytes)
      decreases |cs| - i
    {
      var fcluster := cluster;
      cluster := e.value.FATCluster;
      ghost var t, bytes := v.View(), v.store.bytes;
      FreeingGoesOn(v.segments, s, t, cs, i, fcluster, tail);
      FreeingBounds(v.segments, s, Freed(v.segments, t, fcluster), cs, i + 1, cluster, tail);
      code := FreeOne(v, fcluster, lru);
      SameDataTwice(v.fat.Lay, old(v.store.bytes), bytes, v.store.bytes);
      if code != 0 {
        OutsideJoins(s, t, v.View(), cs, fcluster);
        return VOLUME_CORRUPT;
      }
      i := i + 1;
      if IsMarker(cluster) {
        FreeingEnds(v.segments, s, v.View(), cs, i, cluster, tail);
        if cluster == EOF { return 0; }
        if !sa { return NOT_PERMITTED; }
        FreeRecord(v, cluster);
        return 0;
      }
      e, lru := v.GetFatEntryAndLRU(cluster);
    }
    code := 0;
    if v.fat.Reliable() {
      FreeingEnds(v.segments, s, v.View(), cs, i, cluster, tail);
    }
  }

  // ---- a record for the partial cluster --------------------------------------

  datatype Source = FromCluster(c: ulong) | FromRecord(rec: ulong)

  ghost function SourceBytes(v: Volume, src: Source): seq<byte>
    reads v.store, v.suballoc`Data
  {
    match src
    case FromCluster(c) => if c < |v.store.bytes| then v.store.bytes[c] else []
    case FromRecord(rec) => v.suballoc.Contents(rec)
  }

  /** Nothing stands in the way of a record of `off` bytes: memory, a record to be had, and no I/O error. */
  ghost predicate Unhindered(v: Volume, src: Source, off: nat)
    requires v.Valid()
    reads v, v.fat, v.store, v.freeList, v.assignedList, v.suballoc
  {
    && v.suballoc.ample && v.suballoc.reliable && v.fat.Reliable() && off > 0 && !v.suballoc.Refuses(off)
    && match src
       case FromCluster(c) => c < v.Mounted && c !in v.store.flaky && off <= v.store.ClusterSize
       case FromRecord(rec) => IsSuballoc(rec) && off <= v.suballoc.GetSuballocSize(rec)
  }

  /** There is no cluster left for the records. */
  ghost predicate Full(v: Volume, s: VolState)
  {
    WellFormed(v.segments, s) && Picked(v.segments, s) == EOF
  }

  /** The first `off` bytes copied into a new record; 0 if there is no workspace, no record, or a short copy. */
  method CopyToRecord(v: Volume, src: Source, off: ulong) returns (rec: ulong)
    requires v.Valid() && v.RecordsHoused() && (src.FromRecord? ==> src.rec in v.suballoc.Used)
    modifies v, v.fat, v.store, v.freeList, v.suballoc
    ensures v.Valid() && v.RecordsHoused() && v.fat.Lay == old(v.fat.Lay)
    ensures v.fat.Reliable() ==> Grows(v.segments, old(v.View()), v.View())
    ensures OthersKept(old(v.Snapshot()), v.Snapshot())
    ensures SameDataBut(v.fat.Lay, v.suballoc.Clusters, old(v.store.bytes), v.store.bytes)
    ensures rec == 0 ==> v.suballoc.Used == old(v.suballoc.Used)
    ensures rec != 0 ==> IsSuballoc(rec) && rec !in old(v.suballoc.Used) && v.suballoc.Used == old(v.suballoc.Used) + {rec}
    ensures rec != 0 ==> v.suballoc.Known(rec) && SameStart(v.suballoc.Contents(rec), old(SourceBytes(v, src)), off, v.suballoc.reliable)
    ensures v.suballoc.reliable ==> forall r :: r in old(v.suballoc.Used) ==> v.suballoc.Contents(r) == old(v.suballoc.Contents(r))
    ensures forall r :: old(v.suballoc.Known(r)) ==> v.suballoc.Known(r)
    ensures v.fat.Reliable() ==> (old(v.fat.InSync()) ==> v.fat.InSync())
    ensures old(Unhindered(v, src, off)) ==> rec != 0 || Full(v, v.View())
  {
    hide FatTable.Valid, FatTable.InSync, BitBlockList.Valid, SuballocPool.Valid, SuballocPool.Known, SuballocPool.Contents, Grows, OthersKept,
      SameDataBut, Housed, Picked, SuballocPool.Refuses, SuballocPool.Extends, SuballocPool.Next, BinFor, Splice;
    GrowsNot(v.segments, v.View());
    NothingTaken(v.Snapshot());
    SameDataButSelf(v.fat.Lay, v.suballoc.Clusters, v.store.bytes);
    var workspace: bool := *;
    if !workspace && !v.suballoc.ample { return 0; }
    rec := v.suballoc.AllocateSuballocRecord(off);
    if rec == 0 { return; }
    var buf: seq<byte>, code: ulong;
    match src {
      case FromCluster(c) => buf, code := v.store.ReadClusterWithOffset(c, 0, off);
      case FromRecord(r) => buf := v.suballoc.ReadSuballocRecord(r, off);
    }
    if |buf| != off {
      FreeRecord(v, rec);
      return 0;
    }
    var n := v.WriteSuballocRecord(rec, buf);
    if n != off {
      FreeRecord(v, rec);
      return 0;
    }
  }

  /** A file that a record write cannot disturb: allocated, outside the FAT and the records, not ending in a free cluster. */
  ghost predicate FileHoused(lay: seq<MirrorLru>, a: Shot, cs: seq<ulong>, tail: ulong) {
    && Housed(lay, a.bits, a.records) && tail >= |a.bits|
    && forall c :: c in cs ==> Foreign(a, c) && OutsideFat(lay, c)
  }

  lemma StillFileHoused(lay: seq<MirrorLru>, a: Shot, b: Shot, cs: seq<ulong>, tail: ulong)
    requires FileHoused(lay, a, cs, tail) && OthersKept(a, b) && Housed(lay, b.bits, b.records)
    ensures FileHoused(lay, b, cs, tail) && |a.flat| == |b.flat| && |a.mirror| == |b.mirror|
    ensures forall c :: c in cs ==> c < |a.flat| && c < |a.mirror| && a.flat[c] == b.flat[c] && a.mirror[c] == b.mirror[c]
  {
  }

  /** CopyToRecord beside a file: its chain and its entries stay. */
  method CopyBeside(v: Volume, src: Source, off: ulong, ghost head: ulong, ghost cs: seq<ulong>, ghost tail: ulong) returns (rec: ulong)
    requires v.Valid() && v.Readable(cs, tail) && Chain(v.Table(), head, cs, tail) && FileHoused(v.fat.Lay, v.Snapshot(), cs, tail)
    requires src.FromRecord? ==> src.rec in v.suballoc.Used
    modifies v, v.fat, v.store, v.freeList, v.suballoc
    ensures v.Valid() && v.Readable(cs, tail) && Chain(v.Table(), head, cs, tail) && FileHoused(v.fat.Lay, v.Snapshot(), cs, tail)
    ensures v.fat.Lay == old(v.fat.Lay) && |v.View().fat| == |old(v.View()).fat|
    ensures forall c :: c in cs && c < v.Mounted ==> v.Table()[c] == old(v.Table())[c]
    ensures v.fat.Reliable() ==> Growth(v.segments, old(v.View()), v.View(), cs)
    ensures OthersKept(old(v.Snapshot()), v.Snapshot())
    ensures SameDataBut(v.fat.Lay, v.suballoc.Clusters, old(v.store.bytes), v.store.bytes)
    ensures rec == 0 ==> v.suballoc.Used == old(v.suballoc.Used)
    ensures rec != 0 ==> IsSuballoc(rec) && rec !in old(v.suballoc.Used) && v.suballoc.Used == old(v.suballoc.Used) + {rec}
    ensures rec != 0 ==> v.suballoc.Known(rec) && SameStart(v.suballoc.Contents(rec), old(SourceBytes(v, src)), off, v.suballoc.reliable)
    ensures v.suballoc.reliable ==> forall r :: r in old(v.suballoc.Used) ==> v.suballoc.Contents(r) == old(v.suballoc.Contents(r))
    ensures forall r :: old(v.suballoc.Known(r)) ==> v.suballoc.Known(r)
    ensures v.fat.Reliable() ==> (old(v.fat.InSync()) ==> v.fat.InSync())
    ensures old(Unhindered(v, src, off)) ==> rec != 0 || Full(v, v.View())
  {
    hide FatTable.Valid, FatTable.InSync, BitBlockList.Valid, SuballocPool.Valid, SuballocPool.Known, SuballocPool.Contents, Grows, OthersKept, SameDataBut,
      Walk, Foreign, SameStart, SourceBytes;
    ghost var was, fat := v.Snapshot(), v.Table();
    rec := CopyToRecord(v, src, off);
    StillFileHoused(v.fat.Lay, was, v.Snapshot(), cs, tail);
    ChainStays(fat, v.Table(), head, cs, tail);
  }

  // ---- ending the chain ------------------------------------------------------

  /** What follows the new end is still a chain of its own. */
  lemma RestAfterEnd(s: VolState, head: ulong, cs: seq<ulong>, tail: ulong, n: nat, link: ulong)
    requires |s.fat| == |s.bits| && Chain(s.fat, head, cs, tail) && InBits(s, cs) && n <= |cs|
    ensures var c, t := if n < |cs| then cs[n] else tail, Ended(s, cs, n, link);
      Chain(t.fat, c, cs[n..], tail) && (c < |s.fat| ==> t.fat[c] == s.fat[c])
    ensures SameOutside(s, Ended(s, cs, n, link), cs)
  {
    var c, t := if n < |cs| then cs[n] else tail, Ended(s, cs, n, link);
    ChainAcyclic(s.fat, head, cs, tail);
    WalkSplit(s.fat, head, cs, tail, n);
    WalkLive(s.fat, head, cs, tail);
    forall d | d in cs[n..] && d < |s.fat| ensures t.fat[d] == s.fat[d] {}
    WalkFrame(s.fat, t.fat, c, cs[n..], tail);
  }

  /** The cluster before the cut gets the new link, or the head does when there is none. */
  method LinkPrev(v: Volume, prev: Option<ulong>, head: ulong, link: ulong, ghost cs: seq<ulong>, ghost tail: ulong, ghost n: nat)
    returns (code: ulong, newHead: ulong)
    requires v.Valid() && v.Readable(cs, tail) && link != 0 && InBits(v.View(), cs) && n <= |cs|
    requires prev == if n == 0 then None else Some(cs[n - 1])
    modifies v.fat, v.store
    ensures v.Valid() && v.fat.Lay == old(v.fat.Lay) && SameOutside(old(v.View()), v.View(), cs)
    ensures SameData(v.fat.Lay, old(v.store.bytes), v.store.bytes)
    ensures code == 0 ==> v.Readable(cs, tail) && v.View() == Ended(old(v.View()), cs, n, link)
    ensures code == 0 ==> newHead == if n == 0 then link else head
    ensures v.fat.Reliable() ==> code == 0
    ensures (code == 0 || code == VOLUME_CORRUPT) && (code == 0 ==> (old(v.fat.InSync()) ==> v.fat.InSync()))
  {
    hide FatTable.Valid, FatTable.InSync, BitBlockList.Valid, SuballocPool.Valid, Volume.SameCopies;
    if prev == None { return 0, link; }
    assert prev.value in cs;
    newHead := head;
    code := v.SetClusterValue(prev.value, link);
    if code != 0 { code := VOLUME_CORRUPT; }
  }

  /** The chain ends before `cluster`, and everything from there on is freed. */
  method EndAndFree(v: Volume, prev: Option<ulong>, head: ulong, link: ulong, cluster: ulong, e: Option<FatEntry>,
                    lru: Option<MirrorLru>, sa: bool, ghost cs: seq<ulong>, ghost tail: ulong, ghost n: nat)
    returns (code: ulong, newHead: ulong)
    requires v.Valid() && v.Readable(cs, tail) && link != 0 && Chain(v.Table(), head, cs, tail) && InBits(v.View(), cs) && n < |cs|
    requires prev == (if n == 0 then None else Some(cs[n - 1])) && cluster == cs[n]
    requires e == Some(v.Table()[cluster]) && v.LruFor(cluster, lru)
    modifies v, v.fat, v.store, v.freeList, v.suballoc`Used, v.suballoc`Search
    ensures v.Valid() && v.fat.Lay == old(v.fat.Lay) && SameOutside(old(v.View()), v.View(), cs)
    ensures SameData(v.fat.Lay, old(v.store.bytes), v.store.bytes)
    ensures v.fat.Reliable() ==> v.View() == Cut(v.segments, old(v.View()), cs, n, link)
    ensures v.fat.Reliable() ==> newHead == (if n == 0 then link else head) && code == TailCode(tail, sa)
    ensures v.fat.Reliable() ==> v.suballoc.Used == old(v.suballoc.Used) - Dropped(v.suballoc, tail, sa)
    ensures v.fat.Reliable() || code != VOLUME_CORRUPT ==> (old(v.fat.InSync()) ==> v.fat.InSync())
  {
    hide FatTable.Valid, FatTable.InSync, BitBlockList.Valid, SuballocPool.Valid, Volume.SameCopies, SameOutside, SameData, Ended, Walk;
    ghost var s, bytes := v.View(), v.store.bytes;
    RestAfterEnd(s, head, cs, tail, n, link);
    code, newHead := LinkPrev(v, prev, head, link, cs, tail, n);
    if code != 0 {
      if IsSuballoc(link) { FreeRecord(v, link); }
      return;
    }
    ghost var t, bytes1 := v.View(), v.store.bytes;
    code := FreeChain(v, cluster, e, lru, sa, cs[n..], tail);
    SameDataTwice(v.fat.Lay, bytes, bytes1, v.store.bytes);
    OutsideWidens(s, t, v.View(), cs, n);
  }

  /** DontSuballocate: this cluster becomes the last, the rest is freed. */
  method KeepWhole(v: Volume, head: ulong, cluster0: ulong, e0: Option<FatEntry>, sa: bool, ghost cs: seq<ulong>, ghost tail: ulong, ghost p: nat)
    returns (code: ulong, newHead: ulong)
    requires v.Valid() && v.Readable(cs, tail) && Chain(v.Table(), head, cs, tail) && InBits(v.View(), cs)
    requires p < |cs| && cluster0 == cs[p] && e0 == Some(v.Table()[cluster0])
    modifies v, v.fat, v.store, v.freeList, v.suballoc`Used, v.suballoc`Search
    ensures v.Valid() && v.fat.Lay == old(v.fat.Lay) && SameOutside(old(v.View()), v.View(), cs)
    ensures SameData(v.fat.Lay, old(v.store.bytes), v.store.bytes)
    ensures v.fat.Reliable() ==> v.View() == Cut(v.segments, old(v.View()), cs, p + 1, EOF) && newHead == head
    ensures v.fat.Reliable() ==> code == if p + 1 == |cs| then 0 else TailCode(tail, sa)
    ensures v.fat.Reliable() ==> v.suballoc.Used == old(v.suballoc.Used) - (if p + 1 == |cs| then {} else Dropped(v.suballoc, tail, sa))
    ensures v.fat.Reliable() || code != VOLUME_CORRUPT ==> (old(v.fat.InSync()) ==> v.fat.InSync())
  {
    hide FatTable.Valid, FatTable.InSync, BitBlockList.Valid, SuballocPool.Valid, Volume.SameCopies, SameOutside, SameData, Ended, Walk;
    ghost var s, bytes := v.View(), v.store.bytes;
    RestAfterEnd(s, head, cs, tail, p + 1, EOF);
    WalkAt(s.fat, head, cs, tail, p);
    code, newHead := LinkPrev(v, Some(cluster0), head, EOF, cs, tail, p + 1);
    if code != 0 { return; }
    ghost var t, bytes1 := v.View(), v.store.bytes;
    var cluster := e0.value.FATCluster;
    assert cluster in cs || cluster == tail;
    var e, lru := v.GetFatEntryAndLRU(cluster);
    code := FreeChain(v, cluster, e, lru, sa, cs[p + 1..], tail);
    SameDataTwice(v.fat.Lay, bytes, bytes1, v.store.bytes);
    OutsideWidens(s, t, v.View(), cs, p + 1);
  }

  /** Clusters kept, and the new end, with a record for the partial cluster or without (0). */
  function KeptBy(p: nat, rec: ulong): nat {
    if rec != 0 then p else p + 1
  }

  function LinkBy(rec: ulong): ulong {
    if rec != 0 then rec else EOF
  }

  /** The chain ends in the record, if there is one, or after this cluster. */
  method EndPartial(v: Volume, prev: Option<ulong>, head: ulong, rec: ulong, cluster: ulong, e: Option<FatEntry>,
                    lru: Option<MirrorLru>, sa: bool, ghost cs: seq<ulong>, ghost tail: ulong, ghost p: nat)
    returns (code: ulong, newHead: ulong)
    requires v.Valid() && v.Readable(cs, tail) && Chain(v.Table(), head, cs, tail) && InBits(v.View(), cs) && p < |cs|
    requires prev == (if p == 0 then None else Some(cs[p - 1])) && cluster == cs[p]
    requires e == Some(v.Table()[cluster]) && v.LruFor(cluster, lru)
    modifies v, v.fat, v.store, v.freeList, v.suballoc`Used, v.suballoc`Search
    ensures v.Valid() && v.fat.Lay == old(v.fat.Lay) && SameOutside(old(v.View()), v.View(), cs)
    ensures SameData(v.fat.Lay, old(v.store.bytes), v.store.bytes)
    ensures v.fat.Reliable() ==> v.View() == Cut(v.segments, old(v.View()), cs, KeptBy(p, rec), LinkBy(rec))
    ensures v.fat.Reliable() ==> newHead == (if KeptBy(p, rec) == 0 then rec else head)
    ensures v.fat.Reliable() ==> code == if KeptBy(p, rec) == |cs| then 0 else TailCode(tail, sa)
    ensures v.fat.Reliable() ==>
      v.suballoc.Used == old(v.suballoc.Used) - (if KeptBy(p, rec) == |cs| then {} else Dropped(v.suballoc, tail, sa))
    ensures v.fat.Reliable() || code != VOLUME_CORRUPT ==> (old(v.fat.InSync()) ==> v.fat.InSync())
  {
    hide FatTable.Valid, FatTable.InSync, BitBlockList.Valid, SuballocPool.Valid, Volume.SameCopies, SameOutside, SameData, Cut, Walk, SuballocPool.Known,
      Volume.Valid, TailCode;
    if rec != 0 {
      code, newHead := EndAndFree(v, prev, head, rec, cluster, e, lru, sa, cs, tail, p);
    } else {
      code, newHead := KeepWhole(v, head, cluster, e, sa, cs, tail, p);
    }
  }

  // ---- the frame -------------------------------------------------------------

  /** What stays as it was: everything but cs and, if records are written, the records' clusters and the free space. */
  ghost predicate Outside(a: VolState, b: VolState, cs: seq<ulong>, sa: bool, records: set<ulong>) {
    && |a.fat| == |b.fat| && |a.bits| == |b.bits| == |a.fat|
    && forall c: ulong :: c < |a.fat| && c !in cs && (sa ==> a.bits[c] && c !in records) ==> a.fat[c] == b.fat[c] && a.bits[c] == b.bits[c]
  }

  /** The clusters outside the FAT that a truncation may write to. */
  ghost function Written(v: Volume, sa: bool): set<ulong>
    reads v.suballoc`Clusters
  {
    if sa then v.suballoc.Clusters else {}
  }

  lemma ExactOutside(lay: seq<MirrorLru>, a: VolState, b: VolState, cs: seq<ulong>, sa: bool, records: set<ulong>, K: set<ulong>,
                     was: seq<seq<byte>>, now: seq<seq<byte>>)
    requires SameOutside(a, b, cs) && SameData(lay, was, now)
    ensures Outside(a, b, cs, sa, records) && SameDataBut(lay, K, was, now)
  {
  }

  /** A record was written, then the file's own clusters changed. */
  lemma OutsideAfterCopy(a: Shot, b: Shot, s: VolState, m: VolState, t: VolState, cs: seq<ulong>)
    requires OthersKept(a, b) && SameOutside(m, t, cs) && |s.bits| == |s.fat| <= |a.mirror|
    requires s.bits == a.bits && |s.fat| <= |a.flat| && s.fat == a.flat[..|s.fat|]
    requires m.bits == b.bits && |m.fat| == |s.fat| <= |b.flat| && m.fat == b.flat[..|m.fat|]
    ensures Outside(s, t, cs, true, a.records)
  {
    forall c: ulong | c < |s.fat| && c !in cs && s.bits[c] && c !in a.records ensures s.fat[c] == t.fat[c] && s.bits[c] == t.bits[c] {
      assert Foreign(a, c);
    }
  }

  /** Cutting a file leaves the FAT and the records housed. */
  lemma HousedAfterCut(lay: seq<MirrorLru>, a: Shot, m: VolState, t: VolState, cs: seq<ulong>, tail: ulong)
    requires FileHoused(lay, a, cs, tail) && SameOutside(m, t, cs) && m.bits == a.bits && |a.bits| <= MARKER
    ensures Housed(lay, t.bits, a.records) && forall c :: c in cs ==> c !in a.records
  {
    forall c: ulong | c < |a.bits| && a.bits[c] && c !in cs ensures t.bits[c] {}
    assert forall b :: 0 <= b < |lay| ==> lay[b].Cluster1 !in cs && lay[b].Cluster2 !in cs;
  }

  lemma SameDataWidens(lay: seq<MirrorLru>, K: set<ulong>, a: seq<seq<byte>>, b: seq<seq<byte>>, c: seq<seq<byte>>)
    requires SameDataBut(lay, K, a, b) && SameData(lay, b, c)
    ensures SameDataBut(lay, K, a, c)
  {
  }

  lemma NothingCopied(segs: seq<Segment>, lay: seq<MirrorLru>, s: VolState, a: Shot, cs: seq<ulong>, K: set<ulong>, bytes: seq<seq<byte>>)
    requires WellFormed(segs, s)
    ensures Growth(segs, s, s, cs) && OthersKept(a, a) && SameDataBut(lay, K, bytes, bytes)
  {
    hide Leads;
    GrowsNot(segs, s);
  }

  lemma Untouched(segs: seq<Segment>, lay: seq<MirrorLru>, s: VolState, a: Shot, cs: seq<ulong>, tail: ulong, sa: bool, K: set<ulong>, bytes: seq<seq<byte>>)
    requires WellFormed(segs, s) && (sa ==> FileHoused(lay, a, cs, tail))
    ensures Outside(s, s, cs, sa, a.records) && SameDataBut(lay, K, bytes, bytes)
    ensures sa ==> Housed(lay, a.bits, a.records) && forall c :: c in cs ==> c !in a.records
  {
  }

  /** Only the file's own clusters changed, and no bytes outside the FAT. */
  lemma Exactly(lay: seq<MirrorLru>, s: VolState, t: VolState, a: Shot, cs: seq<ulong>, tail: ulong, sa: bool, K: set<ulong>,
                was: seq<seq<byte>>, now: seq<seq<byte>>)
    requires SameOutside(s, t, cs) && SameData(lay, was, now) && s.bits == a.bits && |a.bits| <= MARKER
    requires sa ==> FileHoused(lay, a, cs, tail)
    ensures Outside(s, t, cs, sa, a.records) && SameDataBut(lay, K, was, now)
    ensures sa ==> Housed(lay, t.bits, a.records) && forall c :: c in cs ==> c !in a.records
  {
    hide Housed;
    if sa { HousedAfterCut(lay, a, s, t, cs, tail); }
  }

  // ---- the record at the end -------------------------------------------------

  /** The target lies in the record at the end: drop it, replace it by a smaller one, or leave it. */
  method CutTail(v: Volume, prev: Option<ulong>, head: ulong, rec: ulong, off: ulong, ghost cs: seq<ulong>)
    returns (code: ulong, newHead: ulong, ghost link: ulong, ghost mid: VolState)
    requires v.Valid() && v.Readable(cs, rec) && Chain(v.Table(), head, cs, rec) && InBits(v.View(), cs)
    requires prev == if cs == [] then None else Some(cs[|cs| - 1])
    requires IsSuballoc(rec) && rec in v.suballoc.Used && v.suballoc.Known(rec) && FileHoused(v.fat.Lay, v.Snapshot(), cs, rec)
    modifies v, v.fat, v.store, v.freeList, v.suballoc
    ensures v.Valid() && v.fat.Lay == old(v.fat.Lay) && Outside(old(v.View()), v.View(), cs, true, old(v.suballoc.Clusters))
    ensures SameDataBut(v.fat.Lay, v.suballoc.Clusters, old(v.store.bytes), v.store.bytes)
    ensures v.RecordsHoused() && forall c :: c in cs ==> c !in v.suballoc.Clusters
    ensures v.fat.Reliable() ==> Growth(v.segments, old(v.View()), mid, cs)
    ensures v.fat.Reliable() ==> code == 0 && InBits(mid, cs) && v.View() == Ended(mid, cs, |cs|, link)
    ensures v.fat.Reliable() ==> newHead == if cs == [] then link else head
    ensures v.fat.Reliable() ==> v.suballoc.Used == Replaced(old(v.suballoc.Used), rec, link)
    ensures v.suballoc.Known(rec)
    ensures v.fat.Reliable() ==> TailKept(rec, old(v.suballoc.Contents(rec)), link, v.suballoc.Contents(link), off, v.suballoc.reliable)
    ensures v.fat.Reliable() ==> (old(v.fat.InSync()) ==> v.fat.InSync())
    ensures off != 0 && off + (SUBALLOC_BLOCK_SIZE - 1) < v.suballoc.GetSuballocSize(rec) && old(Unhindered(v, FromRecord(rec), off)) ==>
      (IsSuballoc(link) && link != rec) || Full(v, mid)
  {
    hide FatTable.Valid, FatTable.InSync, BitBlockList.Valid, SuballocPool.Valid, Volume.SameCopies, SameOutside, SameData, Ended, Walk,
      SuballocPool.Contents, SuballocPool.Known, Bin, Outside, SameDataBut, FileHoused, OthersKept, Growth, SameStart;
    ghost var s, a, bytes := v.View(), v.Snapshot(), v.store.bytes;
    NothingCopied(v.segments, v.fat.Lay, s, a, cs, v.suballoc.Clusters, bytes);
    v.suballoc.SizeOfKnown(rec);
    code, newHead, link := 0, head, rec;
    var next := if off == 0 then EOF else rec;
    if off != 0 && off + (SUBALLOC_BLOCK_SIZE - 1) < v.suballoc.GetSuballocSize(rec) {
      var small := CopyBeside(v, FromRecord(rec), off, head, cs, rec);
      if small != 0 { next := small; }
    }
    ghost var b, bytes1 := v.Snapshot(), v.store.bytes;
    mid := v.View();
    OutsideSelf(mid, cs);
    SameDataSelf(v.fat.Lay, bytes1);
    EndedAtTail(v.segments, mid, head, cs, rec);
    if next != rec {
      link := next;
      code, newHead := LinkPrev(v, prev, head, next, cs, rec, |cs|);
      if code == 0 { FreeRecord(v, rec); } else if IsSuballoc(next) { FreeRecord(v, next); }
    }
    OutsideAfterCopy(a, b, s, mid, v.View(), cs);
    HousedAfterCut(v.fat.Lay, b, mid, v.View(), cs, rec);
    SameDataWidens(v.fat.Lay, v.suballoc.Clusters, bytes, bytes1, v.store.bytes);
  }

  // ---- the routine -----------------------------------------------------------

  /** The goal of a truncation of volume v. */
  ghost function GoalOf(v: Volume, fi: nat, off: nat, sa: bool): Goal {
    Goal(fi, off, sa, !sa || v.suballoc.reliable, v.store.ClusterSize)
  }

  ghost function FileOf(v: Volume, head: ulong, cs: seq<ulong>, tail: ulong): File
    reads v.suballoc`Data
  {
    File(head, cs, tail, v.suballoc.Contents(tail))
  }

  /** What a truncation finds: the bookkeeping, the bytes, the records in use, and the clusters of the records. */
  datatype Start = Start(s: VolState, bytes: seq<seq<byte>>, used: set<ulong>, records: set<ulong>)

  ghost function StartOf(v: Volume): Start
    requires v.Valid()
    reads v, v.fat, v.store, v.freeList, v.assignedList, v.suballoc
  {
    Start(v.View(), v.store.bytes, v.suballoc.Used, v.suballoc.Clusters)
  }

  /** What every truncation leaves alone, I/O errors or not. */
  ghost predicate Framed(v: Volume, w: Start, cs: seq<ulong>, sa: bool)
    requires v.Valid()
    reads v, v.fat, v.store, v.freeList, v.assignedList, v.suballoc
  {
    && Outside(w.s, v.View(), cs, sa, w.records)
    && SameDataBut(v.fat.Lay, Written(v, sa), w.bytes, v.store.bytes)
    && (sa ==> v.RecordsHoused() && forall c :: c in cs ==> c !in v.suballoc.Clusters)
  }

  /** Chain, bookkeeping and records are as outcome o says. */
  ghost predicate Done(v: Volume, w: Start, f: File, g: Goal, o: Outcome, code: ulong, newHead: ulong)
    requires v.Valid()
    reads v, v.fat, v.store, v.freeList, v.assignedList, v.suballoc
  {
    && code == o.code && newHead == o.newHead && o.newRec == v.suballoc.Contents(o.link)
    && Truncated(v.segments, w.s, v.View(), w.bytes, f, g, o)
    && v.suballoc.Used == UsedAfter(w.used, Dropped(v.suballoc, f.tail, g.sa), Leaky(w.s.fat, f, g, o), f.tail, o.link)
  }

  /** A record is to be made for file f, and nothing stands in the way. */
  ghost predicate Recordable(v: Volume, f: File, g: Goal)
    requires v.Valid()
    reads v, v.fat, v.store, v.freeList, v.assignedList, v.suballoc
  {
    InTable(v.Table(), f.cs) && UsesRecord(v.Table(), f, g) &&
    var p := Below(v.Table(), f.cs, g.fi, 0);
    Unhindered(v, if p < |f.cs| then FromCluster(f.cs[p]) else FromRecord(f.tail), g.off)
  }

  lemma RecordableIs(v: Volume, f: File, g: Goal)
    requires v.Valid()
    ensures Recordable(v, f, g) ==> v.fat.Reliable() && InTable(v.Table(), f.cs) && UsesRecord(v.Table(), f, g)
  {
    hide FatTable.Valid, BitBlockList.Valid, SuballocPool.Valid, UsesRecord;
  }

  /** A new record ends the chain, unless the volume ran full. */
  ghost predicate HasRecord(v: Volume, f: File, o: Outcome) {
    (IsSuballoc(o.link) && o.link != f.tail) || Full(v, o.mid)
  }

  lemma OthersSized(a: Shot, b: Shot)
    requires OthersKept(a, b)
    ensures |a.bits| == |b.bits|
  {
  }

  lemma FramedAfterCopy(v: Volume, w: Start, a: Shot, b: Shot, m: VolState, bytes: seq<seq<byte>>, cs: seq<ulong>, tail: ulong, sa: bool)
    requires v.Valid() && SameOutside(m, v.View(), cs) && SameData(v.fat.Lay, bytes, v.store.bytes)
    requires |w.s.bits| == |w.s.fat| <= |a.mirror| && w.s.bits == a.bits && |w.s.fat| <= |a.flat| && w.s.fat == a.flat[..|w.s.fat|]
    requires m.bits == b.bits && |m.fat| == |w.s.fat| <= |b.flat| && m.fat == b.flat[..|m.fat|]
    requires w.records == a.records && v.suballoc.Clusters == b.records && |w.s.bits| <= MARKER
    requires if sa then FileHoused(v.fat.Lay, b, cs, tail) && OthersKept(a, b) && SameDataBut(v.fat.Lay, b.records, w.bytes, bytes)
             else w.s == m && w.bytes == bytes
    ensures Framed(v, w, cs, sa)
  {
    hide FatTable.Valid, FatTable.InSync, BitBlockList.Valid, SuballocPool.Valid, FileHoused, OthersKept, Housed, SameOutside, SameData, SameDataBut, Outside;
    var t := v.View();
    if sa {
      OthersSized(a, b);
      OutsideAfterCopy(a, b, w.s, m, t, cs);
      HousedAfterCut(v.fat.Lay, b, m, t, cs, tail);
      SameDataWidens(v.fat.Lay, b.records, w.bytes, bytes, v.store.bytes);
    } else {
      ExactOutside(v.fat.Lay, w.s, t, cs, sa, a.records, {}, w.bytes, v.store.bytes);
    }
  }

  /** Nothing was changed. */
  lemma FramedBySelf(v: Volume, cs: seq<ulong>, tail: ulong, sa: bool)
    requires v.Valid() && (sa ==> FileHoused(v.fat.Lay, v.Snapshot(), cs, tail))
    ensures Framed(v, StartOf(v), cs, sa)
  {
    hide FatTable.Valid, FatTable.InSync, BitBlockList.Valid, SuballocPool.Valid, Housed;
  }

  /** The target is the record at the end of the chain. */
  method ReplaceTail(v: Volume, prev: Option<ulong>, head: ulong, rec: ulong, fi: ulong, off: ulong, ghost cs: seq<ulong>)
    returns (code: ulong, newHead: ulong, ghost o: Outcome)
    requires v.Valid() && v.Readable(cs, rec) && Chain(v.Table(), head, cs, rec) && InBits(v.View(), cs)
    requires prev == if cs == [] then None else Some(cs[|cs| - 1])
    requires IsSuballoc(rec) && rec in v.suballoc.Used && v.suballoc.Known(rec) && FileHoused(v.fat.Lay, v.Snapshot(), cs, rec)
    requires Below(v.Table(), cs, fi, 0) == |cs| && TailIndex(v.Table(), cs) == fi
    modifies v, v.fat, v.store, v.freeList, v.suballoc
    ensures v.Valid() && v.fat.Lay == old(v.fat.Lay) && Framed(v, old(StartOf(v)), cs, true)
    ensures v.fat.Reliable() ==> Done(v, old(StartOf(v)), old(FileOf(v, head, cs, rec)), GoalOf(v, fi, off, true), o, code, newHead)
    ensures v.fat.Reliable() ==> (old(v.fat.InSync()) ==> v.fat.InSync())
    ensures old(Recordable(v, FileOf(v, head, cs, rec), GoalOf(v, fi, off, true))) ==> HasRecord(v, old(FileOf(v, head, cs, rec)), o)
  {
    hide FatTable.Valid, FatTable.InSync, BitBlockList.Valid, SuballocPool.Valid, Volume.SameCopies, Outside, SameDataBut, Ended, Walk, SuballocPool.Contents,
      SuballocPool.Known, Bin, Cut, Below, Truncated, UsedAfter, Replaced, TailKept, Chain, FileHoused, Growth, Housed;
    ghost var s, bytes, used := v.View(), v.store.bytes, v.suballoc.Used;
    ghost var f, g := File(head, cs, rec, v.suballoc.Contents(rec)), GoalOf(v, fi, off, true);
    ghost var link, mid;
    code, newHead, link, mid := CutTail(v, prev, head, rec, off, cs);
    o := Outcome(code, newHead, |cs|, link, v.suballoc.Contents(link), mid);
    if v.fat.Reliable() { TailCut(v.segments, s, v.View(), bytes, f, g, o, used); }
  }

  /** A record with the first `off` bytes of the cluster, unless there is a hole before it, records are not allowed, or it would be no smaller. */
  method RecordFor(v: Volume, noHole: bool, cluster: ulong, off: ulong, sa: bool, ghost head: ulong, ghost cs: seq<ulong>, ghost tail: ulong)
    returns (rec: ulong)
    requires v.Valid() && v.Readable(cs, tail) && Chain(v.Table(), head, cs, tail) && InBits(v.View(), cs)
    requires sa ==> FileHoused(v.fat.Lay, v.Snapshot(), cs, tail)
    modifies v, v.fat, v.store, v.freeList, v.suballoc
    ensures v.Valid() && v.Readable(cs, tail) && Chain(v.Table(), head, cs, tail) && v.fat.Lay == old(v.fat.Lay)
    ensures forall c :: c in cs && c < v.Mounted ==> v.Table()[c] == old(v.Table())[c]
    ensures v.fat.Reliable() ==> Grown(v.segments, old(v.View()), v.View(), cs, sa)
    ensures sa ==> FileHoused(v.fat.Lay, v.Snapshot(), cs, tail) && OthersKept(old(v.Snapshot()), v.Snapshot())
    ensures sa ==> SameDataBut(v.fat.Lay, v.suballoc.Clusters, old(v.store.bytes), v.store.bytes)
    ensures !sa ==> rec == 0 && v.View() == old(v.View()) && v.store.bytes == old(v.store.bytes)
    ensures rec == 0 ==> v.suballoc.Used == old(v.suballoc.Used)
    ensures rec != 0 ==> noHole && off + (SUBALLOC_BLOCK_SIZE - 1) < v.store.ClusterSize
    ensures rec != 0 ==> IsSuballoc(rec) && rec !in old(v.suballoc.Used) && v.suballoc.Used == old(v.suballoc.Used) + {rec}
    ensures rec != 0 ==> SameStart(v.suballoc.Contents(rec), old(SourceBytes(v, FromCluster(cluster))), off, v.suballoc.reliable)
    ensures forall r :: old(v.suballoc.Known(r)) ==> v.suballoc.Known(r)
    ensures v.fat.Reliable() || !sa ==> (old(v.fat.InSync()) ==> v.fat.InSync())
    ensures noHole && sa && off + (SUBALLOC_BLOCK_SIZE - 1) < v.store.ClusterSize && old(Unhindered(v, FromCluster(cluster), off)) ==>
      rec != 0 || Full(v, v.View())
  {
    hide FatTable.Valid, FatTable.InSync, BitBlockList.Valid, SuballocPool.Valid, Volume.SameCopies, SameDataBut, SuballocPool.Contents, SuballocPool.Known,
      FileHoused, OthersKept, Walk, Housed, Growth, SameStart, SourceBytes, Volume.Valid;
    NothingCopied(v.segments, v.fat.Lay, v.View(), v.Snapshot(), cs, v.suballoc.Clusters, v.store.bytes);
    rec := 0;
    if noHole && sa && off + (SUBALLOC_BLOCK_SIZE - 1) < v.store.ClusterSize {
      rec := CopyBeside(v, FromCluster(cluster), off, head, cs, tail);
    }
  }

  /** The end of CutPartial is one of the two ways to cut inside a cluster. */
  lemma PartialDone(v: Volume, w: Start, f: File, g: Goal, o: Outcome, p: nat, rec: ulong)
    requires v.Valid() && WellFormed(v.segments, w.s) && PartialAt(w.s.fat, f, g, p)
    requires Grown(v.segments, w.s, o.mid, f.cs, g.sa) && o.n == KeptBy(p, rec) && o.link == LinkBy(rec)
    requires v.View() == Cut(v.segments, o.mid, f.cs, o.n, o.link) && o.newRec == v.suballoc.Contents(o.link)
    requires o.newHead == (if o.n == 0 then rec else f.head) && o.code == if o.n == |f.cs| then 0 else TailCode(f.tail, g.sa)
    requires v.suballoc.Used ==
      w.used + (if rec != 0 then {rec} else {}) - if o.n == |f.cs| then {} else Dropped(v.suballoc, f.tail, g.sa)
    requires IsSuballoc(f.tail) ==> f.tail in w.used
    requires rec != 0 ==> g.sa && !AfterHole(w.s.fat, f.cs, p) && g.off + (SUBALLOC_BLOCK_SIZE - 1) < g.clusterSize
    requires rec != 0 ==> IsSuballoc(rec) && rec !in w.used && f.cs[p] < |w.bytes| && SameStart(o.newRec, w.bytes[f.cs[p]], g.off, g.sure)
    ensures Done(v, w, f, g, o, o.code, o.newHead)
  {
    hide FatTable.Valid, FatTable.InSync, BitBlockList.Valid, SuballocPool.Valid, Cut, Below, Grown, AfterHole, Truncated, SameStart, TailCode, SuballocPool.Contents,
      Volume.Valid, SuballocPool.Known;
    if rec != 0 {
      RecordCut(v.segments, w.s, v.View(), w.bytes, f, g, o, p, w.used, Dropped(v.suballoc, f.tail, g.sa));
    } else {
      WholeCut(v.segments, w.s, v.View(), w.bytes, f, g, o, p, w.used, Dropped(v.suballoc, f.tail, g.sa));
    }
  }

  /** The target is this cluster and only part of it stays: a record takes its place where allowed, else it is kept whole. */
  method CutPartial(v: Volume, prev: Option<ulong>, prevIndex: ulong, head: ulong, cluster: ulong, e: Option<FatEntry>,
                    lru: Option<MirrorLru>, fi: ulong, off: ulong, sa: bool, ghost cs: seq<ulong>, ghost tail: ulong, ghost p: nat)
    returns (code: ulong, newHead: ulong, ghost o: Outcome)
    requires v.Valid() && v.Readable(cs, tail) && Chain(v.Table(), head, cs, tail) && InTable(v.Table(), cs)
    requires p == Below(v.Table(), cs, fi, 0) < |cs| && Index(v.Table(), cs, p) == fi && off != 0
    requires prev == (if p == 0 then None else Some(cs[p - 1])) && cluster == cs[p]
    requires p > 0 ==> prevIndex == Index(v.Table(), cs, p - 1)
    requires e == Some(v.Table()[cluster]) && v.LruFor(cluster, lru)
    requires IsSuballoc(tail) ==> tail in v.suballoc.Used && v.suballoc.Known(tail)
    requires sa ==> FileHoused(v.fat.Lay, v.Snapshot(), cs, tail)
    modifies v, v.fat, v.store, v.freeList, v.suballoc
    ensures v.Valid() && v.fat.Lay == old(v.fat.Lay) && Framed(v, old(StartOf(v)), cs, sa)
    ensures v.fat.Reliable() ==> Done(v, old(StartOf(v)), old(FileOf(v, head, cs, tail)), GoalOf(v, fi, off, sa), o, code, newHead)
    ensures v.fat.Reliable() || (!sa && code != VOLUME_CORRUPT) ==> (old(v.fat.InSync()) ==> v.fat.InSync())
    ensures old(Recordable(v, FileOf(v, head, cs, tail), GoalOf(v, fi, off, sa))) ==> HasRecord(v, old(FileOf(v, head, cs, tail)), o)
  {
    hide Unhindered, Full, FatTable.Valid, FatTable.InSync, BitBlockList.Valid, SuballocPool.Valid, Volume.SameCopies, SameOutside, SameData, Walk, SameDataBut,
      SuballocPool.Contents, SuballocPool.Known, Cut, Below, FileHoused, OthersKept, Grown, SameStart, Volume.Valid, Housed,
      AfterHole, TailCode, Framed, Done;
    ghost var w, a, f, g := StartOf(v), v.Snapshot(), FileOf(v, head, cs, tail), GoalOf(v, fi, off, sa);
    var index := e.value.FATIndex;
    var sparseHead := index != 0 && prev == None;
    var afterHole := prev.Some? && prevIndex + 1 != index;
    HoleSeen(v.Table(), cs, p, prevIndex);
    var rec := RecordFor(v, !sparseHead && !afterHole, cluster, off, sa, head, cs, tail);
    ghost var b, bytes, mid := v.Snapshot(), v.store.bytes, v.View();
    code, newHead := EndPartial(v, prev, head, rec, cluster, e, lru, sa, cs, tail, p);
    FramedAfterCopy(v, w, a, b, mid, bytes, cs, tail, sa);
    o := Outcome(code, newHead, KeptBy(p, rec), LinkBy(rec), v.suballoc.Contents(LinkBy(rec)), mid);
    if v.fat.Reliable() { PartialDone(v, w, f, g, o, p, rec); }
  }

  /** The walk to the first cluster with an index of fi or more, or to the end of the chain. */
  method FindTarget(v: Volume, head: ulong, fi: ulong, ghost cs: seq<ulong>, ghost tail: ulong)
    returns (prev: Option<ulong>, prevIndex: ulong, index: ulong, cluster: ulong, e: Option<FatEntry>, lru: Option<MirrorLru>, ghost p: nat)
    requires v.Valid() && v.Readable(cs, tail) && !IsMarker(head) && Chain(v.Table(), head, cs, tail)
    ensures InTable(v.Table(), cs) && p <= |cs| && prev == (if p == 0 then None else Some(cs[p - 1]))
    ensures e.Some? ==> p < |cs| && p == Below(v.Table(), cs, fi, 0) && cluster == cs[p] && e.value == v.Table()[cluster]
    ensures e.Some? ==> v.LruFor(cluster, lru) && index == Index(v.Table(), cs, p) && (p > 0 ==> prevIndex == Index(v.Table(), cs, p - 1))
    ensures e == None && (v.fat.Reliable() || IsMarker(cluster)) ==> Walking(v.Table(), head, cs, tail, fi, p, cluster) && !Live(v.Table(), cluster)
    ensures e == None && IsMarker(cluster) ==> cs != [] && index == Index(v.Table(), cs, |cs| - 1)
  {
    hide FatTable.Valid, FatTable.InSync, BitBlockList.Valid, SuballocPool.Valid, Volume.SameCopies, Walk, Walking, Below, Chain, Volume.Valid;
    ghost var fat := v.Table();
    WalkingStarts(fat, head, cs, tail, fi);
    prev, prevIndex, index, cluster, p := None, EOF, 0, head, 0;
    WalkingAt(fat, head, cs, tail, fi, p, cluster);
    e, lru := v.GetFatEntryAndLRU(cluster);
    if e.Some? { prevIndex, index := index, e.value.FATIndex; }
    while e.Some? && e.value.FATCluster != 0
      invariant Walking(fat, head, cs, tail, fi, p, cluster) && InTable(fat, cs) && p <= |cs| && !IsMarker(cluster)
      invariant e.Some? ==> cluster < v.Mounted && e.value == fat[cluster] && v.LruFor(cluster, lru) && index == e.value.FATIndex
      invariant v.fat.Reliable() ==> (e.Some? <==> cluster < v.Mounted)
      invariant prev == if p == 0 then None else Some(cs[p - 1])
      invariant e.Some? && p > 0 ==> prevIndex == Index(fat, cs, p - 1)
      decreases |cs| - p
    {
      WalkingMeets(fat, head, cs, tail, fi, p, cluster);
      if index >= fi { return; }
      prev := Some(cluster);
      cluster := e.value.FATCluster;
      p := p + 1;
      WalkingAt(fat, head, cs, tail, fi, p, cluster);
      if IsMarker(cluster) {
        e := None;
        return;
      }
      e, lru := v.GetFatEntryAndLRU(cluster);
      if e.Some? { prevIndex, index := index, e.value.FATIndex; }
    }
    e := None;
  }

  /** Truncation from the head of a cluster chain. */
  method TruncateFrom(v: Volume, head: ulong, fi: ulong, off: ulong, sa: bool, ghost cs: seq<ulong>, ghost tail: ulong)
    returns (code: ulong, newHead: ulong, ghost o: Outcome)
    requires v.Valid() && v.Readable(cs, tail) && !IsMarker(head) && Chain(v.Table(), head, cs, tail)
    requires IsSuballoc(tail) ==> tail in v.suballoc.Used && v.suballoc.Known(tail)
    requires sa ==> FileHoused(v.fat.Lay, v.Snapshot(), cs, tail)
    modifies v, v.fat, v.store, v.freeList, v.suballoc
    ensures v.Valid() && v.fat.Lay == old(v.fat.Lay) && Framed(v, old(StartOf(v)), cs, sa)
    ensures v.fat.Reliable() ==> Done(v, old(StartOf(v)), old(FileOf(v, head, cs, tail)), GoalOf(v, fi, off, sa), o, code, newHead)
    ensures v.fat.Reliable() || (!sa && code != VOLUME_CORRUPT) ==> (old(v.fat.InSync()) ==> v.fat.InSync())
    ensures old(Recordable(v, FileOf(v, head, cs, tail), GoalOf(v, fi, off, sa))) ==> HasRecord(v, old(FileOf(v, head, cs, tail)), o)
  {
    hide Unhindered, Full, Recordable, HasRecord, FatTable.Valid, FatTable.InSync, BitBlockList.Valid, SuballocPool.Valid, Volume.SameCopies, SameOutside, SameData, Outside, SameDataBut, Ended, Walk,
      Walking, SuballocPool.Contents, SuballocPool.Known, Bin, Cut, Below, Truncated, UsedAfter, Replaced, TailKept, Chain, Volume.Valid,
      FileHoused, Growth, Housed, Written;
    ghost var s, bytes, used := v.View(), v.store.bytes, v.suballoc.Used;
    ghost var f, g := File(head, cs, tail, v.suballoc.Contents(tail)), GoalOf(v, fi, off, sa);
    ghost var dropped := Dropped(v.suballoc, tail, sa);
    RecordableIs(v, f, g);
    Untouched(v.segments, v.fat.Lay, s, v.Snapshot(), cs, tail, sa, Written(v, sa), bytes);
    o := Outcome(TailCode(tail, sa), head, |cs|, tail, f.rec, s);
    ghost var p;
    var prev, prevIndex, index, cluster, e, lru;
    prev, prevIndex, index, cluster, e, lru, p := FindTarget(v, head, fi, cs, tail);
    if e.Some? && index == fi && off != 0 {
      code, newHead, o := CutPartial(v, prev, prevIndex, head, cluster, e, lru, fi, off, sa, cs, tail, p);
    } else if e.Some? {
      code, newHead := EndAndFree(v, prev, head, EOF, cluster, e, lru, sa, cs, tail, p);
      o := Outcome(code, newHead, p, EOF, v.suballoc.Contents(EOF), s);
      Exactly(v.fat.Lay, s, v.View(), old(v.Snapshot()), cs, tail, sa, Written(v, sa), bytes, v.store.bytes);
      if v.fat.Reliable() { CutAtBoundary(v.segments, s, v.View(), bytes, f, g, o, used, dropped); }
    } else {
      if v.fat.Reliable() || IsMarker(cluster) { WalkingEnds(s.fat, head, cs, tail, fi, p, cluster); }
      if IsSuballoc(cluster) && sa && index + 1 == fi {
        code, newHead, o := ReplaceTail(v, prev, head, cluster, fi, off, cs);
      } else {
        code, newHead := if IsSuballoc(cluster) && !sa then NOT_PERMITTED else 0, head;
        if v.fat.Reliable() { NothingCut(v.segments, s, bytes, f, g, o, p, cluster, used, dropped); }
      }
    }
  }

  /** A file that is one record, or nothing. */
  method TruncateMarker(v: Volume, head: ulong, fi: ulong, off: ulong, sa: bool) returns (code: ulong, newHead: ulong, ghost o: Outcome)
    requires v.Valid() && v.Readable([], head) && IsMarker(head)
    requires IsSuballoc(head) ==> head in v.suballoc.Used && v.suballoc.Known(head)
    requires sa ==> FileHoused(v.fat.Lay, v.Snapshot(), [], head)
    modifies v, v.fat, v.store, v.freeList, v.suballoc
    ensures v.Valid() && v.fat.Lay == old(v.fat.Lay) && Framed(v, old(StartOf(v)), [], sa)
    ensures v.fat.Reliable() ==> Done(v, old(StartOf(v)), old(FileOf(v, head, [], head)), GoalOf(v, fi, off, sa), o, code, newHead)
    ensures v.fat.Reliable() || (!sa && code != VOLUME_CORRUPT) ==> (old(v.fat.InSync()) ==> v.fat.InSync())
    ensures old(Recordable(v, FileOf(v, head, [], head), GoalOf(v, fi, off, sa))) ==> HasRecord(v, old(FileOf(v, head, [], head)), o)
  {
    hide FatTable.Valid, FatTable.InSync, BitBlockList.Valid, SuballocPool.Valid, Volume.SameCopies, SuballocPool.Contents, SuballocPool.Known, Bin,
      Truncated, UsedAfter, FileHoused, Outside, SameDataBut, Housed, Volume.Valid;
    ghost var w, f, g := StartOf(v), FileOf(v, head, [], head), GoalOf(v, fi, off, sa);
    FramedBySelf(v, [], head, sa);
    code, newHead := if head == EOF || sa then 0 else NOT_PERMITTED, head;
    o := Outcome(TailCode(head, sa), head, 0, head, f.rec, w.s);
    if IsSuballoc(head) && sa && 0 == fi {
      code, newHead, o := ReplaceTail(v, None, head, head, fi, off, []);
    } else {
      TruncatesNothing(v.segments, w.s, w.bytes, f, g, o, w.used, Dropped(v.suballoc, head, sa));
    }
  }

  lemma QuotientFits(n: nat, d: nat)
    requires d > 0
    ensures n / d <= n && n % d <= n
  {
    Locate(n, 0, 0, d);
    StartGrows(n / d, d);
  }

  /** The goal of cutting to so many bytes. */
  ghost function GoalAt(v: Volume, size: nat, sa: bool): Goal
    requires v.store.ClusterSize > 0
  {
    GoalOf(v, size / v.store.ClusterSize, size % v.store.ClusterSize, sa)
  }

  /** The new head leads through the kept clusters, those at or past the new size are free and those below it are not, and every byte of
      the file below the new size still reads the same. */
  ghost predicate FileStays(v: Volume, w: Start, f: File, o: Outcome, size: nat, sa: bool, usesRecord: bool)
    requires v.Valid() && v.store.ClusterSize > 0
    reads v, v.fat, v.store, v.freeList, v.assignedList, v.suballoc
  {
    && InTable(w.s.fat, f.cs) && |v.View().fat| == |w.s.fat| && o.n <= |f.cs|
    && Chain(v.Table(), o.newHead, f.cs[..o.n], o.link)
    && (Ascending(w.s.fat, f.cs) && (forall c :: c in f.cs && c < |w.s.bits| ==> w.s.bits[c]) ==>
      ClustersCutAt(w.s, v.View(), f.cs, v.store.ClusterSize, size, sa))
    && ((!sa || v.suballoc.reliable || !usesRecord) && Ascending(w.s.fat, f.cs) && (forall j :: 0 <= j < |f.cs| ==> OutsideFat(v.fat.Lay, f.cs[j])) ==>
      BytesBelowKept(w.s, v.View(), w.bytes, v.store.bytes, f, o, v.store.ClusterSize, size))
  }

  lemma ItStays(v: Volume, w: Start, f: File, o: Outcome, code: ulong, newHead: ulong, size: nat, sa: bool)
    requires v.Valid() && v.store.ClusterSize > 0 && Done(v, w, f, GoalAt(v, size, sa), o, code, newHead) && Framed(v, w, f.cs, sa)
    requires Chain(w.s.fat, f.head, f.cs, f.tail) && (sa ==> f.tail >= |w.s.fat|)
    ensures InTable(w.s.fat, f.cs) && FileStays(v, w, f, o, size, sa, UsesRecord(w.s.fat, f, GoalAt(v, size, sa)))
    ensures Sound(v.segments, w.s) && SegmentsApart(v.segments) ==> Sound(v.segments, v.View())
  {
    hide FatTable.Valid, BitBlockList.Valid, SuballocPool.Valid, Volume.SameCopies, SameDataBut, Outside, Walk, FileKept, Housed,
      SuballocPool.Contents, Below, Truncated, UsedAfter, Chain, Volume.Valid, Framed, SameBytesOf, Ascending, OutsideFat, Sound,
      SegmentsApart, UsesRecord, BytesBelowKept, ClustersCutAt, Leaky, Dropped, GoalAt;
    var g, t := GoalAt(v, size, sa), v.View();
    GoalFits(v, size, sa);
    BytesStay(v, w, f.cs, sa);
    TruncationKeeps(v.segments, v.fat.Lay, w.s, t, w.bytes, v.store.bytes, f, g, o);
    PositionsKept(v.segments, w.s, t, w.bytes, v.store.bytes, f, g, o, v.store.ClusterSize, size);
  }

  lemma GoalFits(v: Volume, size: nat, sa: bool)
    requires v.store.ClusterSize > 0
    ensures var g := GoalAt(v, size, sa); GoalIs(g, v.store.ClusterSize, size) && g.sa == sa && g.sure == (!sa || v.suballoc.reliable)
  {
  }

  lemma HousedEnds(v: Volume, head: ulong, cs: seq<ulong>, tail: ulong, sa: bool)
    requires v.Valid() && Chain(v.Table(), head, cs, tail) && (sa ==> FileHoused(v.fat.Lay, v.Snapshot(), cs, tail))
    ensures InTable(v.View().fat, cs) && (sa ==> tail >= |v.View().fat|)
  {
    hide FatTable.Valid, FatTable.InSync, BitBlockList.Valid, SuballocPool.Valid, Walk, Housed;
    WalkLive(v.Table(), head, cs, tail);
  }

  lemma BytesStay(v: Volume, w: Start, cs: seq<ulong>, sa: bool)
    requires v.Valid() && Framed(v, w, cs, sa)
    ensures SameBytesOf(v.fat.Lay, cs, w.bytes, v.store.bytes)
  {
    hide FatTable.Valid, FatTable.InSync, BitBlockList.Valid, SuballocPool.Valid, Housed, Outside;
  }

  /** StartIndex and StartOffset. */
  method Position(v: Volume, size: ulong, ghost sa: bool) returns (fi: ulong, off: ulong)
    requires v.store.ClusterSize > 0
    ensures GoalOf(v, fi, off, sa) == GoalAt(v, size, sa)
  {
    QuotientFits(size, v.store.ClusterSize);
    fi, off := size / v.store.ClusterSize, size % v.store.ClusterSize;
  }

  /** Cuts the file to `size` bytes: cs and tail are its chain before, the first o.n clusters and o.link its chain after. */
  method TruncateClusterChain(v: Volume, head: ulong, size: ulong, sa: bool, ghost cs: seq<ulong>, ghost tail: ulong)
    returns (code: ulong, newHead: ulong, ghost o: Outcome)
    requires v.Valid() && v.Readable(cs, tail) && Chain(v.Table(), head, cs, tail) && v.store.ClusterSize > 0
    requires IsSuballoc(tail) ==> tail in v.suballoc.Used && v.suballoc.Known(tail)
    requires sa ==> FileHoused(v.fat.Lay, v.Snapshot(), cs, tail)
    modifies v, v.fat, v.store, v.freeList, v.suballoc
    ensures v.Valid() && v.fat.Lay == old(v.fat.Lay) && Framed(v, old(StartOf(v)), cs, sa)
    ensures head == 0 ==> code == FILE_CORRUPT && newHead == 0 && unchanged(v, v.fat, v.store, v.freeList, v.suballoc)
    ensures v.fat.Reliable() && head != 0 ==> Done(v, old(StartOf(v)), old(FileOf(v, head, cs, tail)), GoalAt(v, size, sa), o, code, newHead)
    ensures v.fat.Reliable() && head != 0 ==> InTable(old(v.Table()), cs) && FileStays(v, old(StartOf(v)), old(FileOf(v, head, cs, tail)), o, size, sa,
      UsesRecord(old(v.Table()), old(FileOf(v, head, cs, tail)), GoalAt(v, size, sa)))
    ensures head != 0 && old(Recordable(v, FileOf(v, head, cs, tail), GoalAt(v, size, sa))) ==> HasRecord(v, old(FileOf(v, head, cs, tail)), o)
    ensures v.fat.Reliable() && old(Sound(v.segments, v.View())) && SegmentsApart(v.segments) ==> Sound(v.segments, v.View())
    ensures v.fat.Reliable() || (!sa && code != VOLUME_CORRUPT) ==> (old(v.fat.InSync()) ==> v.fat.InSync())
  {
    hide FatTable.Valid, FatTable.InSync, BitBlockList.Valid, SuballocPool.Valid, Volume.SameCopies, SameDataBut, Outside, Walk, Bin, FileKept, Housed,
      SuballocPool.Contents, SuballocPool.Known, Below, Truncated, UsedAfter, Chain, Volume.Valid, Framed, FileHoused, SameBytesOf,
      Ascending, OutsideFat, Sound, SegmentsApart, Volume.Readable, Done, FileStays, Recordable, HasRecord, UsesRecord, GoalAt;
    ghost var w, f := StartOf(v), FileOf(v, head, cs, tail);
    FramedBySelf(v, cs, tail, sa);
    assert InTable(w.s.fat, cs) && (sa ==> tail >= |w.s.fat|) by { HousedEnds(v, head, cs, tail, sa); }
    if head == 0 { return FILE_CORRUPT, 0, Outcome(0, 0, 0, 0, [], w.s); }
    var fi, off := Position(v, size, sa);
    if IsMarker(head) {
      EmptyChain(w.s.fat, head, cs, tail);
      code, newHead, o := TruncateMarker(v, head, fi, off, sa);
    } else {
      code, newHead, o := TruncateFrom(v, head, fi, off, sa, cs, tail);
    }
    if v.fat.Reliable() { ItStays(v, w, f, o, code, newHead, size, sa); }
  }
}
