/** FAT entries scattered over mirrored clusters and found through a hash (fat.c). */
module FatTables {
  import opened Words
  import opened ChunkMath

  // ---- flat byte arrays -----------------------------------------------------

  /** `bytes` with `buf` written over it at `offset`. */
  function Splice<T>(bytes: seq<T>, offset: nat, buf: seq<T>): (r: seq<T>)
    requires offset + |buf| <= |bytes|
    ensures |r| == |bytes|
    ensures forall i :: 0 <= i < |bytes| ==> r[i] == if offset <= i < offset + |buf| then buf[i - offset] else bytes[i]
  {
    bytes[..offset] + buf + bytes[offset + |buf|..]
  }

  predicate OnBoundary(at: nat) {
    at % IO_BLOCK_SIZE == 0
  }

  /** An entry never straddles a block, so a cut write of one moves nothing. */
  lemma EntryIsWhole(o: nat, written: nat)
    requires OnBoundary(o * ENTRY_SIZE + written) && written < ENTRY_SIZE
    ensures written == 0
  {
  }

  /** The volume's clusters, each a flat byte array; only the `flaky` ones can report an I/O error. */
  class ClusterStore {
    const ClusterSize: nat
    const MountedVolumeClusters: ulong
    const flaky: set<ulong>
    var bytes: seq<seq<byte>>

    ghost predicate Valid()
      reads this
    {
      |bytes| == MountedVolumeClusters && forall c :: 0 <= c < |bytes| ==> |bytes[c]| == ClusterSize
    }

    constructor (clusterSize: nat, clusters: ulong, flaky: set<ulong>)
      ensures Valid() && ClusterSize == clusterSize && MountedVolumeClusters == clusters && this.flaky == flaky
    {
      ClusterSize, MountedVolumeClusters, this.flaky := clusterSize, clusters, flaky;
      bytes := seq(clusters, _ => seq(clusterSize, _ => 0));
    }

    /** ReadClusterWithOffset: an error cuts the transfer short, at a block boundary. */
    method ReadClusterWithOffset(cluster: ulong, offset: nat, size: nat) returns (buf: seq<byte>, code: ulong)
      requires Valid() && offset + size < TWO_TO_THE_32
      ensures cluster >= MountedVolumeClusters || offset + size > ClusterSize ==> buf == [] && code == INVALID_PARAMETER
      ensures cluster < MountedVolumeClusters && offset + size <= ClusterSize ==>
        && (code == 0 ==> buf == bytes[cluster][offset..offset + size])
        && (code != 0 ==> |buf| < size)
        && (cluster !in flaky ==> code == 0)
    {
      if cluster >= MountedVolumeClusters || offset + size > ClusterSize {
        return [], INVALID_PARAMETER;
      }
      var done := Transfer(cluster, offset, size);
      return bytes[cluster][offset..offset + done], if done == size then 0 else DISK_IO_ERROR;
    }

    /** WriteClusterWithOffset: an error leaves a prefix written, ending at a block boundary. */
    method WriteClusterWithOffset(cluster: ulong, offset: nat, buf: seq<byte>) returns (written: nat, code: ulong)
      requires Valid() && offset + |buf| < TWO_TO_THE_32
      modifies this
      ensures Valid()
      ensures cluster >= MountedVolumeClusters || offset + |buf| > ClusterSize ==>
        written == 0 && code == INVALID_PARAMETER && bytes == old(bytes)
      ensures cluster < MountedVolumeClusters && offset + |buf| <= ClusterSize ==>
        && written <= |buf| && (code == 0 <==> written == |buf|) && (cluster !in flaky ==> code == 0)
        && bytes == old(bytes)[cluster := Splice(old(bytes)[cluster], offset, buf[..written])]
        && (written == |buf| || written == 0 || OnBoundary(offset + written))
    {
      if cluster >= MountedVolumeClusters || offset + |buf| > ClusterSize {
        return 0, INVALID_PARAMETER;
      }
      written := Transfer(cluster, offset, |buf|);
      bytes := bytes[cluster := Splice(bytes[cluster], offset, buf[..written])];
      code := if written == |buf| then 0 else DISK_IO_ERROR;
    }

    /** How many of `size` bytes move, block by block, before the first I/O error. */
    method Transfer(cluster: ulong, offset: nat, size: nat) returns (done: nat)
      ensures done <= size && (cluster !in flaky ==> done == size)
      ensures done == size || done == 0 || OnBoundary(offset + done)
    {
      done := 0;
      while done < size
        invariant done <= size
        invariant done == size || done == 0 || OnBoundary(offset + done)
      {
        var fails: bool := *;
        if cluster in flaky && fails { return; }
        var room := IO_BLOCK_SIZE - (offset + done) % IO_BLOCK_SIZE;
        done := done + if size - done > room then room else size - done;
      }
    }
  }

  // ---- FAT entries ----------------------------------------------------------

  datatype FatEntry = FatEntry(FATIndex: ulong, FATCluster: ulong)

  const ENTRY_SIZE: nat := 8

  function EncodeUlong(n: ulong): (r: seq<byte>)
    ensures |r| == 4
  {
    [n % 0x100, n / 0x100 % 0x100, n / 0x1_0000 % 0x100, n / 0x100_0000]
  }

  function DecodeUlong(b: seq<byte>): ulong
    requires |b| == 4
  {
    var b0: int, b1: int, b2: int, b3: int := b[0], b[1], b[2], b[3];
    b0 + b1 * 0x100 + b2 * 0x1_0000 + b3 * 0x100_0000
  }

  function Encode(e: FatEntry): (r: seq<byte>)
    ensures |r| == ENTRY_SIZE
  {
    EncodeUlong(e.FATIndex) + EncodeUlong(e.FATCluster)
  }

  function Decode(b: seq<byte>): FatEntry
    requires |b| == ENTRY_SIZE
  {
    FatEntry(DecodeUlong(b[..4]), DecodeUlong(b[4..]))
  }

  lemma UlongRoundTrip(n: ulong)
    ensures DecodeUlong(EncodeUlong(n)) == n
  {
    assert n == n % 0x100 + n / 0x100 * 0x100;
    assert n / 0x100 == n / 0x100 % 0x100 + n / 0x1_0000 * 0x100;
    assert n / 0x1_0000 == n / 0x1_0000 % 0x100 + n / 0x100_0000 * 0x100;
  }

  lemma EntryRoundTrip(e: FatEntry)
    ensures Decode(Encode(e)) == e
  {
    UlongRoundTrip(e.FATIndex);
    UlongRoundTrip(e.FATCluster);
    hide EncodeUlong, DecodeUlong;
    assert Encode(e)[..4] == EncodeUlong(e.FATIndex);
    assert Encode(e)[4..] == EncodeUlong(e.FATCluster);
  }

  /** An entry on disk: index, then link, the low byte of each first. */
  lemma EntryBytes(e: FatEntry)
    ensures var b := Encode(e); |b| == 8
    ensures var b := Encode(e); e.FATIndex == LittleEndian(b[0], b[1], b[2], b[3]) && e.FATCluster == LittleEndian(b[4], b[5], b[6], b[7])
  {
    UlongRoundTrip(e.FATIndex);
    UlongRoundTrip(e.FATCluster);
  }

  function LittleEndian(b0: int, b1: int, b2: int, b3: int): int {
    ((b3 * 0x100 + b2) * 0x100 + b1) * 0x100 + b0
  }

  function DecodeAt(buf: seq<byte>, o: nat): FatEntry
    requires o * ENTRY_SIZE + ENTRY_SIZE <= |buf|
  {
    Decode(buf[o * ENTRY_SIZE..o * ENTRY_SIZE + ENTRY_SIZE])
  }

  /** The entries a cluster holds. */
  ghost function Entries(buf: seq<byte>): seq<FatEntry> {
    if |buf| < ENTRY_SIZE then [] else [Decode(buf[..ENTRY_SIZE])] + Entries(buf[ENTRY_SIZE..])
  }

  lemma {:induction false} EntriesAt(buf: seq<byte>, per: nat, o: nat)
    requires |buf| == per * ENTRY_SIZE && o < per
    ensures |Entries(buf)| == per
    ensures Entries(buf)[o] == DecodeAt(buf, o)
  {
    var rest := buf[ENTRY_SIZE..];
    if o > 0 {
      EntriesAt(rest, per - 1, o - 1);
      assert rest[(o - 1) * ENTRY_SIZE..(o - 1) * ENTRY_SIZE + ENTRY_SIZE] == buf[o * ENTRY_SIZE..o * ENTRY_SIZE + ENTRY_SIZE];
    } else if per > 1 {
      EntriesAt(rest, per - 1, 0);
    }
  }

  /** Writing one encoded entry changes that entry and no other. */
  lemma EntriesPut(buf: seq<byte>, per: nat, o: nat, e: FatEntry)
    requires |buf| == per * ENTRY_SIZE && o < per
    ensures |Entries(buf)| == per
    ensures Entries(Splice(buf, o * ENTRY_SIZE, Encode(e))) == Entries(buf)[o := e]
  {
    var put := Splice(buf, o * ENTRY_SIZE, Encode(e));
    EntriesAt(buf, per, o);
    EntriesAt(put, per, o);
    assert put[o * ENTRY_SIZE..o * ENTRY_SIZE + ENTRY_SIZE] == Encode(e);
    EntryRoundTrip(e);
    forall i | 0 <= i < per && i != o ensures Entries(put)[i] == Entries(buf)[i] {
      EntriesAt(buf, per, i);
      EntriesAt(put, per, i);
      assert put[i * ENTRY_SIZE..i * ENTRY_SIZE + ENTRY_SIZE] == buf[i * ENTRY_SIZE..i * ENTRY_SIZE + ENTRY_SIZE];
    }
  }

  // ---- a table copy: clusters cs, one block of entries each ------------------

  ghost predicate Placed(cs: seq<ulong>, bytes: seq<seq<byte>>, per: nat)
    ensures Placed(cs, bytes, per) ==> forall b :: 0 <= b < |cs| ==> cs[b] < |bytes|
  {
    NoDup(cs) && forall b :: 0 <= b < |cs| ==> cs[b] < |bytes| && |bytes[cs[b]]| == per * ENTRY_SIZE
  }

  ghost function Table(cs: seq<ulong>, bytes: seq<seq<byte>>): seq<FatEntry>
    requires forall b :: 0 <= b < |cs| ==> cs[b] < |bytes|
  {
    if cs == [] then [] else Table(cs[..|cs| - 1], bytes) + Entries(bytes[cs[|cs| - 1]])
  }

  lemma {:induction false} TableAt(cs: seq<ulong>, bytes: seq<seq<byte>>, per: nat, b: nat, o: nat)
    requires Placed(cs, bytes, per) && b < |cs| && o < per
    ensures |Table(cs, bytes)| == Start(|cs|, per) > Start(b, per) + o
    ensures Table(cs, bytes)[Start(b, per) + o] == DecodeAt(bytes[cs[b]], o)
    decreases |cs|
  {
    var front := cs[..|cs| - 1];
    EntriesAt(bytes[cs[|cs| - 1]], per, o);
    TableLength(front, bytes, per);
    if b < |front| { TableAt(front, bytes, per, b, o); }
  }

  lemma {:induction false} TableLength(cs: seq<ulong>, bytes: seq<seq<byte>>, per: nat)
    requires Placed(cs, bytes, per) && per > 0
    ensures |Table(cs, bytes)| == Start(|cs|, per)
  {
    if cs != [] {
      TableLength(cs[..|cs| - 1], bytes, per);
      EntriesAt(bytes[cs[|cs| - 1]], per, 0);
    }
  }

  /** Clusters outside the copy do not matter to it. */
  lemma {:induction false} TableFrame(cs: seq<ulong>, bytes: seq<seq<byte>>, now: seq<seq<byte>>)
    requires |bytes| == |now| && forall b :: 0 <= b < |cs| ==> cs[b] < |bytes| && now[cs[b]] == bytes[cs[b]]
    ensures Table(cs, now) == Table(cs, bytes)
  {
    if cs != [] { TableFrame(cs[..|cs| - 1], bytes, now); }
  }

  /** An entry written in block b changes that one entry of the table. */
  lemma {:induction false} TablePut(cs: seq<ulong>, bytes: seq<seq<byte>>, per: nat, b: nat, o: nat, e: FatEntry)
    requires Placed(cs, bytes, per) && b < |cs| && o < per
    ensures Start(b, per) + o < |Table(cs, bytes)|
    ensures Table(cs, bytes[cs[b] := Splice(bytes[cs[b]], o * ENTRY_SIZE, Encode(e))]) == Table(cs, bytes)[Start(b, per) + o := e]
    decreases |cs|
  {
    hide Entries, Splice, Encode, Table, Start;
    var front, last := cs[..|cs| - 1], cs[|cs| - 1];
    var now := bytes[cs[b] := Splice(bytes[cs[b]], o * ENTRY_SIZE, Encode(e))];
    TableAt(cs, bytes, per, b, o);
    TableLength(front, bytes, per);
    TableSplit(cs, bytes);
    TableSplit(cs, now);
    if b < |front| {
      TableAt(front, bytes, per, b, o);
      TablePut(front, bytes, per, b, o, e);
      assert now[last] == bytes[last];
      UpdateFirst(Table(front, bytes), Entries(bytes[last]), Start(b, per) + o, e);
    } else {
      TableFrame(front, bytes, now);
      EntriesPut(bytes[last], per, o, e);
      UpdateSecond(Table(front, bytes), Entries(bytes[last]), o, e);
    }
  }

  lemma TableSplit(cs: seq<ulong>, bytes: seq<seq<byte>>)
    requires cs != [] && forall b :: 0 <= b < |cs| ==> cs[b] < |bytes|
    ensures Table(cs, bytes) == Table(cs[..|cs| - 1], bytes) + Entries(bytes[cs[|cs| - 1]])
  {
  }

  // ---- the hashed, mirrored table -------------------------------------------

  /** MIRROR_LRU: where block BlockIndex of the FAT lives, and its mirror. */
  datatype MirrorLru = MirrorLru(BlockIndex: nat, Cluster1: ulong, Cluster2: ulong)

  function Primaries(lay: seq<MirrorLru>): (r: seq<ulong>)
    ensures |r| == |lay|
  {
    seq(|lay|, b requires 0 <= b < |lay| => lay[b].Cluster1)
  }

  function Mirrors(lay: seq<MirrorLru>): (r: seq<ulong>)
    ensures |r| == |lay|
  {
    seq(|lay|, b requires 0 <= b < |lay| => lay[b].Cluster2)
  }

  /** The two copies do not share clusters. */
  ghost predicate Apart(lay: seq<MirrorLru>) {
    forall b, d :: 0 <= b < |lay| && 0 <= d < |lay| ==> lay[b].Cluster1 != lay[d].Cluster2
  }

  /** Cluster / EntriesPerCluster and Cluster % EntriesPerCluster. */
  function BlockOf(cluster: nat, per: nat): nat
    requires per > 0
  {
    cluster / per
  }

  function SlotOf(cluster: nat, per: nat): nat
    requires per > 0
  {
    cluster % per
  }

  /** Block b is the first element with BlockIndex b in its bucket. */
  ghost predicate Hashed(hash: seq<seq<MirrorLru>>, lay: seq<MirrorLru>) {
    && |hash| > 0
    && (forall b :: 0 <= b < |lay| ==> lay[b].BlockIndex == b && lay[b] in hash[Bucket(b, |hash|)])
    && (forall h, i :: 0 <= h < |hash| && 0 <= i < |hash[h]| ==>
      hash[h][i].BlockIndex < |lay| && hash[h][i] == lay[hash[h][i].BlockIndex])
  }

  class FatTable {
    const store: ClusterStore
    const PerCluster: nat  // entries in one cluster
    var FATBlockHash: seq<seq<MirrorLru>>

    ghost var Lay: seq<MirrorLru>
    ghost var Flat: seq<FatEntry>
    ghost var Mirror: seq<FatEntry>

    ghost predicate Valid()
      reads this, store
      ensures Valid() ==> store.Valid() && PerCluster > 0 && |Flat| == |Mirror|
    {
      Layout() && Flat == Table(Primaries(Lay), store.bytes) && Mirror == Table(Mirrors(Lay), store.bytes) && Sized()
    }

    ghost predicate Layout()
      reads this, store
    {
      && store.Valid() && PerCluster > 0 && store.ClusterSize == PerCluster * ENTRY_SIZE < TWO_TO_THE_32
      && Hashed(FATBlockHash, Lay) && Apart(Lay)
      && Placed(Primaries(Lay), store.bytes, PerCluster) && Placed(Mirrors(Lay), store.bytes, PerCluster)
    }

    ghost predicate Sized()
      reads this
    {
      |Flat| == |Mirror| == Start(|Lay|, PerCluster)
    }

    /** No cluster of either copy reports I/O errors. */
    ghost predicate Reliable()
      reads this
    {
      forall b :: 0 <= b < |Lay| ==> Lay[b].Cluster1 !in store.flaky && Lay[b].Cluster2 !in store.flaky
    }

    /** Both copies hold the same entries. */
    ghost predicate InSync()
      reads this
    {
      Flat == Mirror
    }

    constructor (store: ClusterStore, per: nat, hashLimit: nat)
      requires store.Valid() && per > 0 && store.ClusterSize == per * ENTRY_SIZE < TWO_TO_THE_32 && hashLimit > 0
      ensures Valid() && InSync() && this.store == store && Lay == []
    {
      this.store, PerCluster := store, per;
      FATBlockHash := seq(hashLimit, _ => []);
      Lay, Flat, Mirror := [], [], [];
    }

    /** A write to a cluster that holds none of the table. */
    method WriteElsewhere(cluster: ulong, offset: nat, buf: seq<byte>) returns (written: nat)
      requires Valid() && cluster < store.MountedVolumeClusters && offset + |buf| <= store.ClusterSize
      requires forall b :: 0 <= b < |Lay| ==> cluster != Lay[b].Cluster1 && cluster != Lay[b].Cluster2
      modifies store
      ensures Valid() && written <= |buf| && |store.bytes| == |old(store.bytes)|
      ensures forall c :: 0 <= c < |store.bytes| && c != cluster ==> store.bytes[c] == old(store.bytes[c])
    {
      hide Table, Splice, Hashed, Start, OnBoundary;
      ghost var bytes := store.bytes;
      var code: ulong;
      written, code := store.WriteClusterWithOffset(cluster, offset, buf);
      assert forall b :: 0 <= b < |Lay| ==> Primaries(Lay)[b] == Lay[b].Cluster1 && Mirrors(Lay)[b] == Lay[b].Cluster2;
      TableFrame(Primaries(Lay), bytes, store.bytes);
      TableFrame(Mirrors(Lay), bytes, store.bytes);
    }

    /** AddToFATHash: at the tail of its bucket. */
    method AddToFATHash(lru: MirrorLru)
      requires Hashed(FATBlockHash, Lay) && lru.BlockIndex == |Lay|
      modifies this`FATBlockHash, this`Lay
      ensures Hashed(FATBlockHash, Lay) && Lay == old(Lay) + [lru]
    {
      hide Bucket;
      var h := Bucket(lru.BlockIndex, |FATBlockHash|);
      FATBlockHash := FATBlockHash[h := FATBlockHash[h] + [lru]];
      Lay := Lay + [lru];
    }

    /** CreateFatLRU: the next block of the table and its mirror join the hash. */
    method CreateFatLRU(cluster: ulong, mirror: ulong, index: nat)
      requires Valid() && index == |Lay|
      requires cluster < store.MountedVolumeClusters && mirror < store.MountedVolumeClusters && cluster != mirror
      requires forall b :: 0 <= b < |Lay| ==> cluster != Lay[b].Cluster1 && cluster != Lay[b].Cluster2
      requires forall b :: 0 <= b < |Lay| ==> mirror != Lay[b].Cluster1 && mirror != Lay[b].Cluster2
      modifies this
      ensures Valid() && Lay == old(Lay) + [MirrorLru(index, cluster, mirror)]
      ensures Flat == old(Flat) + Entries(store.bytes[cluster])
      ensures Mirror == old(Mirror) + Entries(store.bytes[mirror])
    {
      hide Hashed, Entries, Table, Start;
      ghost var was := Lay;
      var lru := MirrorLru(index, cluster, mirror);
      AddToFATHash(lru);
      PlacedPlus(Primaries(was), cluster, store.bytes, PerCluster);
      PlacedPlus(Mirrors(was), mirror, store.bytes, PerCluster);
      assert Primaries(Lay) == Primaries(was) + [cluster] && Mirrors(Lay) == Mirrors(was) + [mirror];
      hide Placed;
      Flat := Table(Primaries(Lay), store.bytes);
      Mirror := Table(Mirrors(Lay), store.bytes);
      TableLength(Primaries(Lay), store.bytes, PerCluster);
      TableLength(Mirrors(Lay), store.bytes, PerCluster);
    }

    /** The bucket walk: the block's element, if the table reaches that far. */
    static method Lookup(hash: seq<seq<MirrorLru>>, ghost lay: seq<MirrorLru>, block: nat) returns (found: Option<MirrorLru>)
      requires Hashed(hash, lay)
      ensures found == if block < |lay| then Some(lay[block]) else None
    {
      hide Bucket;
      var h := Bucket(block, |hash|);
      var bucket := hash[h];
      var i := 0;
      while i < |bucket|
        invariant i <= |bucket| && forall k :: 0 <= k < i ==> bucket[k].BlockIndex != block
      {
        if bucket[i].BlockIndex == block { return Some(bucket[i]); }
        i := i + 1;
      }
      return None;
    }

    /** Which block and slot hold a cluster's entry. */
    lemma Located(cluster: ulong)
      requires Valid()
      ensures var b, o := BlockOf(cluster, PerCluster), SlotOf(cluster, PerCluster);
        && cluster == Start(b, PerCluster) + o && o < PerCluster
        && (cluster < |Flat| <==> b < |Lay|)
        && Hashed(FATBlockHash, Lay)
    {
      hide Table, Hashed;
      var b := BlockOf(cluster, PerCluster);
      Locate(cluster, Start(|Lay|, PerCluster), |Lay|, PerCluster);
      hide Start;
      if b < |Lay| {
        StartMonotone(b, |Lay|, PerCluster);
      } else {
        StartMonotoneWeak(|Lay|, b, PerCluster);
      }
    }

    /** What the two copies hold in slot o of block b. */
    lemma CopiesAt(b: nat, o: nat)
      requires Valid() && b < |Lay| && o < PerCluster
      ensures Lay[b].BlockIndex == b
      ensures Lay[b].Cluster1 < store.MountedVolumeClusters && Lay[b].Cluster2 < store.MountedVolumeClusters
      ensures |store.bytes[Lay[b].Cluster1]| == |store.bytes[Lay[b].Cluster2]| == PerCluster * ENTRY_SIZE
      ensures Start(b, PerCluster) + o < |Flat|
      ensures Flat[Start(b, PerCluster) + o] == DecodeAt(store.bytes[Lay[b].Cluster1], o)
      ensures Mirror[Start(b, PerCluster) + o] == DecodeAt(store.bytes[Lay[b].Cluster2], o)
    {
      hide Start, Table;
      TableAt(Primaries(Lay), store.bytes, PerCluster, b, o);
      TableAt(Mirrors(Lay), store.bytes, PerCluster, b, o);
      assert Primaries(Lay)[b] == Lay[b].Cluster1 && Mirrors(Lay)[b] == Lay[b].Cluster2;
    }

    /** One copy of an entry, read from its cluster. */
    method ReadEntry(cluster: ulong, offset: nat) returns (e: Option<FatEntry>)
      requires Valid() && cluster < store.MountedVolumeClusters && offset < PerCluster
      ensures |store.bytes[cluster]| == PerCluster * ENTRY_SIZE
      ensures e.Some? ==> e.value == DecodeAt(store.bytes[cluster], offset)
      ensures cluster !in store.flaky ==> e.Some?
    {
      hide Table, Hashed, Placed, Decode;
      var buf, code := store.ReadClusterWithOffset(cluster, offset * ENTRY_SIZE, ENTRY_SIZE);
      return if |buf| == ENTRY_SIZE && code == 0 then Some(Decode(buf)) else None;
    }

    /** The entry a good read returns: none outside the volume or the table. */
    ghost function EntryOf(cluster: ulong): Option<FatEntry>
      reads this, store
    {
      if cluster < MARKER && cluster < store.MountedVolumeClusters && cluster < |Flat| then Some(Flat[cluster]) else None
    }

    /** What a read of cluster's entry may return: either copy's, or nothing if reads can fail. */
    ghost predicate GoodRead(cluster: ulong, e: Option<FatEntry>)
      requires Valid()
      reads this, store
    {
      && (e.Some? ==> EntryOf(cluster).Some? && (e.value == Flat[cluster] || e.value == Mirror[cluster]))
      && (Reliable() ==> e == EntryOf(cluster))
    }

    /** GetFatEntry and GetFatEntryAndLRU: the primary copy, or the mirror when that read fails. */
    method GetFatEntryAndLRU(cluster: ulong) returns (e: Option<FatEntry>, lru: Option<MirrorLru>)
      requires Valid()
      ensures GoodRead(cluster, e)
      ensures e.Some? ==> BlockOf(cluster, PerCluster) < |Lay| && lru == Some(Lay[BlockOf(cluster, PerCluster)])
    {
      hide Valid, DecodeAt, Hashed, Start, BlockOf, SlotOf;
      if cluster == EOF || IsMarker(cluster) { return None, None; }
      if cluster > Pred(store.MountedVolumeClusters) { return None, None; }
      var block, offset := BlockOf(cluster, PerCluster), SlotOf(cluster, PerCluster);
      Located(cluster);
      lru := Lookup(FATBlockHash, Lay, block);
      if lru == None { return None, None; }
      CopiesAt(block, offset);
      e := ReadCopies(lru.value, offset);
    }

    method ReadCopies(lru: MirrorLru, offset: nat) returns (e: Option<FatEntry>)
      requires Valid() && offset < PerCluster
      requires lru.Cluster1 < store.MountedVolumeClusters && lru.Cluster2 < store.MountedVolumeClusters
      ensures |store.bytes[lru.Cluster1]| == |store.bytes[lru.Cluster2]| == PerCluster * ENTRY_SIZE
      ensures e.Some? ==> e.value == DecodeAt(store.bytes[lru.Cluster1], offset) || e.value == DecodeAt(store.bytes[lru.Cluster2], offset)
      ensures lru.Cluster1 !in store.flaky ==> e == Some(DecodeAt(store.bytes[lru.Cluster1], offset))
    {
      hide DecodeAt;
      e := ReadEntry(lru.Cluster1, offset);
      if e == None {
        e := ReadEntry(lru.Cluster2, offset);
      }
    }

    /** With equal copies, falling back to the mirror gives the same answer. */
    lemma FallbackAgrees(cluster: ulong, e: Option<FatEntry>)
      requires Valid() && InSync() && GoodRead(cluster, e) && e.Some?
      ensures e == EntryOf(cluster)
    {
    }

    /** WriteFATEntry: primary, then mirror; a failed write leaves that copy as it was. */
    method WriteFATEntry(lru: MirrorLru, e: FatEntry, cluster: ulong) returns (code: ulong)
      requires Valid() && EntryOf(cluster).Some? && BlockOf(cluster, PerCluster) < |Lay| && lru == Lay[BlockOf(cluster, PerCluster)]
      modifies this, store
      ensures Valid() && Lay == old(Lay)
      ensures code == 0 ==> Flat == old(Flat)[cluster := e] && Mirror == old(Mirror)[cluster := e]
      ensures code != 0 ==> Mirror == old(Mirror) && (Flat == old(Flat) || Flat == old(Flat)[cluster := e])
      ensures old(InSync()) ==> (InSync() <==> code == 0 || Flat == old(Flat))
      ensures Reliable() ==> code == 0
      ensures |store.bytes| == |old(store.bytes)|
      ensures forall c :: 0 <= c < |store.bytes| && c != lru.Cluster1 && c != lru.Cluster2 ==> store.bytes[c] == old(store.bytes[c])
    {
      hide Valid, DecodeAt, Hashed, Start, BlockOf, SlotOf;
      Located(cluster);
      CopiesAt(BlockOf(cluster, PerCluster), SlotOf(cluster, PerCluster));
      code := WriteCopy(true, lru, SlotOf(cluster, PerCluster), e);
      if code == 0 {
        code := WriteCopy(false, lru, SlotOf(cluster, PerCluster), e);
      }
    }

    /** One entry written to a cluster, whole or not at all. */
    method PutEntry(at: ulong, offset: nat, e: FatEntry) returns (code: ulong)
      requires store.Valid() && at < |store.bytes| && (offset + 1) * ENTRY_SIZE <= store.ClusterSize < TWO_TO_THE_32
      modifies store
      ensures store.Valid() && (at !in store.flaky ==> code == 0)
      ensures store.bytes == if code == 0 then old(store.bytes)[at := Splice(old(store.bytes)[at], offset * ENTRY_SIZE, Encode(e))] else old(store.bytes)
    {
      hide Splice, Encode, OnBoundary;
      var written, err := store.WriteClusterWithOffset(at, offset * ENTRY_SIZE, Encode(e));
      code := if written == ENTRY_SIZE && err == 0 then 0 else EOF;
      if written == ENTRY_SIZE {
        assert Encode(e)[..ENTRY_SIZE] == Encode(e);
      } else {
        if written != 0 { EntryIsWhole(offset, written); }
        NothingWritten(old(store.bytes)[at], offset * ENTRY_SIZE, Encode(e));
        assert store.bytes == old(store.bytes);
      }
    }

    /** One entry of one copy, written to its cluster. */
    method WriteCopy(primary: bool, lru: MirrorLru, offset: nat, e: FatEntry) returns (code: ulong)
      requires Valid() && lru.BlockIndex < |Lay| && lru == Lay[lru.BlockIndex] && offset < PerCluster
      modifies this, store
      ensures Valid() && Lay == old(Lay) && |store.bytes| == |old(store.bytes)|
      ensures Start(lru.BlockIndex, PerCluster) + offset < |Flat|
      ensures var c := Start(lru.BlockIndex, PerCluster) + offset;
        && Flat == (if code == 0 && primary then old(Flat)[c := e] else old(Flat))
        && Mirror == (if code == 0 && !primary then old(Mirror)[c := e] else old(Mirror))
      ensures Reliable() ==> code == 0
      ensures forall c :: 0 <= c < |store.bytes| && c != (if primary then lru.Cluster1 else lru.Cluster2) ==>
        store.bytes[c] == old(store.bytes[c])
    {
      hide Hashed, Table, Entries, Splice, Encode, Start, Placed, Bucket;
      var at := if primary then lru.Cluster1 else lru.Cluster2;
      ghost var mine := if primary then Primaries(Lay) else Mirrors(Lay);
      ghost var other := if primary then Mirrors(Lay) else Primaries(Lay);
      assert mine[lru.BlockIndex] == at && forall b :: 0 <= b < |other| ==> other[b] != at;
      PutInOne(mine, other, store.bytes, PerCluster, lru.BlockIndex, offset, e);
      code := PutEntry(at, offset, e);
      if primary { Flat := Table(mine, store.bytes); } else { Mirror := Table(mine, store.bytes); }
    }
  }

  /** An entry written into one copy changes that copy's table there, and the other copy's nowhere. */
  lemma PutInOne(mine: seq<ulong>, other: seq<ulong>, bytes: seq<seq<byte>>, per: nat, b: nat, o: nat, e: FatEntry)
    requires Placed(mine, bytes, per) && Placed(other, bytes, per) && b < |mine| && o < per
    requires forall k :: 0 <= k < |other| ==> other[k] != mine[b]
    ensures mine[b] < |bytes| && |bytes[mine[b]]| == per * ENTRY_SIZE && (o + 1) * ENTRY_SIZE <= per * ENTRY_SIZE
    ensures Start(b, per) + o < |Table(mine, bytes)|
    ensures var now := bytes[mine[b] := Splice(bytes[mine[b]], o * ENTRY_SIZE, Encode(e))];
      && Placed(mine, now, per) && Placed(other, now, per)
      && Table(mine, now) == Table(mine, bytes)[Start(b, per) + o := e] && Table(other, now) == Table(other, bytes)
  {
    hide Table, Entries, Encode, Start, Splice;
    TablePut(mine, bytes, per, b, o, e);
    TableFrame(other, bytes, bytes[mine[b] := Splice(bytes[mine[b]], o * ENTRY_SIZE, Encode(e))]);
  }

  lemma NothingWritten(bytes: seq<byte>, offset: nat, buf: seq<byte>)
    requires offset + |buf| <= |bytes|
    ensures Splice(bytes, offset, buf[..0]) == bytes
  {
  }

  lemma PlacedPlus(cs: seq<ulong>, c: ulong, bytes: seq<seq<byte>>, per: nat)
    requires Placed(cs, bytes, per) && c < |bytes| && |bytes[c]| == per * ENTRY_SIZE
    requires forall b :: 0 <= b < |cs| ==> cs[b] != c
    ensures Placed(cs + [c], bytes, per)
    ensures Table(cs + [c], bytes) == Table(cs, bytes) + Entries(bytes[c])
  {
    assert (cs + [c])[..|cs|] == cs;
  }
}
